/**
 * What the enrichment pass guarantees about its output file as a whole:
 * every input row comes out exactly once, labelled; a second run over the
 * output changes nothing; only unlabelled rows with a domain cause lookups;
 * and at most 49 completed rows are ever left unflushed.
 */
module EnrichmentProperties {
  import opened Classifier
  import opened Domain
  import opened Enrichment

  /** The rows written straight through all carry a host; the queued rows all lack one. */
  lemma {:induction false} SplitByHost(rows: seq<Row>)
    ensures forall r | r in Labelled(rows) :: HasHost(r)
    ensures forall r | r in Unlabelled(rows) :: !HasHost(r)
  {
    if rows != [] {
      SplitByHost(rows[..|rows| - 1]);
    }
  }

  lemma {:induction false} FillAllAppend(a: seq<Row>, b: seq<Row>, resolve: string -> seq<Record>)
    ensures FillAll(a + b, resolve) == FillAll(a, resolve) + FillAll(b, resolve)
  {
    var l, r := FillAll(a + b, resolve), FillAll(a, resolve) + FillAll(b, resolve);
    forall i | 0 <= i < |l| ensures l[i] == r[i] {
      if i < |a| {
        assert (a + b)[i] == a[i];
      } else {
        assert (a + b)[i] == b[i - |a|];
      }
    }
  }

  /** The two parts of the split together hold every input row once, in its output form. */
  lemma {:induction false} SplitKeepsEveryRow(rows: seq<Row>, resolve: string -> seq<Record>)
    ensures multiset(Labelled(rows)) + multiset(FillAll(Unlabelled(rows), resolve)) == multiset(Finals(rows, resolve))
  {
    if rows != [] {
      var front, last := rows[..|rows| - 1], rows[|rows| - 1];
      assert rows == front + [last];
      SplitKeepsEveryRow(front, resolve);
      SplitOneMore(front, last, resolve);
      FinalsOneMore(front, last, resolve);
    }
  }

  lemma {:induction false} SplitOneMore(front: seq<Row>, last: Row, resolve: string -> seq<Record>)
    ensures multiset(Labelled(front + [last])) + multiset(FillAll(Unlabelled(front + [last]), resolve)) ==
      multiset(Labelled(front)) + multiset(FillAll(Unlabelled(front), resolve)) + multiset{Final(last, resolve)}
  {
    var rows := front + [last];
    assert rows[..|rows| - 1] == front;
    if HasHost(last) {
      assert Unlabelled(rows) == Unlabelled(front) + [];
      assert Unlabelled(front) + [] == Unlabelled(front);
    } else {
      assert Labelled(rows) == Labelled(front) + [];
      assert Labelled(front) + [] == Labelled(front);
      FillAllAppend(Unlabelled(front), [last], resolve);
      assert FillAll([last], resolve) == [Fill(last, resolve)];
    }
  }

  lemma {:induction false} FinalsOneMore(front: seq<Row>, last: Row, resolve: string -> seq<Record>)
    ensures multiset(Finals(front + [last], resolve)) == multiset(Finals(front, resolve)) + multiset{Final(last, resolve)}
  {
    assert Finals(front + [last], resolve) == Finals(front, resolve) + [Final(last, resolve)];
  }

  lemma {:induction false} SelectAppend<T>(s: seq<T>, a: seq<nat>, b: seq<nat>)
    requires forall i | 0 <= i < |a| :: a[i] < |s|
    requires forall i | 0 <= i < |b| :: b[i] < |s|
    ensures Select(s, a + b) == Select(s, a) + Select(s, b)
  {
    var l, r := Select(s, a + b), Select(s, a) + Select(s, b);
    forall i | 0 <= i < |l| ensures l[i] == r[i] {
      if i < |a| {
        assert (a + b)[i] == a[i];
      } else {
        assert (a + b)[i] == b[i - |a|];
      }
    }
  }

  /** Positions that all fall in a prefix of `s` select the same elements from that prefix. */
  lemma {:induction false} SelectFromPrefix<T>(s: seq<T>, n: nat, order: seq<nat>)
    requires n <= |s|
    requires forall i | 0 <= i < |order| :: order[i] < n
    ensures Select(s[..n], order) == Select(s, order)
  {
    var l, r := Select(s[..n], order), Select(s, order);
    assert |l| == |r|;
    forall i | 0 <= i < |l| ensures l[i] == r[i] {
    }
  }

  /** Without the last index, the other positions of a permutation hold only smaller indices. */
  lemma {:induction false} OthersBelow(before: seq<nat>, n: nat, after: seq<nat>)
    requires IsPermutation(before + [n] + after, n + 1)
    ensures forall i | 0 <= i < |before| :: before[i] < n
    ensures forall i | 0 <= i < |after| :: after[i] < n
    ensures forall i | 0 <= i < |before + after| :: (before + after)[i] < n
  {
    var order := before + [n] + after;
    forall i | 0 <= i < |before| ensures before[i] < n {
      assert order[i] == before[i] && order[|before|] == n;
    }
    forall i | 0 <= i < |after| ensures after[i] < n {
      assert order[|before| + 1 + i] == after[i] && order[|before|] == n;
    }
    var rest := before + after;
    forall i | 0 <= i < |rest| ensures rest[i] < n {
      if i < |before| {
        assert rest[i] == before[i];
      } else {
        assert rest[i] == after[i - |before|];
      }
    }
  }

  /** Without the last index, the other positions of a permutation are still pairwise distinct. */
  lemma {:induction false} OthersDistinct(before: seq<nat>, n: nat, after: seq<nat>)
    requires IsPermutation(before + [n] + after, n + 1)
    ensures forall i, j | 0 <= i < j < n :: (before + after)[i] != (before + after)[j]
  {
    var order, rest := before + [n] + after, before + after;
    forall i, j | 0 <= i < j < n ensures rest[i] != rest[j] {
      var i' := if i < |before| then i else i + 1;
      var j' := if j < |before| then j else j + 1;
      assert rest[i] == order[i'] && rest[j] == order[j'];
    }
  }

  /** Without the last index, every smaller index still has a position. */
  lemma {:induction false} OthersCover(before: seq<nat>, n: nat, after: seq<nat>)
    requires IsPermutation(before + [n] + after, n + 1)
    ensures forall k | 0 <= k < n :: k in before + after
  {
    var order, rest := before + [n] + after, before + after;
    forall k | 0 <= k < n ensures k in rest {
      assert k in order;
      var q :| 0 <= q < |order| && order[q] == k;
      if q < |before| {
        assert rest[q] == k;
      } else {
        assert q != |before|;
        assert rest[q - 1] == k;
      }
    }
  }

  /** Taking the last index out of a permutation leaves a permutation of the others. */
  lemma {:induction false} DropLast(order: seq<nat>, n: nat) returns (before: seq<nat>, after: seq<nat>)
    requires IsPermutation(order, n + 1)
    ensures order == before + [n] + after
    ensures forall i | 0 <= i < |before| :: before[i] < n
    ensures forall i | 0 <= i < |after| :: after[i] < n
    ensures IsPermutation(before + after, n)
  {
    assert n in order;
    var p :| 0 <= p < |order| && order[p] == n;
    before, after := order[..p], order[p + 1..];
    assert order == before + [n] + after;
    OthersBelow(before, n, after);
    OthersDistinct(before, n, after);
    OthersCover(before, n, after);
  }

  /** Selecting one more position adds that element to the multiset of what is selected. */
  lemma {:induction false} SelectOneMore<T>(s: seq<T>, before: seq<nat>, n: nat, after: seq<nat>)
    requires n < |s|
    requires forall i | 0 <= i < |before| :: before[i] < |s|
    requires forall i | 0 <= i < |after| :: after[i] < |s|
    ensures multiset(Select(s, before + [n] + after)) == multiset(Select(s, before + after)) + multiset{s[n]}
  {
    SelectAppend(s, before, [n]);
    SelectAppend(s, before + [n], after);
    SelectAppend(s, before, after);
  }

  /** Writing the rows in completion order loses and duplicates none: a reordering of the queue. */
  lemma {:induction false} SelectPermutes<T>(s: seq<T>, order: seq<nat>)
    requires IsPermutation(order, |s|)
    ensures multiset(Select(s, order)) == multiset(s)
    decreases |s|
  {
    if s != [] {
      var n := |s| - 1;
      var before, after := DropLast(order, n);
      SelectPermutes(s[..n], before + after);
      SelectFromPrefix(s, n, before + after);
      SelectOneMore(s, before, n, after);
      assert s == s[..n] + [s[n]];
    }
  }

  /**
   * The output file holds exactly the input rows, each once, the labelled ones
   * unchanged and the others filled in, whatever order the tasks complete in.
   */
  lemma {:induction false} EnrichedIsPermutation(rows: seq<Row>, order: seq<nat>, resolve: string -> seq<Record>)
    requires IsPermutation(order, |Unlabelled(rows)|)
    ensures |Enriched(rows, order, resolve)| == |rows|
    ensures multiset(Enriched(rows, order, resolve)) == multiset(Finals(rows, resolve))
  {
    SplitSizes(rows);
    SelectPermutes(FillAll(Unlabelled(rows), resolve), order);
    SplitKeepsEveryRow(rows, resolve);
  }

  /** Every row of the output file carries a non-empty `email_host`. */
  lemma {:induction false} EveryWrittenRowHasHost(rows: seq<Row>, order: seq<nat>, resolve: string -> seq<Record>)
    requires IsPermutation(order, |Unlabelled(rows)|)
    ensures forall r | r in Enriched(rows, order, resolve) :: HasHost(r)
  {
    SplitByHost(rows);
    var filled := Select(FillAll(Unlabelled(rows), resolve), order);
    forall r | r in filled ensures HasHost(r) {
      var i :| 0 <= i < |filled| && filled[i] == r;
      assert r == Fill(Unlabelled(rows)[order[i]], resolve);
    }
  }

  /** Rows that all carry a host are all written through, and none is looked up. */
  lemma {:induction false} AllLabelled(rows: seq<Row>, resolve: string -> seq<Record>)
    requires forall i | 0 <= i < |rows| :: HasHost(rows[i])
    ensures Labelled(rows) == rows
    ensures Unlabelled(rows) == []
    ensures Lookups(rows, resolve) == []
  {
    if rows != [] {
      var front := rows[..|rows| - 1];
      AllLabelled(front, resolve);
      assert rows == front + [rows[|rows| - 1]];
    }
  }

  /**
   * Running the pass again over its own output keeps the header, looks nothing
   * up and writes the same rows in the same order.
   */
  lemma {:induction false} RerunChangesNothing(fieldnames: seq<string>, rows: seq<Row>, order: seq<nat>,
                                              resolve: string -> seq<Record>)
    requires IsPermutation(order, |Unlabelled(rows)|)
    ensures OutputHeader(OutputHeader(fieldnames)) == OutputHeader(fieldnames)
    ensures Unlabelled(Enriched(rows, order, resolve)) == []
    ensures Lookups(Enriched(rows, order, resolve), resolve) == []
    ensures Enriched(Enriched(rows, order, resolve), [], resolve) == Enriched(rows, order, resolve)
  {
    var w := Enriched(rows, order, resolve);
    EveryWrittenRowHasHost(rows, order, resolve);
    assert forall i | 0 <= i < |w| :: w[i] in w;
    AllLabelled(w, resolve);
    assert Select(FillAll(Unlabelled(w), resolve), []) == [];
  }

  /**
   * The domains looked up are exactly the non-empty domains of the rows that
   * get a task: a row that already has a host, or whose address has no
   * domain, causes no lookup.
   */
  lemma {:induction false} LookupsComeFromUnlabelledRows(rows: seq<Row>, resolve: string -> seq<Record>)
    ensures forall d :: d in Lookups(rows, resolve) <==>
      d != [] && exists r | r in Unlabelled(rows) :: DomainOf(EmailOf(r)) == d
  {
    if rows != [] {
      var front, last := rows[..|rows| - 1], rows[|rows| - 1];
      assert rows == front + [last];
      LookupsComeFromUnlabelledRows(front, resolve);
      LookupsOneMore(front, last, resolve);
    }
  }

  /** One more row adds its domain to the lookups exactly when it is queued and has a domain. */
  lemma {:induction false} LookupsOneMore(front: seq<Row>, last: Row, resolve: string -> seq<Record>)
    ensures forall d :: d in Lookups(front + [last], resolve) <==>
      d in Lookups(front, resolve) || (!HasHost(last) && d != [] && DomainOf(EmailOf(last)) == d)
    ensures forall r :: r in Unlabelled(front + [last]) <==> r in Unlabelled(front) || (!HasHost(last) && r == last)
  {
    var rows := front + [last];
    assert rows[..|rows| - 1] == front;
  }

  /** Which domains are looked up depends only on the rows, never on what the lookups return. */
  lemma {:induction false} LookupsIgnoreAnswers(rows: seq<Row>, resolve: string -> seq<Record>, other: string -> seq<Record>)
    ensures Lookups(rows, resolve) == Lookups(rows, other)
  {
    if rows != [] {
      LookupsIgnoreAnswers(rows[..|rows| - 1], resolve, other);
    }
  }

  /** One flush per 50 completed tasks. */
  lemma {:induction false} FlushCount(n: nat)
    ensures |FlushMarks(n)| == n / 50
  {
    if n != 0 {
      FlushCount(n - 1);
    }
  }

  /** Fewer than 50 completed rows ever follow the last forced flush. */
  lemma {:induction false} FewUnflushed(n: nat)
    ensures var marks := FlushMarks(n);
      if marks == [] then n < 50 else n - marks[|marks| - 1] < 50
  {
    var marks := FlushMarks(n);
    var m := n - n % 50;
    if m != 0 {
      assert m % 50 == 0;
      assert m in marks;
      var q :| 0 <= q < |marks| && marks[q] == m;
      assert m <= marks[|marks| - 1];
    } else {
      assert forall k | 0 <= k < |marks| :: marks[k] in marks;
    }
  }
}
