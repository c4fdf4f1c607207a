/**
 * The row enrichment pass of process_csv: rows that already carry an
 * `email_host` value are written straight through; every other row gets one
 * process_domain task, and each finished task's row is written with its label
 * as the task completes. A forced flush follows every 50th completed task.
 *
 * The thread pool's completion order is an input, `order`: order[j] is the
 * (0-based) submission index of the j-th task to complete.
 */
module Enrichment {
  import opened Classifier
  import opened Domain

  /**
   * One CSV row as the reader yields it: field name to value. A field the
   * reader fills with `None` (a column the row has no value for, such as an
   * `email_host` column added to the header) is absent here.
   */
  type Row = map<string, string>

  const EmailHost: string := "email_host"

  /** `row.get("email_host")` is truthy: present and non-empty. */
  predicate HasHost(row: Row) {
    EmailHost in row && row[EmailHost] != ""
  }

  /** `row.get("email", "")`. */
  function EmailOf(row: Row): string {
    if "email" in row then row["email"] else ""
  }

  /** The header of the output file: the input header, with `email_host` appended when missing. */
  function OutputHeader(fieldnames: seq<string>): (h: seq<string>)
    ensures EmailHost in h
    ensures |h| == if EmailHost in fieldnames then |fieldnames| else |fieldnames| + 1
    ensures h[..|fieldnames|] == fieldnames
  {
    if EmailHost in fieldnames then fieldnames else fieldnames + [EmailHost]
  }

  /** The rows that are written straight through, in input order. */
  function Labelled(rows: seq<Row>): (p: seq<Row>)
  {
    if rows == [] then []
    else
      var last := rows[|rows| - 1];
      Labelled(rows[..|rows| - 1]) + if HasHost(last) then [last] else []
  }

  /** The rows that get a task, in submission (input) order. */
  function Unlabelled(rows: seq<Row>): (p: seq<Row>)
  {
    if rows == [] then []
    else
      var last := rows[|rows| - 1];
      Unlabelled(rows[..|rows| - 1]) + if HasHost(last) then [] else [last]
  }

  /** Every input row lands in exactly one of the two parts. */
  lemma {:induction false} SplitSizes(rows: seq<Row>)
    ensures |Labelled(rows)| + |Unlabelled(rows)| == |rows|
  {
    if rows != [] {
      SplitSizes(rows[..|rows| - 1]);
    }
  }

  /** A row after its task completes: `email_host` set to the label, every other field unchanged. */
  function Fill(row: Row, resolve: string -> seq<Record>): (r: Row)
    ensures HasHost(r)
    ensures r.Keys == row.Keys + {EmailHost}
    ensures forall k | k in row && k != EmailHost :: r[k] == row[k]
  {
    row[EmailHost := Name(ProcessDomain(EmailOf(row), resolve).provider)]
  }

  function FillAll(rows: seq<Row>, resolve: string -> seq<Record>): seq<Row> {
    seq(|rows|, i requires 0 <= i < |rows| => Fill(rows[i], resolve))
  }

  /** The queued rows, each with the label its task returned. */
  function WithLabels(pending: seq<Row>, labels: seq<Label>): seq<Row>
    requires |labels| == |pending|
  {
    seq(|pending|, k requires 0 <= k < |pending| => pending[k][EmailHost := Name(labels[k])])
  }

  /** What the process_domain task of each queued row returns. */
  function Outcomes(pending: seq<Row>, resolve: string -> seq<Record>): seq<Label> {
    seq(|pending|, k requires 0 <= k < |pending| => ProcessDomain(EmailOf(pending[k]), resolve).provider)
  }

  lemma {:induction false} OutcomesStep(pending: seq<Row>, row: Row, resolve: string -> seq<Record>)
    ensures Outcomes(pending + [row], resolve) == Outcomes(pending, resolve) + [ProcessDomain(EmailOf(row), resolve).provider]
  {
    var l, r := Outcomes(pending + [row], resolve), Outcomes(pending, resolve) + [ProcessDomain(EmailOf(row), resolve).provider];
    forall k | 0 <= k < |l| ensures l[k] == r[k] {
      assert (pending + [row])[k] == if k < |pending| then pending[k] else row;
    }
  }

  /** Each input row as it must appear in the output. */
  function Final(row: Row, resolve: string -> seq<Record>): Row {
    if HasHost(row) then row else Fill(row, resolve)
  }

  function Finals(rows: seq<Row>, resolve: string -> seq<Record>): seq<Row> {
    seq(|rows|, i requires 0 <= i < |rows| => Final(rows[i], resolve))
  }

  /** `order` lists each of the indices 0 .. n-1 exactly once, as as_completed yields each future once. */
  predicate IsPermutation(order: seq<nat>, n: nat) {
    && |order| == n
    && (forall i | 0 <= i < n :: order[i] < n)
    && (forall i, j | 0 <= i < j < n :: order[i] != order[j])
    && (forall k | 0 <= k < n :: k in order)
  }

  /** The elements of `s` at the positions `order` lists, in that order. */
  function Select<T>(s: seq<T>, order: seq<nat>): (r: seq<T>)
    requires forall i | 0 <= i < |order| :: order[i] < |s|
    ensures |r| == |order|
    ensures forall i | 0 <= i < |order| :: r[i] == s[order[i]]
  {
    if order == [] then []
    else Select(s, order[..|order| - 1]) + [s[order[|order| - 1]]]
  }

  /** The rows of the output file, in the order they are written. */
  function Enriched(rows: seq<Row>, order: seq<nat>, resolve: string -> seq<Record>): seq<Row>
    requires IsPermutation(order, |Unlabelled(rows)|)
  {
    Labelled(rows) + Select(FillAll(Unlabelled(rows), resolve), order)
  }

  /**
   * The domains handed to the resolver: one per unlabelled row whose email
   * has a domain, in submission order.
   */
  function Lookups(rows: seq<Row>, resolve: string -> seq<Record>): (ds: seq<string>)
    ensures |ds| <= |Unlabelled(rows)|
  {
    if rows == [] then []
    else
      var last := rows[|rows| - 1];
      Lookups(rows[..|rows| - 1], resolve) + if HasHost(last) then [] else ProcessDomain(EmailOf(last), resolve).lookups
  }

  /** The completed-task counts after which a flush is forced: every positive multiple of 50 up to n. */
  function FlushMarks(n: nat): (marks: seq<nat>)
    ensures forall k :: k in marks <==> 1 <= k <= n && k % 50 == 0
    ensures forall i, j | 0 <= i < j < |marks| :: marks[i] < marks[j]
    ensures forall i | 0 <= i < |marks| :: marks[i] <= n
  {
    if n == 0 then [] else FlushMarks(n - 1) + if n % 50 == 0 then [n] else []
  }

  /** How the split and the lookup log grow by one input row. */
  lemma {:induction false} SplitStep(rows: seq<Row>, i: nat, resolve: string -> seq<Record>)
    requires i < |rows|
    ensures Labelled(rows[..i + 1]) == Labelled(rows[..i]) + if HasHost(rows[i]) then [rows[i]] else []
    ensures Unlabelled(rows[..i + 1]) == Unlabelled(rows[..i]) + if HasHost(rows[i]) then [] else [rows[i]]
    ensures Lookups(rows[..i + 1], resolve) ==
      Lookups(rows[..i], resolve) + if HasHost(rows[i]) then [] else ProcessDomain(EmailOf(rows[i]), resolve).lookups
  {
    assert rows[..i + 1][..i] == rows[..i];
  }

  /** How the completed part of the output grows by one completed task. */
  lemma {:induction false} SelectStep<T>(s: seq<T>, order: seq<nat>, j: nat)
    requires j < |order| && forall i | 0 <= i < |order| :: order[i] < |s|
    ensures Select(s, order[..j + 1]) == Select(s, order[..j]) + [s[order[j]]]
  {
    assert order[..j + 1][..j] == order[..j];
  }

  /** Each of `marks` moved up by `base`. */
  function Shifted(marks: seq<nat>, base: nat): seq<nat> {
    seq(|marks|, i requires 0 <= i < |marks| => base + marks[i])
  }

  /** How the flush log grows by one completed task, for a file that already held `base` rows. */
  lemma {:induction false} FlushStep(n: nat, base: nat)
    ensures Shifted(FlushMarks(n + 1), base) ==
      Shifted(FlushMarks(n), base) + if (n + 1) % 50 == 0 then [base + n + 1] else []
  {
    var marks := FlushMarks(n);
    if (n + 1) % 50 == 0 {
      assert FlushMarks(n + 1) == marks + [n + 1];
      assert Shifted(marks + [n + 1], base)[|marks|] == base + n + 1;
    } else {
      assert FlushMarks(n + 1) == marks + [];
      assert marks + [] == marks;
    }
  }

  /** The temporary output file: its header, the rows written so far and the forced flushes. */
  class TempFile {
    var header: seq<string>
    var rows: seq<Row>
    /** For each forced flush, how many rows the file held at that moment. */
    var flushes: seq<nat>

    /** Opens the file and writes the header. */
    constructor Open(fieldnames: seq<string>)
      ensures header == fieldnames && rows == [] && flushes == []
    {
      header, rows, flushes := fieldnames, [], [];
    }

    method WriteRow(row: Row)
      modifies this
      ensures header == old(header) && flushes == old(flushes)
      ensures rows == old(rows) + [row]
    {
      rows := rows + [row];
    }

    /** Forces everything written so far to stable storage. */
    method Flush()
      modifies this
      ensures header == old(header) && rows == old(rows)
      ensures flushes == old(flushes) + [|rows|]
    {
      flushes := flushes + [|rows|];
    }
  }

  /**
   * The submission loop of process_csv: every row with an `email_host` is
   * written straight away; every other row is queued with the outcome of its
   * process_domain task.
   */
  method SubmitTasks(file: TempFile, rows: seq<Row>, resolve: string -> seq<Record>)
    returns (pending: seq<Row>, results: seq<Label>, lookups: seq<string>)
    modifies file
    ensures file.header == old(file.header) && file.flushes == old(file.flushes)
    ensures file.rows == old(file.rows) + Labelled(rows)
    ensures pending == Unlabelled(rows)
    ensures results == Outcomes(pending, resolve)
    ensures lookups == Lookups(rows, resolve)
  {
    pending, results, lookups := [], [], [];
    for i := 0 to |rows|
      invariant file.header == old(file.header) && file.flushes == old(file.flushes)
      invariant file.rows == old(file.rows) + Labelled(rows[..i])
      invariant pending == Unlabelled(rows[..i])
      invariant results == Outcomes(pending, resolve)
      invariant lookups == Lookups(rows[..i], resolve)
    {
      SplitStep(rows, i, resolve);
      var row := rows[i];
      if !HasHost(row) {
        var task := ProcessDomain(EmailOf(row), resolve);
        OutcomesStep(pending, row, resolve);
        pending := pending + [row];
        results := results + [task.provider];
        lookups := lookups + task.lookups;
      } else {
        file.WriteRow(row);
      }
    }
    assert rows[..|rows|] == rows;
  }

  /**
   * The completion loop of process_csv: as the task for pending[order[j]]
   * completes, its row is written with the label; after every 50th completion
   * the file is flushed.
   */
  method WriteCompleted(file: TempFile, pending: seq<Row>, results: seq<Label>, order: seq<nat>)
    requires IsPermutation(order, |pending|)
    requires |results| == |pending|
    modifies file
    ensures file.header == old(file.header)
    ensures file.rows == old(file.rows) + Select(WithLabels(pending, results), order)
    ensures file.flushes == old(file.flushes) + Shifted(FlushMarks(|order|), |old(file.rows)|)
  {
    ghost var filled := WithLabels(pending, results);
    var done := 0;
    for j := 0 to |order|
      invariant file.header == old(file.header)
      invariant done == j
      invariant file.rows == old(file.rows) + Select(filled, order[..j])
      invariant file.flushes == old(file.flushes) + Shifted(FlushMarks(j), |old(file.rows)|)
    {
      SelectStep(filled, order, j);
      FlushStep(j, |old(file.rows)|);
      var row := pending[order[j]];
      row := row[EmailHost := Name(results[order[j]])];
      assert row == filled[order[j]];
      file.WriteRow(row);
      done := done + 1;
      assert |file.rows| == |old(file.rows)| + done;
      if done % 50 == 0 {
        file.Flush();
      }
    }
    assert order[..|order|] == order;
  }

  /**
   * process_csv without the file and thread plumbing: returns the output
   * header, the rows written in order, the file length at each forced flush,
   * and the domains looked up.
   */
  method ProcessCsv(fieldnames: seq<string>, rows: seq<Row>, order: seq<nat>, resolve: string -> seq<Record>)
    returns (header: seq<string>, written: seq<Row>, flushes: seq<nat>, lookups: seq<string>)
    requires IsPermutation(order, |Unlabelled(rows)|)
    ensures header == OutputHeader(fieldnames)
    ensures written == Enriched(rows, order, resolve)
    ensures lookups == Lookups(rows, resolve)
    ensures flushes == Shifted(FlushMarks(|order|), |Labelled(rows)|)
  {
    header := fieldnames;
    if EmailHost !in header {
      header := header + [EmailHost];
    }
    var file := new TempFile.Open(header);
    var pending, results;
    pending, results, lookups := SubmitTasks(file, rows, resolve);
    assert file.rows == Labelled(rows);
    WriteCompleted(file, pending, results, order);
    assert WithLabels(pending, results) == FillAll(pending, resolve);
    written := file.rows;
    flushes := file.flushes;
    assert written == Labelled(rows) + Select(FillAll(Unlabelled(rows), resolve), order);
  }
}
