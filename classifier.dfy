/**
 * The MX-record classifier: an ordered, first-match list of case-sensitive
 * substring rules applied to the `data` field (the target mail host) of the
 * DNS answer records returned for one domain.
 */
module Classifier {

  datatype Option<T> = None | Some(value: T)

  /** The labels written into a row's `email_host` column. */
  datatype Label =
    | Google | Outlook | Proofpoint | Mimecast | Barracuda | Fortinet
    | Rackspace | TrendMicro | SecureMX | MXThunder | MTARoutes
    | Other | NoEmail | InvalidEmail

  /** The text of a label as it appears in the output file. */
  function Name(l: Label): (s: string)
    ensures |s| > 0
  {
    match l
    case Google => "Google"
    case Outlook => "Outlook"
    case Proofpoint => "Proofpoint"
    case Mimecast => "Mimecast"
    case Barracuda => "Barracuda"
    case Fortinet => "Fortinet"
    case Rackspace => "Rackspace"
    case TrendMicro => "TrendMicro"
    case SecureMX => "SecureMX"
    case MXThunder => "MXThunder"
    case MTARoutes => "MTARoutes"
    case Other => "Other"
    case NoEmail => "No-Email"
    case InvalidEmail => "Invalid-Email"
  }

  /** The thirteen texts the classifier can produce. */
  const ProviderNames: set<string> :=
    {"Google", "Outlook", "Proofpoint", "Mimecast", "Barracuda", "Fortinet",
     "Rackspace", "TrendMicro", "SecureMX", "MXThunder", "MTARoutes",
     "Other", "No-Email"}

  /** A decoded JSON value, as found in the resolver's answer records. */
  datatype Json =
    | JNull
    | JBool(b: bool)
    | JNumber(n: int)
    | JString(s: string)
    | JArray(items: seq<Json>)
    | JObject(fields: map<string, Json>)

  /** One DNS answer record: a JSON object. */
  type Record = map<string, Json>

  /** Python's `part in text` on strings: `part` occurs somewhere in `text`. */
  predicate Contains(text: string, part: string) {
    exists i | 0 <= i <= |text| - |part| :: OccursAt(text, part, i)
  }

  /** `part` occurs in `text` starting at index `i`. */
  predicate OccursAt(text: string, part: string, i: int) {
    0 <= i <= |text| - |part| && text[i..i + |part|] == part
  }

  /** The mail host of a record: its `data` field, when present and a string. */
  function HostOf(record: Record): Option<string> {
    if "data" in record && record["data"].JString? then Some(record["data"].s) else None
  }

  /**
   * The rule chain applied to one host string: the first rule (in this fixed
   * order) one of whose patterns occurs in `data` gives the label; None when no
   * rule matches.
   */
  function ClassifyHost(data: string): (r: Option<Label>)
    ensures r.Some? ==> r.value !in {Other, NoEmail, InvalidEmail}
  {
    if Contains(data, "google") then Some(Google)
    else if Contains(data, "outlook.com") || Contains(data, "office365") then Some(Outlook)
    else if Contains(data, "pphosted.com") || Contains(data, "ppe-hosted")
         || Contains(data, "ppsmtp") || Contains(data, "sophos.com") then Some(Proofpoint)
    else if Contains(data, "mimecast") then Some(Mimecast)
    else if Contains(data, "barracuda") then Some(Barracuda)
    else if Contains(data, "fortimail") || Contains(data, "fortimailcloud.com") then Some(Fortinet)
    else if Contains(data, "emailsrvr.com") then Some(Rackspace)
    else if Contains(data, "trendmicro.com") then Some(TrendMicro)
    else if Contains(data, "securemx") then Some(SecureMX)
    else if Contains(data, "mxthunder.net") then Some(MXThunder)
    else if Contains(data, "mtaroutes.com") then Some(MTARoutes)
    else None
  }

  /** The label one record decides, or None when the record is skipped or matches no rule. */
  function RecordLabel(record: Record): Option<Label> {
    match HostOf(record)
    case Some(d) => ClassifyHost(d)
    case None => None
  }

  /**
   * The scan over the records in list order: the label of the first record
   * that matches a rule.
   */
  function FirstRecordLabel(records: seq<Record>): (r: Option<Label>)
    ensures r.None? <==> forall i | 0 <= i < |records| :: RecordLabel(records[i]).None?
    ensures r.Some? ==>
      exists i | 0 <= i < |records| ::
        RecordLabel(records[i]) == r && forall j | 0 <= j < i :: RecordLabel(records[j]).None?
  {
    if records == [] then None
    else if RecordLabel(records[0]).Some? then
      RecordLabel(records[0])
    else
      var rest := FirstRecordLabel(records[1..]);
      if rest.Some? then
        var k :| 0 <= k < |records| - 1 && RecordLabel(records[1..][k]) == rest
                 && forall j | 0 <= j < k :: RecordLabel(records[1..][j]).None?;
        assert RecordLabel(records[k + 1]) == rest;
        rest
      else
        rest
  }

  /**
   * get_email_provider: the label of the earliest matching record; "Other"
   * when there are records but none matches; "No-Email" when there are none.
   */
  function GetEmailProvider(records: seq<Record>): (r: Label)
    ensures r == NoEmail <==> records == []
    ensures r == Other <==> records != [] && forall i | 0 <= i < |records| :: RecordLabel(records[i]).None?
    ensures r != InvalidEmail
  {
    match FirstRecordLabel(records)
    case Some(l) => l
    case None => if records != [] then Other else NoEmail
  }

  /** get_email_provider only ever returns one of the thirteen provider texts. */
  lemma ProviderNameListed(records: seq<Record>)
    ensures Name(GetEmailProvider(records)) in ProviderNames
  {
  }

  /** Distinct labels are written as distinct texts, so the text in the file identifies the label. */
  lemma NameInjective(a: Label, b: Label)
    ensures Name(a) == Name(b) ==> a == b
  {
  }

  /** Across records, the earliest record that matches some rule decides the label. */
  lemma {:induction false} EarliestMatchDecides(records: seq<Record>, i: nat)
    requires i < |records| && RecordLabel(records[i]).Some?
    requires forall j | 0 <= j < i :: RecordLabel(records[j]).None?
    ensures GetEmailProvider(records) == RecordLabel(records[i]).value
  {
    var r := FirstRecordLabel(records);
    assert r.Some? by {
      assert !RecordLabel(records[i]).None?;
    }
    var k :| 0 <= k < |records| && RecordLabel(records[k]) == r
             && forall j | 0 <= j < k :: RecordLabel(records[j]).None?;
    if k < i {
      assert false;
    } else if i < k {
      assert false;
    }
  }

  /**
   * A record without a string `data` field, or whose host matches no rule, can
   * be inserted anywhere in a non-empty answer list without changing the result.
   */
  lemma {:induction false} SkippedRecordIrrelevant(records: seq<Record>, i: nat, skipped: Record)
    requires records != [] && i <= |records|
    requires RecordLabel(skipped).None?
    ensures GetEmailProvider(records[..i] + [skipped] + records[i..]) == GetEmailProvider(records)
  {
    if FirstRecordLabel(records).None? {
      SkippedAmongNoMatches(records, i, skipped);
    } else {
      var k :| 0 <= k < |records| && RecordLabel(records[k]).Some?
               && forall j | 0 <= j < k :: RecordLabel(records[j]).None?;
      EarliestMatchDecides(records, k);
      SkippedBeforeOrAfterMatch(records, i, skipped, k);
    }
  }

  lemma {:induction false} SkippedAmongNoMatches(records: seq<Record>, i: nat, skipped: Record)
    requires records != [] && i <= |records|
    requires RecordLabel(skipped).None?
    requires forall j | 0 <= j < |records| :: RecordLabel(records[j]).None?
    ensures GetEmailProvider(records[..i] + [skipped] + records[i..]) == Other
  {
    var longer := records[..i] + [skipped] + records[i..];
    InsertedAt(records, i, skipped);
    forall j | 0 <= j < |longer| ensures RecordLabel(longer[j]).None? {
      if j < i {
        assert longer[j] == records[j];
      } else if i < j {
        assert longer[j] == records[j - 1];
      }
    }
  }

  lemma {:induction false} SkippedBeforeOrAfterMatch(records: seq<Record>, i: nat, skipped: Record, k: nat)
    requires i <= |records| && k < |records|
    requires RecordLabel(skipped).None?
    requires RecordLabel(records[k]).Some?
    requires forall j | 0 <= j < k :: RecordLabel(records[j]).None?
    ensures GetEmailProvider(records[..i] + [skipped] + records[i..]) == RecordLabel(records[k]).value
  {
    var longer := records[..i] + [skipped] + records[i..];
    InsertedAt(records, i, skipped);
    var k' := if k < i then k else k + 1;
    assert longer[k'] == records[k];
    forall j | 0 <= j < k' ensures RecordLabel(longer[j]).None? {
      if j < i {
        assert longer[j] == records[j];
      } else if i < j {
        assert longer[j] == records[j - 1];
      }
    }
    EarliestMatchDecides(longer, k');
  }

  /** Where each element of `s` lands once `x` is inserted at position `i`. */
  lemma InsertedAt<T>(s: seq<T>, i: nat, x: T)
    requires i <= |s|
    ensures |s[..i] + [x] + s[i..]| == |s| + 1
    ensures (s[..i] + [x] + s[i..])[i] == x
    ensures forall j | 0 <= j < i :: (s[..i] + [x] + s[i..])[j] == s[j]
    ensures forall j | i < j <= |s| :: (s[..i] + [x] + s[i..])[j] == s[j - 1]
  {
  }

  /** A record whose `data` is missing or not a string is skipped. */
  lemma {:induction false} NonStringDataSkipped(record: Record)
    requires "data" !in record || !record["data"].JString?
    ensures RecordLabel(record).None?
  {
  }

  /* ---------------------------------------------------------------------
   * The rule list as a table, evaluated top to bottom.
   * --------------------------------------------------------------------- */

  datatype Rule = Rule(patterns: seq<string>, provider: Label)

  /** The rule table, in evaluation order. */
  const Rules: seq<Rule> := [
    Rule(["google"], Google),
    Rule(["outlook.com", "office365"], Outlook),
    Rule(["pphosted.com", "ppe-hosted", "ppsmtp", "sophos.com"], Proofpoint),
    Rule(["mimecast"], Mimecast),
    Rule(["barracuda"], Barracuda),
    Rule(["fortimail", "fortimailcloud.com"], Fortinet),
    Rule(["emailsrvr.com"], Rackspace),
    Rule(["trendmicro.com"], TrendMicro),
    Rule(["securemx"], SecureMX),
    Rule(["mxthunder.net"], MXThunder),
    Rule(["mtaroutes.com"], MTARoutes)
  ]

  /** Some pattern of `rule` occurs in `data`. */
  predicate RuleMatches(rule: Rule, data: string) {
    exists p | p in rule.patterns :: Contains(data, p)
  }

  /** The label of the first rule in `rules` that matches `data`. */
  function FirstMatch(rules: seq<Rule>, data: string): Option<Label> {
    if rules == [] then None
    else if RuleMatches(rules[0], data) then Some(rules[0].provider)
    else FirstMatch(rules[1..], data)
  }

  /** FirstMatch picks the earliest matching rule, and says None only when no rule matches. */
  lemma {:induction false} FirstMatchIsEarliest(rules: seq<Rule>, data: string, l: Label)
    ensures FirstMatch(rules, data) == Some(l) <==>
      exists i | 0 <= i < |rules| ::
        RuleMatches(rules[i], data) && rules[i].provider == l
        && forall j | 0 <= j < i :: !RuleMatches(rules[j], data)
    ensures FirstMatch(rules, data) == None <==> forall i | 0 <= i < |rules| :: !RuleMatches(rules[i], data)
  {
    if rules != [] {
      FirstMatchIsEarliest(rules[1..], data, l);
      if RuleMatches(rules[0], data) {
        if rules[0].provider == l {
          assert RuleMatches(rules[0], data) && rules[0].provider == l;
        } else {
          forall i | 0 <= i < |rules| && RuleMatches(rules[i], data) && rules[i].provider == l
            ensures exists j | 0 <= j < i :: RuleMatches(rules[j], data)
          {
            assert 0 < i;
          }
        }
      } else {
        if FirstMatch(rules, data) == Some(l) {
          var i :| 0 <= i < |rules| - 1 && RuleMatches(rules[1..][i], data) && rules[1..][i].provider == l
                   && forall j | 0 <= j < i :: !RuleMatches(rules[1..][j], data);
          assert RuleMatches(rules[i + 1], data) && rules[i + 1].provider == l;
          assert forall j | 0 <= j < i + 1 :: !RuleMatches(rules[j], data) by {
            forall j | 0 <= j < i + 1 ensures !RuleMatches(rules[j], data) {
              if j > 0 { assert rules[j] == rules[1..][j - 1]; }
            }
          }
        }
        if exists i | 0 <= i < |rules| :: RuleMatches(rules[i], data) && rules[i].provider == l
             && forall j | 0 <= j < i :: !RuleMatches(rules[j], data) {
          var i :| 0 <= i < |rules| && RuleMatches(rules[i], data) && rules[i].provider == l
                   && forall j | 0 <= j < i :: !RuleMatches(rules[j], data);
          assert i > 0;
          assert RuleMatches(rules[1..][i - 1], data) && rules[1..][i - 1].provider == l;
          assert forall j | 0 <= j < i - 1 :: !RuleMatches(rules[1..][j], data) by {
            forall j | 0 <= j < i - 1 ensures !RuleMatches(rules[1..][j], data) {
              assert rules[1..][j] == rules[j + 1];
            }
          }
        }
        if forall i | 0 <= i < |rules| - 1 :: !RuleMatches(rules[1..][i], data) {
          forall i | 0 <= i < |rules| ensures !RuleMatches(rules[i], data) {
            if i > 0 { assert rules[i] == rules[1..][i - 1]; }
          }
        }
      }
    }
  }

  /**
   * The rule chain of get_email_provider is exactly the ordered rule table:
   * the label is that of the earliest table row one of whose patterns occurs
   * in the host.
   */
  lemma {:induction false} ClassifyHostFollowsRules(data: string)
    ensures ClassifyHost(data) == FirstMatch(Rules, data)
  {
    RulesUnrolled(data);
    EarlyRulesAsWritten(data);
    MiddleRulesAsWritten(data);
    LateRulesAsWritten(data);
  }

  lemma {:induction false} EarlyRulesAsWritten(data: string)
    ensures RuleMatches(Rules[0], data) <==> Contains(data, "google")
    ensures RuleMatches(Rules[1], data) <==> (Contains(data, "outlook.com") || Contains(data, "office365"))
    ensures RuleMatches(Rules[2], data) <==>
      (Contains(data, "pphosted.com") || Contains(data, "ppe-hosted")
       || Contains(data, "ppsmtp") || Contains(data, "sophos.com"))
  {
  }

  lemma {:induction false} MiddleRulesAsWritten(data: string)
    ensures RuleMatches(Rules[3], data) <==> Contains(data, "mimecast")
    ensures RuleMatches(Rules[4], data) <==> Contains(data, "barracuda")
    ensures RuleMatches(Rules[5], data) <==> (Contains(data, "fortimail") || Contains(data, "fortimailcloud.com"))
    ensures RuleMatches(Rules[6], data) <==> Contains(data, "emailsrvr.com")
  {
  }

  lemma {:induction false} LateRulesAsWritten(data: string)
    ensures RuleMatches(Rules[7], data) <==> Contains(data, "trendmicro.com")
    ensures RuleMatches(Rules[8], data) <==> Contains(data, "securemx")
    ensures RuleMatches(Rules[9], data) <==> Contains(data, "mxthunder.net")
    ensures RuleMatches(Rules[10], data) <==> Contains(data, "mtaroutes.com")
  {
  }

  /** FirstMatch over the table, one row at a time. */
  lemma {:induction false} RulesUnrolled(data: string)
    ensures FirstMatch(Rules, data) ==
      if RuleMatches(Rules[0], data) then Some(Google)
      else if RuleMatches(Rules[1], data) then Some(Outlook)
      else if RuleMatches(Rules[2], data) then Some(Proofpoint)
      else if RuleMatches(Rules[3], data) then Some(Mimecast)
      else if RuleMatches(Rules[4], data) then Some(Barracuda)
      else if RuleMatches(Rules[5], data) then Some(Fortinet)
      else FirstMatch(Rules[6..], data)
    ensures FirstMatch(Rules[6..], data) ==
      if RuleMatches(Rules[6], data) then Some(Rackspace)
      else if RuleMatches(Rules[7], data) then Some(TrendMicro)
      else if RuleMatches(Rules[8], data) then Some(SecureMX)
      else if RuleMatches(Rules[9], data) then Some(MXThunder)
      else if RuleMatches(Rules[10], data) then Some(MTARoutes)
      else None
  {
    RulesHeadUnrolled(data);
    RulesTailUnrolled(data);
  }

  lemma {:induction false} RulesHeadUnrolled(data: string)
    ensures FirstMatch(Rules, data) ==
      if RuleMatches(Rules[0], data) then Some(Google)
      else if RuleMatches(Rules[1], data) then Some(Outlook)
      else if RuleMatches(Rules[2], data) then Some(Proofpoint)
      else if RuleMatches(Rules[3], data) then Some(Mimecast)
      else if RuleMatches(Rules[4], data) then Some(Barracuda)
      else if RuleMatches(Rules[5], data) then Some(Fortinet)
      else FirstMatch(Rules[6..], data)
  {
    var rs := Rules;
    assert FirstMatch(rs[5..], data) == (if RuleMatches(rs[5], data) then Some(Fortinet) else FirstMatch(rs[6..], data));
    assert FirstMatch(rs[4..], data) == (if RuleMatches(rs[4], data) then Some(Barracuda) else FirstMatch(rs[5..], data));
    assert FirstMatch(rs[3..], data) == (if RuleMatches(rs[3], data) then Some(Mimecast) else FirstMatch(rs[4..], data));
    assert FirstMatch(rs[2..], data) == (if RuleMatches(rs[2], data) then Some(Proofpoint) else FirstMatch(rs[3..], data));
    assert FirstMatch(rs[1..], data) == (if RuleMatches(rs[1], data) then Some(Outlook) else FirstMatch(rs[2..], data));
  }

  lemma {:induction false} RulesTailUnrolled(data: string)
    ensures FirstMatch(Rules[6..], data) ==
      if RuleMatches(Rules[6], data) then Some(Rackspace)
      else if RuleMatches(Rules[7], data) then Some(TrendMicro)
      else if RuleMatches(Rules[8], data) then Some(SecureMX)
      else if RuleMatches(Rules[9], data) then Some(MXThunder)
      else if RuleMatches(Rules[10], data) then Some(MTARoutes)
      else None
  {
    var rs := Rules;
    assert FirstMatch(rs[11..], data) == None;
    assert FirstMatch(rs[10..], data) == (if RuleMatches(rs[10], data) then Some(MTARoutes) else None);
    assert FirstMatch(rs[9..], data) == (if RuleMatches(rs[9], data) then Some(MXThunder) else FirstMatch(rs[10..], data));
    assert FirstMatch(rs[8..], data) == (if RuleMatches(rs[8], data) then Some(SecureMX) else FirstMatch(rs[9..], data));
    assert FirstMatch(rs[7..], data) == (if RuleMatches(rs[7], data) then Some(TrendMicro) else FirstMatch(rs[8..], data));
  }
}
