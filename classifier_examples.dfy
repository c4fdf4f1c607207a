/**
 * Concrete answer lists run through the classifier: rule order inside one
 * host, case-sensitive matching, skipped records and the two fallbacks.
 */
module ClassifierExamples {
  import opened Classifier

  /** A pattern one of whose characters never appears in `text` does not occur in it. */
  lemma {:induction false} AbsentCharacter(text: string, part: string, k: nat)
    requires k < |part| && part[k] !in text
    ensures !Contains(text, part)
  {
    forall i | 0 <= i <= |text| - |part| ensures !OccursAt(text, part, i) {
      assert text[i..i + |part|][k] == text[i + k];
      assert text[i + k] in text;
    }
  }

  function HostRecord(host: string): Record {
    map["data" := JString(host)]
  }

  /** "google" is tested before "outlook.com": the host google.outlook.com is Google. */
  lemma GoogleBeforeOutlook()
    ensures GetEmailProvider([HostRecord("google.outlook.com")]) == Google
  {
    assert OccursAt("google.outlook.com", "google", 0);
  }

  /** Any host holding "google" is Google, whatever other patterns it holds. */
  lemma {:induction false} GoogleOutranksEveryRule(data: string)
    requires Contains(data, "google")
    ensures ClassifyHost(data) == Some(Google)
    ensures GetEmailProvider([HostRecord(data)]) == Google
  {
    assert RecordLabel(HostRecord(data)) == Some(Google);
  }

  /** A host holding both "google" and "mimecast" is Google, not Mimecast. */
  lemma GoogleBeforeMimecast()
    ensures GetEmailProvider([HostRecord("google.mimecast.barracuda")]) == Google
  {
    assert OccursAt("google.mimecast.barracuda", "google", 0);
    GoogleOutranksEveryRule("google.mimecast.barracuda");
  }

  /**
   * "mimecast" is tested before "barracuda": a host holding both, and matching
   * none of the three rules above them, is Mimecast.
   */
  lemma {:induction false} MimecastOutranksBarracuda(data: string)
    requires Contains(data, "mimecast") && Contains(data, "barracuda")
    requires forall i | 0 <= i < 3 :: !RuleMatches(Rules[i], data)
    ensures ClassifyHost(data) == Some(Mimecast)
    ensures GetEmailProvider([HostRecord(data)]) == Mimecast
  {
    assert !RuleMatches(Rules[0], data) && !RuleMatches(Rules[1], data) && !RuleMatches(Rules[2], data);
    EarlyRulesAsWritten(data);
    assert RecordLabel(HostRecord(data)) == Some(Mimecast);
  }

  /** The host mimecast.barracuda.io is Mimecast. */
  lemma MimecastBeforeBarracuda()
    ensures GetEmailProvider([HostRecord("mimecast.barracuda.io")]) == Mimecast
  {
    MimecastHostRules1();
    MimecastHostRules2();
    EarlyRulesAsWritten("mimecast.barracuda.io");
    assert OccursAt("mimecast.barracuda.io", "mimecast", 0);
    assert OccursAt("mimecast.barracuda.io", "barracuda", 9);
    MimecastOutranksBarracuda("mimecast.barracuda.io");
  }

  lemma MimecastHostRules1()
    ensures !Contains("mimecast.barracuda.io", "google")
    ensures !Contains("mimecast.barracuda.io", "outlook.com")
    ensures !Contains("mimecast.barracuda.io", "office365")
  {
    AbsentCharacter("mimecast.barracuda.io", "google", 0);
    AbsentCharacter("mimecast.barracuda.io", "outlook.com", 3);
    AbsentCharacter("mimecast.barracuda.io", "office365", 1);
  }

  lemma MimecastHostRules2()
    ensures !Contains("mimecast.barracuda.io", "pphosted.com")
    ensures !Contains("mimecast.barracuda.io", "ppe-hosted")
    ensures !Contains("mimecast.barracuda.io", "ppsmtp")
    ensures !Contains("mimecast.barracuda.io", "sophos.com")
  {
    AbsentCharacter("mimecast.barracuda.io", "pphosted.com", 0);
    AbsentCharacter("mimecast.barracuda.io", "ppe-hosted", 0);
    AbsentCharacter("mimecast.barracuda.io", "ppsmtp", 0);
    AbsentCharacter("mimecast.barracuda.io", "sophos.com", 2);
  }

  /** A host that matches no rule gives "Other". */
  lemma UnmatchedHostIsOther()
    ensures GetEmailProvider([HostRecord("unmatched.example.com")]) == Other
  {
    UnmatchedHostRules1();
    UnmatchedHostRules2();
    UnmatchedHostRules3();
    UnmatchedHostRules4();
    UnmatchedHostRules5();
    UnmatchedHostRules6();
    UnmatchedHostRules7();
    UnmatchedHostRules8();
  }

  lemma UnmatchedHostRules1()
    ensures !Contains("unmatched.example.com", "google")
    ensures !Contains("unmatched.example.com", "outlook.com")
  {
    AbsentCharacter("unmatched.example.com", "google", 0);
    AbsentCharacter("unmatched.example.com", "outlook.com", 6);
  }

  lemma UnmatchedHostRules2()
    ensures !Contains("unmatched.example.com", "office365")
    ensures !Contains("unmatched.example.com", "pphosted.com")
  {
    AbsentCharacter("unmatched.example.com", "office365", 1);
    AbsentCharacter("unmatched.example.com", "pphosted.com", 4);
  }

  lemma UnmatchedHostRules3()
    ensures !Contains("unmatched.example.com", "ppe-hosted")
    ensures !Contains("unmatched.example.com", "ppsmtp")
  {
    AbsentCharacter("unmatched.example.com", "ppe-hosted", 3);
    AbsentCharacter("unmatched.example.com", "ppsmtp", 2);
  }

  lemma UnmatchedHostRules4()
    ensures !Contains("unmatched.example.com", "sophos.com")
    ensures !Contains("unmatched.example.com", "mimecast")
  {
    AbsentCharacter("unmatched.example.com", "sophos.com", 0);
    AbsentCharacter("unmatched.example.com", "mimecast", 1);
  }

  lemma UnmatchedHostRules5()
    ensures !Contains("unmatched.example.com", "barracuda")
    ensures !Contains("unmatched.example.com", "fortimail")
  {
    AbsentCharacter("unmatched.example.com", "barracuda", 0);
    AbsentCharacter("unmatched.example.com", "fortimail", 0);
  }

  lemma UnmatchedHostRules6()
    ensures !Contains("unmatched.example.com", "fortimailcloud.com")
    ensures !Contains("unmatched.example.com", "emailsrvr.com")
  {
    AbsentCharacter("unmatched.example.com", "fortimailcloud.com", 0);
    AbsentCharacter("unmatched.example.com", "emailsrvr.com", 3);
  }

  lemma UnmatchedHostRules7()
    ensures !Contains("unmatched.example.com", "trendmicro.com")
    ensures !Contains("unmatched.example.com", "securemx")
  {
    AbsentCharacter("unmatched.example.com", "trendmicro.com", 1);
    AbsentCharacter("unmatched.example.com", "securemx", 0);
  }

  lemma UnmatchedHostRules8()
    ensures !Contains("unmatched.example.com", "mxthunder.net")
    ensures !Contains("unmatched.example.com", "mtaroutes.com")
  {
    AbsentCharacter("unmatched.example.com", "mxthunder.net", 8);
    AbsentCharacter("unmatched.example.com", "mtaroutes.com", 3);
  }

  /** A lower-case first letter of `part` keeps `part` out of a text without lower-case letters. */
  lemma {:induction false} NoLowercase(text: string, part: string)
    requires |part| > 0 && 'a' <= part[0] <= 'z'
    requires forall j | 0 <= j < |text| :: !('a' <= text[j] <= 'z')
    ensures !Contains(text, part)
  {
    forall i | 0 <= i <= |text| - |part| ensures !OccursAt(text, part, i) {
      assert text[i..i + |part|][0] == text[i];
    }
  }

  /**
   * Matching is case-sensitive: a host written without lower-case letters
   * (for instance an upper-case Google host) matches no rule at all.
   */
  lemma {:induction false} UpperCaseHostMatchesNoRule(host: string)
    requires forall j | 0 <= j < |host| :: !('a' <= host[j] <= 'z')
    ensures ClassifyHost(host) == None
  {
    NoLowercase(host, "google");
    NoLowercase(host, "outlook.com");
    NoLowercase(host, "office365");
    NoLowercase(host, "pphosted.com");
    NoLowercase(host, "ppe-hosted");
    NoLowercase(host, "ppsmtp");
    NoLowercase(host, "sophos.com");
    NoLowercase(host, "mimecast");
    NoLowercase(host, "barracuda");
    NoLowercase(host, "fortimail");
    NoLowercase(host, "fortimailcloud.com");
    NoLowercase(host, "emailsrvr.com");
    NoLowercase(host, "trendmicro.com");
    NoLowercase(host, "securemx");
    NoLowercase(host, "mxthunder.net");
    NoLowercase(host, "mtaroutes.com");
  }

  lemma UpperCaseGoogleHostIsOther()
    ensures GetEmailProvider([HostRecord("ASPMX.L.GOOGLE.COM")]) == Other
  {
    UpperCaseHostMatchesNoRule("ASPMX.L.GOOGLE.COM");
  }

  /**
   * Records without a string `data` field are passed over; the first record
   * with a matching host decides, even when a later one would match another rule.
   */
  lemma NonStringRecordsPassedOver()
    ensures GetEmailProvider([map["data" := JNumber(10)], map["exchange" := JString("mx.mimecast.com")],
                              HostRecord("aspmx.l.google.com"), HostRecord("mx.mimecast.com")]) == Google
  {
    var rs := [map["data" := JNumber(10)], map["exchange" := JString("mx.mimecast.com")],
               HostRecord("aspmx.l.google.com"), HostRecord("mx.mimecast.com")];
    assert OccursAt("aspmx.l.google.com", "google", 8);
    assert RecordLabel(rs[2]) == Some(Google);
    EarliestMatchDecides(rs, 2);
  }
}
