/**
 * process_domain: take the domain of an email address (the text after its
 * last '@'), look up its MX records once, and classify them. The DNS lookup
 * is a parameter, `resolve`, and every call to it is logged.
 */
module Domain {
  import opened Classifier

  /**
   * Python's `s.split("@")[-1]`: the longest suffix of `s` without '@',
   * which is all of `s` when `s` has no '@'.
   */
  function AfterLastAt(s: string): (r: string)
    ensures '@' !in r
    ensures |r| <= |s| && r == s[|s| - |r|..]
    ensures |r| < |s| ==> s[|s| - |r| - 1] == '@'
  {
    if s == [] then []
    else if s[|s| - 1] == '@' then []
    else
      var front := s[..|s| - 1];
      var r := AfterLastAt(front) + [s[|s| - 1]];
      assert s[|s| - |r|..] == front[|front| - |r| + 1..] + [s[|s| - 1]];
      r
  }

  /**
   * The domain of an email address: the text after its last '@', and empty
   * when the address has no '@'. Nothing is trimmed or lower-cased.
   */
  function DomainOf(email: string): (d: string)
    ensures '@' !in d
    ensures d == [] <==> ('@' !in email || email[|email| - 1] == '@')
    ensures d != [] ==> |d| < |email| && email[|email| - |d| - 1] == '@' && email[|email| - |d|..] == d
  {
    if '@' in email then
      AfterLastAt(email)
    else []
  }

  /** The domain of `local@domain` is `domain`, whatever `local` holds (even other '@'s). */
  lemma {:induction false} DomainOfAddress(local: string, domain: string)
    requires '@' !in domain
    ensures DomainOf(local + "@" + domain) == domain
  {
    var email := local + "@" + domain;
    assert email[|local|] == '@';
    assert email[|email| - |domain|..] == domain;
  }

  /** What one process_domain call returns, and the domains it asked the resolver for. */
  datatype TaskResult = TaskResult(provider: Label, lookups: seq<string>)

  /**
   * process_domain: "Invalid-Email" without any lookup when the address has no
   * domain; otherwise exactly one lookup, of the domain, classified.
   */
  function ProcessDomain(email: string, resolve: string -> seq<Record>): (r: TaskResult)
    ensures r.provider == InvalidEmail <==> ('@' !in email || email[|email| - 1] == '@')
    ensures r.provider == InvalidEmail <==> r.lookups == []
    ensures r.lookups != [] ==> r.lookups == [DomainOf(email)]
    ensures r.lookups != [] ==> r.provider == GetEmailProvider(resolve(r.lookups[0]))
  {
    var domain := DomainOf(email);
    if domain != "" then TaskResult(GetEmailProvider(resolve(domain)), [domain])
    else TaskResult(InvalidEmail, [])
  }

  /** An address `local@domain` with a non-empty domain is classified by one lookup of that domain. */
  lemma {:induction false} ProcessAddress(local: string, domain: string, resolve: string -> seq<Record>)
    requires domain != [] && '@' !in domain
    ensures ProcessDomain(local + "@" + domain, resolve) == TaskResult(GetEmailProvider(resolve(domain)), [domain])
  {
    DomainOfAddress(local, domain);
  }

  /** When the address has no domain, the resolver is never consulted: any resolver gives the same outcome. */
  lemma {:induction false} InvalidEmailIgnoresResolver(email: string, resolve: string -> seq<Record>, other: string -> seq<Record>)
    requires ProcessDomain(email, resolve).provider == InvalidEmail
    ensures ProcessDomain(email, other) == ProcessDomain(email, resolve) == TaskResult(InvalidEmail, [])
  {
  }

  /** The address is used as written: surrounding spaces and capitals reach the resolver unchanged. */
  lemma DomainNotNormalised(resolve: string -> seq<Record>)
    ensures ProcessDomain(" Bob@Example.COM ", resolve).lookups == ["Example.COM "]
  {
    assert " Bob@Example.COM " == " Bob" + "@" + "Example.COM ";
    DomainOfAddress(" Bob", "Example.COM ");
  }

  /** Only the text after the last '@' is looked up. */
  lemma LastAtDecides(resolve: string -> seq<Record>)
    ensures ProcessDomain("a@b@mail.example", resolve).lookups == ["mail.example"]
  {
    assert "a@b@mail.example" == "a@b" + "@" + "mail.example";
    DomainOfAddress("a@b", "mail.example");
  }

  /** An address ending in '@' is invalid and triggers no lookup. */
  lemma TrailingAtIsInvalid(resolve: string -> seq<Record>)
    ensures ProcessDomain("bob@", resolve) == TaskResult(InvalidEmail, [])
  {
    assert "bob@"[3] == '@';
  }
}
