# MX lookup enrichment, modelled in Dafny

This project models the core of `main.py` from the mx-lookup-process
repository. That script takes a CSV file of email addresses and fills in an
`email_host` column for each row. The value is a label naming the mail
provider behind the address's domain (Google, Outlook, Proofpoint, …). The
label comes from the host names in the domain's MX records, as returned by a
DNS-over-HTTPS lookup.

The model has three parts.

- **Classifier** (`classifier.dfy`): `get_email_provider`. It scans the answer
  records in order. A record counts only if its `data` field is a string. The
  first such record that matches one of eleven case-sensitive substring rules
  decides the label. With no match the result is `Other`, and with no records
  it is `No-Email`. The if-chain is proved equal to an ordered rule table
  (`Rules`, `FirstMatch`), and the table is proved to pick the earliest
  matching rule.
- **Domain** (`domain.dfy`): `process_domain`. The domain is the text after
  the last `@`. An address with no domain is `Invalid-Email` and causes no
  lookup. Any other address causes exactly one lookup of its domain, and the
  answer is classified. The DNS lookup `fetch_mx_records` is the function
  parameter `resolve`, and each call to it is logged.
- **Enrichment** (`enrichment.dfy`, `enrichment_props.dfy`): the row loop of
  `process_csv`.
  - The output header gains `email_host` if it is missing.
  - Rows that already have a non-empty `email_host` are written at once, in
    input order.
  - Every other row becomes one `process_domain` task.
  - Finished rows are written with their label in the order the tasks
    complete. That order is an input: a permutation `order` of the task
    indices.
  - After every 50th completed task the file is flushed.

  The temporary output file is a class, `TempFile`, whose methods append
  rows and log flushes. `ProcessCsv` is proved to write exactly
  `Enriched(rows, order, resolve)`. The properties file then proves what that
  output means:
  - it is a permutation of the input rows in their final form;
  - every written row has a host;
  - a second run over the output writes the same rows and looks nothing up;
  - the lookups are exactly the domains of the queued rows;
  - fewer than 50 completed rows ever follow the last flush.

Some behaviour of `main.py` is worth stating plainly, because the model keeps
it:

- the provider tests at main.py:24-45 are case-sensitive substring tests;
- the domain at main.py:49 is neither trimmed nor lower-cased, and any
  non-empty text after the last `@` is looked up;
- a record whose `data` is missing or not a string is passed over
  (main.py:22);
- there is no `Error` label, because main.py:83 has no catch around
  `future.result()` (what a raising task does is listed under "Left out");
- every row that already has an `email_host` is written (main.py:78) before
  any task result (main.py:84).

## Model

| member | source | states |
|---|---|---|
| Classifier.HostOf | main.py:22-23 | the host of a record is its data field when that is present and a string, and nothing otherwise |
| Classifier.Name | main.py:24-53 | the text written for each label; every text is non-empty |
| Classifier.OccursAt | main.py:24-45 | the pattern occurs in the host at the given position, with characters compared exactly |
| Classifier.Contains | main.py:24-45 | Python's case-sensitive `part in text`: the pattern occurs at some position of the host |
| Classifier.RecordLabel | main.py:22-45 | one pass of the record loop: the label the record's string data decides, or nothing when the record is skipped or matches no rule |
| Classifier.ClassifyHost | main.py:24-45 | a host that matches a rule yields a provider label, never Other, No-Email or Invalid-Email |
| Classifier.FirstMatchIsEarliest | main.py:24-45 | the rule table yields label l exactly when some rule for l matches and no earlier rule does; it yields nothing exactly when no rule matches |
| Classifier.ClassifyHostFollowsRules | main.py:24-45 | the if-chain of get_email_provider equals the first match over the ordered eleven-row rule table |
| Classifier.FirstRecordLabel | main.py:21-45 | the scan yields nothing exactly when no record matches; otherwise it yields the label of a matching record preceded only by non-matching ones |
| Classifier.GetEmailProvider | main.py:20-46 | No-Email exactly for an empty answer; Other exactly when there are records but none matches; never Invalid-Email |
| Classifier.ProviderNameListed | main.py:20-46 | the returned text is one of the thirteen provider texts |
| Classifier.NameInjective | main.py:20-53 | distinct labels are written as distinct texts |
| Classifier.EarliestMatchDecides | main.py:21-45 | the first matching record decides the label, whatever later records hold |
| Classifier.SkippedRecordIrrelevant | main.py:21-22 | inserting a skipped or non-matching record anywhere in a non-empty answer leaves the label unchanged |
| Classifier.SkippedAmongNoMatches | main.py:21-46 | an answer in which no record matches stays Other when a skipped record is inserted |
| Classifier.SkippedBeforeOrAfterMatch | main.py:21-45 | an inserted skipped record does not change which record decides |
| Classifier.NonStringDataSkipped | main.py:22 | a record whose data field is missing or not a string decides nothing |
| ClassifierExamples.GoogleBeforeOutlook | main.py:24-27 | the host google.outlook.com is Google, not Outlook |
| ClassifierExamples.GoogleOutranksEveryRule | main.py:24-25 | every host containing google is Google, whatever else it contains |
| ClassifierExamples.GoogleBeforeMimecast | main.py:24-31 | the host google.mimecast.barracuda is Google |
| ClassifierExamples.MimecastOutranksBarracuda | main.py:24-33 | every host containing mimecast and barracuda that matches none of the Google, Outlook and Proofpoint rules is Mimecast |
| ClassifierExamples.MimecastBeforeBarracuda | main.py:28-33 | the host mimecast.barracuda.io is Mimecast, not Barracuda |
| ClassifierExamples.UnmatchedHostIsOther | main.py:24-46 | a single record whose host matches no rule gives Other |
| ClassifierExamples.UpperCaseHostMatchesNoRule | main.py:24-45 | a host without lower-case letters matches no rule |
| ClassifierExamples.UpperCaseGoogleHostIsOther | main.py:24-46 | ASPMX.L.GOOGLE.COM is Other, not Google |
| ClassifierExamples.NonStringRecordsPassedOver | main.py:21-25 | non-string data and records without data are passed over; the first matching host decides even when a later one matches another rule |
| Domain.AfterLastAt | main.py:49 | the result is the longest suffix without '@', and it is preceded by '@' whenever it is shorter than the input |
| Domain.DomainOf | main.py:49 | the domain has no '@'; it is empty exactly when the address has no '@' or ends in '@'; otherwise it is the text after the last '@' |
| Domain.DomainOfAddress | main.py:49 | the domain of local@domain is domain, even when local contains '@' |
| Domain.ProcessDomain | main.py:48-53 | Invalid-Email exactly when the domain is empty, and then no lookup; otherwise exactly one lookup, of the domain, classified by get_email_provider |
| Domain.ProcessAddress | main.py:48-52 | local@domain is classified from one lookup of domain |
| Domain.InvalidEmailIgnoresResolver | main.py:50-53 | an Invalid-Email outcome is the same for every resolver |
| Domain.DomainNotNormalised | main.py:49-51 | surrounding spaces and capitals reach the resolver unchanged |
| Domain.LastAtDecides | main.py:49 | only the text after the last '@' is looked up |
| Domain.TrailingAtIsInvalid | main.py:49-53 | an address ending in '@' is Invalid-Email with no lookup |
| Enrichment.OutputHeader | main.py:59-62 | the header keeps the input columns in order and contains email_host; it is one longer exactly when email_host was missing |
| Enrichment.HasHost | main.py:74 | a row has a host when its email_host field is present and non-empty |
| Enrichment.EmailOf | main.py:75 | the email field of a row, or the empty text when it has none |
| Enrichment.Labelled | main.py:73-78 | the rows that have a host, in input order: the rows written straight through |
| Enrichment.Unlabelled | main.py:73-76 | the rows without a host, in input order: the rows that get a task |
| Enrichment.Enriched | main.py:72-84 | the output rows: the pass-through rows, then the queued rows with their labels in completion order |
| Enrichment.Lookups | main.py:49-51 | the domains looked up, one per queued row with a non-empty domain; no more of them than queued rows |
| Enrichment.IsPermutation | main.py:81 | the completion order lists every submitted task exactly once, as as_completed yields each future once |
| Enrichment.Outcomes | main.py:76-83 | the label each queued row's process_domain task returns, in submission order |
| Enrichment.WithLabels | main.py:82-83 | each queued row with email_host set to the text of its task's label |
| Enrichment.SplitSizes | main.py:73-78 | every input row goes to exactly one of pass-through and queued |
| Enrichment.Fill | main.py:82-83 | a completed row has a non-empty email_host; its other fields are unchanged and it gains no other field |
| Enrichment.Select | main.py:81-82 | the j-th completed row is the queued row at position order[j] |
| Enrichment.FlushMarks | main.py:87-89 | flushes happen exactly at the positive multiples of 50 up to the task count, in increasing order |
| Enrichment.SplitStep | main.py:73-78 | step lemma for the invariants of SubmitTasks: one more input row extends exactly one of the two parts, and the lookup log only when the row is queued |
| Enrichment.TempFile.Open | main.py:67-70 | a new file holds the header, no rows and no flushes |
| Enrichment.TempFile.WriteRow | main.py:78 | appends one row and changes nothing else |
| Enrichment.TempFile.Flush | main.py:88-89 | logs the number of rows written so far and changes nothing else |
| Enrichment.SubmitTasks | main.py:72-78 | pass-through rows are written in input order; the queue is the other rows in input order with their task outcomes; the lookup log is Lookups(rows) |
| Enrichment.WriteCompleted | main.py:80-89 | the queued rows are appended in completion order with their labels; a flush is logged after each 50th, recording the file length |
| Enrichment.ProcessCsv | main.py:55-92 | header, written rows, flush log and lookups equal OutputHeader, Enriched, the shifted FlushMarks and Lookups of the input |
| EnrichmentProperties.SplitByHost | main.py:73-78 | pass-through rows all have a host; queued rows all lack one |
| EnrichmentProperties.SplitKeepsEveryRow | main.py:73-84 | the pass-through rows together with the filled queued rows are, as a multiset, the input rows in their final form |
| EnrichmentProperties.SelectPermutes | main.py:81-84 | writing in completion order loses and duplicates no queued row |
| EnrichmentProperties.EnrichedIsPermutation | main.py:72-84 | the output has as many rows as the input and is a permutation of the input rows in their final form |
| EnrichmentProperties.EveryWrittenRowHasHost | main.py:73-84 | every row in the output has a non-empty email_host |
| EnrichmentProperties.AllLabelled | main.py:73-78 | when every row has a host, all are written through and nothing is looked up |
| EnrichmentProperties.RerunChangesNothing | main.py:59-84 | a second run over the output keeps the header, looks nothing up and writes the same rows in the same order |
| EnrichmentProperties.LookupsComeFromUnlabelledRows | main.py:73-76 | a domain is looked up exactly when it is the non-empty domain of a queued row |
| EnrichmentProperties.LookupsIgnoreAnswers | main.py:49-51 | which domains are looked up does not depend on what the lookups return |
| EnrichmentProperties.FlushCount | main.py:87-88 | n completed tasks cause n / 50 flushes |
| EnrichmentProperties.FewUnflushed | main.py:87-89 | fewer than 50 completed rows ever follow the last flush |

## Left out

- `fetch_mx_records` (HTTP GET, timeout, JSON decoding, the `Answer` default, main.py:10-18) is the `resolve` parameter, a function of the domain.
- ProcessDomain: because `resolve` is a function, every lookup of one domain returns the same records, so rows with the same domain always get the same label. In main.py each queued row makes its own network call (main.py:51), and any call can time out or fail on its own and return `[]`. Two rows with one domain can then come out as No-Email and Google. The model does not represent these per-call failures.
- The GCS download and upload functions and the `__main__` block are remote I/O and are not modelled.
- Threads are not modelled. The pool's completion order is the input `order`.
- ProcessCsv: the lookup log lists domains in submission order. With ten workers the real calls can happen in any order, so only which domains are looked up, and how often, carries over.
- CSV reading and writing are not modelled: quoting, encoding and `restval`. Rows here are string maps, and an absent `email_host` stands for every value that is not a non-empty string.
- The header append at main.py:62 changes the reader's own field list before the rows are read at main.py:64. When `email_host` was missing, every row is then read against the longer header. An ordinary row gets `email_host` set to `None`, which the model treats like an absent field. A row with exactly one field more than the original header reads that field as its `email_host`; when it is non-empty, the row is written through without a lookup. A row with two or more extra fields makes `DictWriter` raise. A row with fewer fields gets `None` values, and a `None` email makes `process_domain` raise. The model takes each row as the reader yields it, so none of these effects of line length is captured.
- Answer records are JSON objects. A non-object record, where `"data" in record` would test a list or string, is not modelled.
- `tqdm` progress output and `print` are console output and are not modelled.
- `os.fsync` and `os.replace` are not modelled. Flushes are logged in `TempFile.flushes`, and replacing the input file is not modelled.
- Exceptions raised inside a task are not modelled. `future.result()` would re-raise them and end the run.
