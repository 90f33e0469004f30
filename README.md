# Admin panel finder: a Dafny model of its scanning core

`po.py` sweeps a list of web sites against a catalog of common admin-panel
paths. It reads the catalog and the site list, one entry per line, probes
every path on every site with HTTP GET, and reports every URL that answers
200 with a page that looks like a login form. This project models the
decision logic of that scan and proves what it does:

- **Line cleaning** (`Lines`, built on `Strings`). `load_admin_paths` and
  `check_multiple_sites` strip each line and drop blank ones. `Strings.Strip`
  is Python's `str.strip()` (built on `LeadingSpace` and `TrailingSpace`), using exactly the characters for which
  `str.isspace()` holds.
- **Login-form classifier** (`LoginForm`). `check_login_form` gets the page's
  `<input>` elements as a list of records. Each record has an optional `type`
  and an optional `name`. A page is accepted when some input has `type`
  exactly `text` or `password`, or has a lower-cased `name` (empty when
  absent) that contains `admin`.
- **Probing one site** (`Probe`). `check_admin_panel` normalises the site.
  It prefixes `http://` unless the site already starts with `http`. It then
  builds `site + "/" + path` for each catalog path and runs the attempt loop.
  The network is an oracle `Network = (url, attempt) -> Outcome`, where
  `Outcome` is `Response(status, inputs)` or `TransportError`. The method
  `CheckAdminPanel` returns the site's matches and the trace of requests it
  issued; its attempt loop for one URL is the method `ProbePath`. The two
  outputs equal specification functions (`SiteResults`, `SiteRequests`), and the properties are lemmas about those functions.
- **Scanning many sites** (`Scan`). The global `found_admin_panels` list is
  the field `found` of a `Scanner` object. `CheckMultipleSites` extends it
  with each site's results in task completion order. That order is an input:
  any permutation of the site indices. `AggregateIsUnion` proves that,
  whatever the order, the collected list equals the union of the per-site
  lists as a multiset.

Only a 200 response (po.py:45) and a `RequestException` (po.py:52) end a
path's attempts. A 403 or any other status falls through to the next attempt
(po.py:46-49), so the path is requested again, up to three times; it is
requested three times when every attempt gets a non-200 status.
`RetriedStatusesUseWholeBudget` and `ForbiddenRequestedThreeTimes` state
this behaviour.

Files: `Wrappers.dfy` (Option), `Strings.dfy`, `Lines.dfy`, `LoginForm.dfy`,
`Probe.dfy`, `Scan.dfy`.

## Model

| member | source | states |
|---|---|---|
| Strings.LeadingSpace | po.py:15 | the count of leading whitespace characters: all of them are whitespace, and the character after them is not |
| Strings.TrailingSpace | po.py:15 | the count of trailing whitespace characters: all of them are whitespace, and the character before them is not |
| Strings.Strip | po.py:15 | `strip()` returns a string no longer than its input, empty or without whitespace at either end |
| Strings.StripRemovesOnlyBorderSpace | po.py:15 | `strip()` returns a contiguous piece `s[i..j]` of its input with only whitespace before and after it |
| Strings.StripBlankIff | po.py:15 | a line is dropped as blank (`strip()` is empty) exactly when it is all whitespace |
| Strings.StripIdempotent | po.py:15 | stripping a stripped string changes nothing |
| Strings.LowerChar | po.py:26 | one character lower-cased: upper-case ASCII letters move up by 32 code points to their lower-case letter, all other characters stay |
| Strings.Lower | po.py:26 | `Lower` keeps the length, turns each upper-case ASCII letter into its lower-case letter and keeps every other character, so no upper-case ASCII letter is left |
| Strings.LowerIdempotent | po.py:26 | lower-casing twice is lower-casing once |
| Lines.CleanLines | po.py:15 | the cleaned list is no longer than the input and every entry is non-empty with no whitespace at either end |
| Lines.CleanLinesAppend | po.py:59 | cleaning works line by line: it distributes over concatenation, so entries keep their original order |
| Lines.CleanLinesSingle | po.py:15 | a single line becomes its stripped form, or nothing when it is blank |
| Lines.CleanLinesMembers | po.py:59 | an entry is in the cleaned list exactly when it is the stripped form of some non-blank input line |
| Lines.CleanLinesIdempotent | po.py:15 | cleaning an already cleaned list gives it back unchanged |
| LoginForm.IsLoginField | po.py:26 | an input is a login signal exactly when its type is exactly `text` or `password`, or it has a name whose lower-cased form contains `admin`; an input without a name is judged by its type alone |
| LoginForm.CheckLoginForm | po.py:20-28 | the loop with early return accepts exactly when some input on the page is a login signal |
| LoginForm.NoInputsNoLoginForm | po.py:24-28 | a page with no input elements is rejected |
| LoginForm.PasswordOrTextInputSuffices | po.py:23-27 | one input of type `text` or `password` anywhere on the page makes it accepted |
| LoginForm.NameTestIgnoresCase | po.py:26 | a name and its lower-cased form give the same verdict, so ASCII case never matters |
| LoginForm.AdminUserNameIsSignal | po.py:26 | an input named `Admin_User` is a signal whatever its type |
| LoginForm.UsernameOnlyIsNotLoginForm | po.py:25-28 | a page whose inputs are only untyped `name="username"` fields is rejected |
| LoginForm.MissingNameIsEmptyName | po.py:26 | a missing name is read as `""`; then only the type can make the input a signal |
| Probe.Normalize | po.py:32-33 | the result starts with `http`; it equals the input exactly when the input starts with `http`, and is `"http://" + url` otherwise |
| Probe.NormalizeIdempotent | po.py:32-33 | normalising twice gives the same as normalising once |
| Probe.CandidateUrl | po.py:37 | the candidate URL is the site, one `/`, then the path, with nothing escaped or merged |
| Probe.CandidateUrlInjective | po.py:36-37 | on one site, different paths give different candidate URLs |
| Probe.PathRequests | po.py:38-40 | one path costs between one and three requests, numbered by consecutive attempts on the same URL |
| Probe.ProbePath | po.py:38-52 | the attempt loop for one URL appends exactly that URL's result (`PathResult`) and its attempts (`PathRequests`) to the site's lists |
| Probe.CheckAdminPanel | po.py:30-54 | the method returns exactly the site's results (`SiteResults`) and issues exactly the request trace `SiteRequests` for the normalised site |
| Probe.PathRecorded | po.py:38-52 | a URL is recorded exactly when, within three attempts, the first outcome other than a non-200 response is a 200 whose inputs the classifier accepts |
| Probe.PathRequestsStopRule | po.py:41-52 | every attempt but the last got a non-200 response, and the last one, unless the budget ran out, got a 200 or a transport error |
| Probe.RetriedStatusesUseWholeBudget | po.py:46-49 | when every attempt gets a non-200 response (403 included), the URL is requested three times and is not recorded |
| Probe.ForbiddenRequestedThreeTimes | po.py:46-47 | a path that always answers 403, whatever the 403 page contains (a login form included), costs three requests and is not recorded |
| Probe.Candidates | po.py:36-37 | one candidate URL per catalog path, in catalog order |
| Probe.SiteResultsAreSubsequence | po.py:36-45 | the site's results are a subsequence of its candidate URLs, in catalog order |
| Probe.SiteResultsBound | po.py:38-45 | each path contributes at most one result, so there are no more results than paths |
| Probe.SiteResultsMembers | po.py:36-45 | a URL is a result exactly when it is the candidate URL of a catalog path whose attempts record it |
| Probe.SiteRequestsBounds | po.py:36-52 | a site costs between one and three requests per path |
| Probe.SiteProbesEveryCandidate | po.py:36-40 | the first attempts of the site's requests are exactly its candidate URLs, in catalog order: no path is skipped |
| Probe.UnreachableSiteFindsNothing | po.py:50-52 | a site whose every request fails in transport yields no result and exactly one request per path |
| Probe.AdminOnlyExample | po.py:36-45 | with catalog `["admin", "login"]`, where only `/admin` answers 200 with a password field, the one result is `<site>/admin` |
| Scan.FlattenMembers | po.py:62 | a URL is in the per-site lists joined in submission order exactly when some site's list holds it |
| Scan.AggregateMembers | po.py:61-64 | for any completion order, a URL is among the collected panels exactly when some site's list holds it |
| Scan.AggregateReorder | po.py:63-64 | two completion orders of the same tasks collect the same panels as a multiset |
| Scan.AggregateIsUnion | po.py:61-64 | for any completion order, the collected list equals, as a multiset, the per-site lists taken in submission order |
| Scan.Scanner.constructor | po.py:9 | the global result list starts empty |
| Scan.Scanner.CheckMultipleSites | po.py:56-64 | `found` is extended with the results of every cleaned site, appended in completion order |
| Scan.FindAdminPanels | po.py:110-111 | loading the catalog and scanning from an empty list finds, as a multiset, exactly the union of every site's results |

## Left out

- HTTP and `requests.Session`, with its 5-second timeout (po.py:35, po.py:40). These are network I/O. The oracle `Network` stands in for them. It answers each (URL, attempt) pair the same way every time, so a path listed twice in the catalog gets the same answers twice. Session state such as cookies is part of what the oracle may depend on only through the URL and attempt number.
- BeautifulSoup parsing (po.py:22, po.py:24). This is a foreign library. A page is given as its list of `<input>` records, and `response.text` decoding is not modelled.
- Exceptions other than `requests.RequestException`, for instance from the parser (po.py:22, po.py:42). Such an exception raised inside `check_admin_panel` is re-raised by `future.result()` (po.py:64) and is not caught there, since only `FileNotFoundError` is (po.py:65). It escapes `check_multiple_sites` and `main`, so `save_results` (po.py:113) never runs and the results of every site are lost. The model has no such exceptions: the parser is not modelled.
- `ThreadPoolExecutor`, `as_completed` and the `max_workers` limit (po.py:56, po.py:61-64). A positive pool size only affects scheduling. A `max_workers` of 0 or less (the `-t/--threads` option has no lower bound, po.py:107) makes `ThreadPoolExecutor` raise `ValueError` at po.py:61. Nothing catches it, since only `FileNotFoundError` is caught (po.py:65), so the scan aborts before any site is probed and `save_results` (po.py:113) never runs. The model has no pool and so no such failure. The model runs the tasks one after another in a completion order given as input.
- File I/O: `open`/`readlines` and the `FileNotFoundError` exits (po.py:13-18, po.py:57-59, po.py:65-67). The model receives the files' lines as sequences of strings. It does not model how the text is split into lines.
- `save_results` (po.py:69-76) writes `result.txt`. This is file output.
- Console output: the coloured notices of each attempt (po.py:44, po.py:47, po.py:49, po.py:51), the logo, and argparse in `main` (po.py:78-108). These are side effects only.
- Strings.Lower: maps only the ASCII letters and always keeps the length. Python's `str.lower()` also maps non-ASCII letters, and can change the length: `'İ'` (U+0130) becomes `i` followed by U+0307. The classifier looks only for the ASCII marker `admin`. The one non-ASCII letter that lower-cases to a letter of `admin` is U+0130, and its U+0307 always sits between the `i` and what follows, so the verdict of po.py:26 is not affected.
- Strings.LowerChar: same restriction to ASCII as `Strings.Lower`.
