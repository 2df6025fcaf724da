# Shellshock tester — sequential core in Dafny

This project models the decision and data-shaping logic of `shellshock_tester.py`. The tool sends each target URL one GET request. The request's `User-Agent` header carries the CVE-2014-6271 ("Shellshock") payload. A response whose body contains the sentinel `VULNERABLE` marks the target vulnerable. The modelled parts are:

- **Prober** (`test_shellshock`): classifies a response, or a transport failure, into the tuple `(url, verdict, details)`. `verdict` is `Some(true)`, `Some(false)`, or `None` on error. `Response` is an input value, not a network call.
- **Report**: the three-valued status text. `display_results` decides it with `is True`; `save_results` decides it with truthiness. Report also holds the URL-keyed mapping that `save_results` writes out.
- **UrlLists**: `str.strip()`, `load_urls_from_file` over the file's lines, and the `str.split()` of the interactive answer.
- **Scheduler**: the loop in `main` that drains futures with `as_completed`. It is a method over an arbitrary completion order, given as a permutation of the submission indices. Each future's fate is an input: `test_shellshock` either returned a response or raised a fault.
- **Text**: the built-ins these rely on. These are substring search (`in`), the decimal rendering of an `int` in an f-string, and parsers that read the rendering back.

A future that raises does not produce an outcome. The loop logs the future's URL and drops it (`shellshock_tester.py:73-77`). This differs from a classified transport error, which is still an outcome. `Scheduler.FaultLosesOutcome` proves that such a URL then has fewer results than it was submitted, so the results are fewer than the URLs. `Scheduler.OneOutcomePerUrlWithoutFaults` proves that when nothing raises there is exactly one outcome per URL. `test_shellshock` catches only `requests.RequestException`. Any other exception reaches the collection loop as a raised future, which is why `Fate` has a `Raised` case.

## Model

| member | source | states |
|---|---|---|
| `Text.Contains` | shellshock_tester.py:46 | `"VULNERABLE" in response.text` holds exactly when the sentinel starts at some position of the body (`Occurs`). |
| `Text.ParseIntToString` | shellshock_tester.py:47 | The f-string rendering of the status code can be read back to the same integer, negative values included. |
| `Prober.TestShellshock` | shellshock_tester.py:36-52 | The returned URL is the input URL on both paths. The verdict is `None` exactly on a transport error. On success the verdict is `Some(b)`, where `b` says whether the body contains the sentinel. On success the status code and body length can be read back from the details. On error the details are the error text. |
| `Prober.FormatDetails` | shellshock_tester.py:47 | The details text `"Status Code: <code>, Content Length: <len>"` loses nothing: parsing it returns the code and the length, for every int code and every length. |
| `Prober.ReflectedPayloadIsVulnerable` | shellshock_tester.py:39-46 | A body that merely echoes the request's `User-Agent` header is classified vulnerable, because the payload itself contains the sentinel. |
| `Report.DisplayStatus` | shellshock_tester.py:89 | The status is "Vulnerable" iff the verdict is True, "Not Vulnerable" iff it is False, and "Error" iff it is None. |
| `Report.SavedStatus` | shellshock_tester.py:98 | The truthiness form gives the same text as the `is True` form for every `Optional[bool]`. |
| `Report.StatusRoundTrip` | shellshock_tester.py:96-101 | The saved status text determines the verdict it came from. |
| `Report.SaveMap` | shellshock_tester.py:96-101 | The saved object's key set is exactly the set of URLs among the results. Each URL's entry is the status and details of its last result, so a later duplicate overwrites an earlier one. |
| `Report.SavedEntriesComeFromResults` | shellshock_tester.py:96-101 | Every saved entry is built from some result for that URL: its verdict's status text and its details. |
| `UrlLists.Strip` | shellshock_tester.py:109 | `strip()` yields text that neither starts nor ends with whitespace. The text is empty exactly when the line was all whitespace. |
| `UrlLists.StripRemovesSurroundingSpace` | shellshock_tester.py:109 | `strip()` removes exactly the surrounding whitespace: a stripped text between two whitespace runs comes out unchanged. |
| `UrlLists.LoadUrls` | shellshock_tester.py:106-109 | Each loaded URL is non-empty and has no leading or trailing whitespace. There are never more URLs than lines. |
| `UrlLists.LoadUrlsCount` | shellshock_tester.py:109 | There are exactly as many URLs as non-blank lines. |
| `UrlLists.LoadUrlsAppend` | shellshock_tester.py:108-109 | Loading works line by line in file order: the URLs of `a + b` are those of `a` followed by those of `b`. |
| `UrlLists.LoadUrlsOfLine` | shellshock_tester.py:109 | A single line gives its stripped text, or nothing if it is blank. |
| `UrlLists.SplitWhitespace` | shellshock_tester.py:140 | `split()` yields only non-empty tokens, and no token contains whitespace. |
| `UrlLists.SplitKeepsNonSpace` | shellshock_tester.py:140 | The tokens, concatenated in order, equal the input with its whitespace removed. Order and content are kept. |
| `UrlLists.SplitAtSpace` | shellshock_tester.py:140 | Any whitespace character separates: splitting `a + [c] + b` gives the tokens of `a` followed by those of `b`. So a run of whitespace acts as one separator, and leading or trailing whitespace yields no empty token. |
| `UrlLists.SplitOfWord` | shellshock_tester.py:140 | A non-empty text without whitespace is a single token. With `SplitAtSpace` this fixes the result on every input. |
| `UrlLists.SplitJoinRoundTrip` | shellshock_tester.py:140 | Tokens typed with one whitespace character between each two split back into exactly those tokens. |
| `Scheduler.CollectResults` | shellshock_tester.py:54-79 | Takes any completion order of the submitted futures. Results are the outcomes of the futures that returned, in completion order. The URLs of the futures that raised are logged, in order. The result URLs plus the logged URLs equal the submitted URLs as a multiset, so each URL is accounted for exactly once. |
| `Scheduler.CollectedFromSubmitted` | shellshock_tester.py:70-77 | Every collected outcome's URL, and every logged fault's URL, is one of the submitted URLs. |
| `Scheduler.CollectedAppend` | shellshock_tester.py:71-75 | Draining one batch of futures and then another appends the second batch's results to the first's. |
| `Scheduler.CollectedOrderIndependent` | shellshock_tester.py:69-79 | Any two completion orders give the same multiset of outcomes. So, for any pool size of at least 1, the thread timing changes only the order of the results. |
| `Scheduler.OneOutcomePerUrlWithoutFaults` | shellshock_tester.py:70-79 | When no future raises, the result URLs are exactly the submitted URLs as a multiset, whatever the completion order. |
| `Scheduler.EveryUrlAccountedFor` | shellshock_tester.py:71-77 | Each drained future leaves exactly one trace: the URLs of the results plus those of the logged faults are the URLs of the drained futures. |
| `Scheduler.SubmittedIsPermutation` | shellshock_tester.py:70-71 | Draining every future in any completion order visits each submitted URL exactly as often as it was submitted. |
| `Scheduler.FaultLosesOutcome` | shellshock_tester.py:73-77 | If the future of a URL raises, that URL has fewer results than it was submitted times, and the results are strictly fewer than the URLs. |

## Left out

- `requests.get` and its settings (10-second timeout, `verify=False`, no redirects): a network call. Only its result is modelled, as a `Response` value. Decoding the response bytes into `response.text` is not modelled: the body is the decoded text, and its length counts characters.
- `ThreadPoolExecutor`, `executor.submit` and the real parallelism: the completion order and each future's fate are inputs to `Scheduler.CollectResults`. The thread count is never validated (`shellshock_tester.py:116`, `:142`). A count below 1 makes `ThreadPoolExecutor(max_workers=threads)` (`:69`) raise `ValueError` before any future is submitted, so `main` returns no results. This case is not modelled: the model assumes a pool size of at least 1.
- The rich progress bar, the results table, panels and console output. The row loop of `display_results` (`shellshock_tester.py:88-90`) is rendering only; its status text is `Report.DisplayStatus`.
- Logging: the text of the log lines is not modelled. The collection loop's log of faulted URLs is kept as the `faulted` out-parameter.
- File I/O: opening and reading the URL file, and splitting its text into lines (Python's universal-newline handling). `UrlLists.LoadUrls` takes the lines as input. Writing the results file, the JSON text with its 2-space indentation, and the key order of the JSON object are also left out: the saved object is modelled as a `map`.
- The command line and prompts: `argparse`, `Prompt`/`Confirm`, the `os.path.isfile` choice between the file and the typed URLs, `int()` parsing of the thread count, timing, `show_config`, and the exit on an empty URL list.
- `UrlLists.IsSpace` writes out the characters Python's `str.isspace()` accepts. The proofs about `strip()` and `split()` hold for any definition of this predicate. `SplitJoinRoundTrip` additionally requires that its separator be whitespace.
