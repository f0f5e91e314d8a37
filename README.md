# GitHub project extractor — a Dafny model

This project models the core of `github-project-extractor`, a collector that
searches GitHub for repositories in a given language. For each candidate it
checks four things:

- the last commit is older than a target year;
- the language holds more than 70% of the code bytes;
- the line count of the language's source files;
- the size category that line count falls into, and whether that category's
  quota is still open.

Accepted repositories go into a per-language, per-category store. The model
covers three source files:

- `data_processor.py` becomes module `DataProcessing`. It holds the size
  categories, the store of records, `get_size_category` and
  `get_remaining_counts`, the latter as the class `DataProcessor`.
- `extractor.py` becomes module `ProjectExtractor`. It holds:
  - the filters on values: staleness (`IsLastCommitBefore`), dominance
    (`Dominance`), lines of code (`LinesOfCode`, which uses `CountFileLines`
    and `DefaultBranch`, the models of `_count_file_lines` and
    `_get_default_branch`);
  - the accept/reject chain `Screen`;
  - a value-level model of one `collect_projects` run (`Step`,
    `ProcessItems`, `CollectPages`, `Collect`);
  - the class `GitHubProjectExtractor`, whose methods update
    `processed_repos`, the store and the `remaining_counts` dictionary in
    place. That dictionary is an object of class `RemainingCounts`. Each
    method is proved equal to the value-level model.
- `api_client.py` becomes module `ApiClient`. It holds the retry and
  rate-limit policy `Policy`/`Request` over a finite sequence of attempts,
  and the class `APIClient` with its two rate-limit fields.
  `APIClient.MakeRequest` is proved equal to `Request`.

Two support modules are added. `Common` holds `Option`, `Max` and sums over
maps. `PyText` holds the Python string built-ins the core relies on:
`strip`, `lower`, `int()`, `str()`, `split('-')[0]`, `endswith`, `in` and
`splitlines`.

API responses replace the network. The extractor sees, for each request, the
value `make_request` returned:

- a `RepoResponses` per repository name;
- a map from page number to search items, where a missing page is an absent
  or `items`-less response.

The client sees the sequence of attempts the network would produce, plus the
clock readings it takes. Every sleep the client performs is recorded as a
`Wait`.

The rows below name the members whose contracts state each property. The
reference functions the class methods are proved equal to carry no row of
their own, because they only compute. For the extractor these are `Dominance`,
`LinesOfCode`, `Screen`, `Step`, `ProcessItems`, `CollectPages` and `Collect`;
for the client they are `EventOf`, `NextState`, `Policy` and `Request`. Each of
them is reached through the rows of the methods and lemmas that mention it.

Some behaviours of the code may be unexpected; the model keeps them as
written:

- A 403 rate-limit refusal whose reset lies more than 10 seconds in the past
  makes `time.sleep` raise `ValueError`. That happens inside the `try`, so
  the refusal is counted as a failure (`EventOf`, `RateLimitRefusal`). An
  unreadable `X-RateLimit-*` header or an unparsable 200 body is also a
  counted failure, for the same reason.
- `_check_language_dominance` raises `ZeroDivisionError` when the languages
  map is non-empty but all its byte counts are zero. This is modelled as
  `Checked.ZeroDivisionError` and `Verdict.Crashed`. It is not a rejection.
  Nothing in `collect_projects`, `run()` or `main.py` catches the
  exception, so it ends the whole program: later pages, later languages and
  `_save_final_progress` never happen. The model ends the run of
  `collect_projects` with `crashed` set. The program stopping as a whole is
  outside the model.
- `processed_repos` receives only accepted repositories, not every
  repository examined.

## Model

| member | source | states |
|---|---|---|
| DataProcessing.DataProcessor.constructor | github_project_extractor/data_processor.py:4-7 | the store starts with one empty mapping per configured language, and the category list and quota are the configuration's |
| DataProcessing.GetSizeCategory | github_project_extractor/data_processor.py:9-14 | a returned category is the first in configuration order whose `[min,max]` holds the count (so its bounds hold the count); `None` exactly when no range holds it; the result is a configured name |
| DataProcessing.GetSizeCategoryFirstMatch | github_project_extractor/data_processor.py:11-13 | conversely, the first category whose range holds the count is the one returned, even when ranges overlap |
| DataProcessing.UniqueCategory | github_project_extractor/data_processor.py:11-13 | with disjoint ranges the returned category is the unique one holding the count |
| DataProcessing.Quota | github_project_extractor/data_processor.py:16-22 | the remaining map has exactly the configured categories as keys; every value is at least 0; a value is 0 exactly when the category already holds its quota |
| DataProcessing.DataProcessor.GetRemainingCounts | github_project_extractor/data_processor.py:16-22 | the loop over the categories yields `max(0, quota - len(recorded))` for each, i.e. `Quota` |
| DataProcessing.InitialQuota | github_project_extractor/data_processor.py:7 | right after construction every category still needs the full quota (`max(0, projects_per_category)`) |
| DataProcessing.AddRecordRecorded | github_project_extractor/extractor.py:213 | the append changes one list, by one record at its end, and no other language or category |
| DataProcessing.AddRecordQuota | github_project_extractor/extractor.py:213-214 | decrementing the open slot in place gives exactly the map `get_remaining_counts` would recompute after the append |
| DataProcessing.AddRecordTotal | github_project_extractor/extractor.py:213 | one append adds exactly one to the total number of records |
| DataProcessing.AddRecordNames | github_project_extractor/extractor.py:213 | one append adds exactly the record's full name to the names of the records |
| DataProcessing.AddRecordOneRecordPerName | github_project_extractor/extractor.py:213-215 | appending the record of a name not yet accepted keeps records and accepted names one to one |
| DataProcessing.InitialTotals | github_project_extractor/data_processor.py:7 | a fresh store holds no records and no names |
| DataProcessing.TotalSplit | github_project_extractor/extractor.py:231 | the total is one language's records plus the others' |
| DataProcessing.CountsSplit | github_project_extractor/extractor.py:231 | one language's records are one category's plus the others' |
| ProjectExtractor.LastCommitDate | github_project_extractor/extractor.py:17-34 | a date is returned exactly when the commits response is present and non-empty, and it is that of the first commit |
| ProjectExtractor.IsLastCommitBefore | github_project_extractor/extractor.py:36-53 | for a present, non-empty date whose part before the first `-` is an integer (as `int()` reads it), true exactly when that integer is below the target year; a missing or empty date or an unparsable year gives false |
| ProjectExtractor.CommitYearBefore | github_project_extractor/extractor.py:50-51 | for a date `<year>-...` the check holds exactly when the year is below the target |
| ProjectExtractor.NoDigitYearNotStale | github_project_extractor/extractor.py:49-53 | a date with no digit before its first dash is never stale (the `ValueError` branch) |
| ProjectExtractor.StaleExample | github_project_extractor/extractor.py:50-51 | "2018-05-01T00:00:00Z" is before 2020 |
| ProjectExtractor.RecentExample | github_project_extractor/extractor.py:50-51 | "2021-01-01T00:00:00Z" is not before 2020 |
| ProjectExtractor.TargetBytes | github_project_extractor/extractor.py:144-148 | the bytes are those of the first language equal to the target ignoring case, or 0 when none is |
| ProjectExtractor.TargetWithinTotal | github_project_extractor/extractor.py:141-148 | the target's bytes never exceed the total |
| ProjectExtractor.DominantIsListed | github_project_extractor/extractor.py:137-151 | dominance holds exactly when the first case-insensitively equal entry has more than 70% of all bytes |
| ProjectExtractor.DominanceExamples | github_project_extractor/extractor.py:137-151 | 800 of 1000 dominates, 600 of 1000 does not, a zero total raises, and a missing or empty map gives false |
| ProjectExtractor.CheckLanguageDominance | github_project_extractor/extractor.py:124-151 | the loop with `break` computes `Dominance`: false for no or empty map, the `ZeroDivisionError` for a zero total, else `10*target > 7*total` |
| ProjectExtractor.DefaultBranch | github_project_extractor/extractor.py:153-169 | the branch named by the repository metadata when it names one, otherwise "master" |
| ProjectExtractor.OnlyDefaultBranchCounts | github_project_extractor/extractor.py:72-79 | only the tree of the default branch is read: changing or removing trees of other branches leaves the line count unchanged |
| ProjectExtractor.CountFileLines | github_project_extractor/extractor.py:100-122 | 0 for a missing or undecodable file; otherwise the number of lines `splitlines` gives, which is at least 1 for non-empty text |
| ProjectExtractor.CountLinesOfCode | github_project_extractor/extractor.py:55-98 | the loop over the tree returns the sum of the file line counts of the blobs with a language extension, and 0 on a missing tree or on passing the timeout before any entry |
| ProjectExtractor.SourceFilesAreSources | github_project_extractor/extractor.py:95 | only blobs with one of the extensions are counted |
| ProjectExtractor.SourcesAreSourceFiles | github_project_extractor/extractor.py:95 | every such blob of the tree is counted |
| ProjectExtractor.NoExtensionsNoSources | github_project_extractor/extractor.py:87 | a language without known extensions counts no file |
| ProjectExtractor.LinesOfCodeZero | github_project_extractor/extractor.py:78-93 | an unknown language, a missing tree (whichever branch `_get_default_branch` chose) or a timeout gives 0 lines |
| ProjectExtractor.CountFileLinesOfLines | github_project_extractor/extractor.py:114-119 | decoded content made of n newline-terminated lines counts n lines |
| ProjectExtractor.ScreenAccepts | github_project_extractor/extractor.py:171-191 | a repository is accepted into category `c` with `n` lines exactly when it is new, stale, dominant, has `n` lines, `c` is the first category holding `n`, and `c` has room |
| ProjectExtractor.AcceptedInRange | github_project_extractor/extractor.py:184-188 | an accepted repository's line count lies in its category's range |
| ProjectExtractor.AcceptedIsNew | github_project_extractor/extractor.py:174-189 | an accepted repository is not yet processed, its category is configured and has a positive remaining count |
| ProjectExtractor.GitHubProjectExtractor.ScreenRepo | github_project_extractor/extractor.py:173-189 | the filters in source order give the verdict `Screen` defines |
| ProjectExtractor.Record | github_project_extractor/extractor.py:195-211 | the record carries the repository's full name, the language, the category and line count it was accepted with; `is_archived` is false when the item has no `archived`; the contributors count is 0 exactly for a missing or empty list; the last commit date is the one the staleness check read |
| ProjectExtractor.Add | github_project_extractor/extractor.py:213-215 | one record appended to its category, the category's count one lower, and the full name remembered |
| ProjectExtractor.GitHubProjectExtractor.AddProject | github_project_extractor/extractor.py:193-215 | the store, the processed set and the shared counts object become exactly `Add` of their old values |
| ProjectExtractor.StepAccepted | github_project_extractor/extractor.py:188-215 | on acceptance the state becomes `Add`; the counts stay the recomputed quota (hence never negative); records and names stay one to one; only this language changes; exactly the full name joins the processed set |
| ProjectExtractor.StepRejected | github_project_extractor/extractor.py:174-189 | a duplicate, a failed filter, an unclassified size or a full category (every verdict but acceptance) leaves the state unchanged |
| ProjectExtractor.StepKeeps | github_project_extractor/extractor.py:171-191 | either way the run invariant holds, only this language's records change, and at most this repository's name is added |
| ProjectExtractor.GitHubProjectExtractor.ProcessRepo | github_project_extractor/extractor.py:171-191 | returns `Screen`'s verdict for the old state and moves the object's state to `Step` of it |
| ProjectExtractor.ProcessItemsKeeps | github_project_extractor/extractor.py:276-277 | a page of items keeps the run invariant, changes only this language, and adds only names of items on the page |
| ProjectExtractor.ProcessItemsStops | github_project_extractor/extractor.py:276-277 | an empty page changes nothing, and a page whose first item raises stops at once with the state unchanged and the crash reported |
| ProjectExtractor.GitHubProjectExtractor.ProcessPage | github_project_extractor/extractor.py:276-277 | the loop over a page's items ends in the state and crash flag `ProcessItems` defines |
| ProjectExtractor.CollectPagesDone | github_project_extractor/extractor.py:256 | when no count is positive or page 50 is passed, no page is requested and nothing changes |
| ProjectExtractor.CollectPagesStep | github_project_extractor/extractor.py:256-279 | one turn: a missing page stops after requesting it; otherwise its items are screened and the loop goes on from the next page unless an item crashed |
| ProjectExtractor.CollectPagesShape | github_project_extractor/extractor.py:253-279 | from page `p`, the pages requested are `p, p+1, ...` in order, never past 50, all but the last answered; the loop stops only on a crash, a missing page, page 50, or no positive count |
| ProjectExtractor.CollectPagesKeeps | github_project_extractor/extractor.py:256-279 | the paging loop keeps the run invariant and changes only this language's records |
| ProjectExtractor.CollectShape | github_project_extractor/extractor.py:244-279 | a run requests at most 50 pages, exactly `1, 2, ...`; every page but the last was answered; it stops only for a crash, a missing page, page 50, or all counts at zero |
| ProjectExtractor.CollectKeeps | github_project_extractor/extractor.py:244-279 | a run keeps records and accepted names one to one, changes only this language, and ends with the counts `get_remaining_counts` would now compute |
| ProjectExtractor.CollectIdle | github_project_extractor/extractor.py:246-251 | no page is requested exactly when every category already holds its quota, and then nothing changes |
| ProjectExtractor.RemainingCounts.constructor | github_project_extractor/extractor.py:246 | the counts object holds the map `get_remaining_counts` returned |
| ProjectExtractor.GitHubProjectExtractor.constructor | github_project_extractor/extractor.py:9-15 | a new extractor keeps its configuration, starts with no processed names and a fresh empty store, and records and names are one to one |
| ProjectExtractor.GitHubProjectExtractor.CollectPage | github_project_extractor/extractor.py:256-279 | one turn of the page loop: the page is added to those requested, and the rest of the run agrees with `CollectPages` from the next page, or the run ends here as `CollectPages` says |
| ProjectExtractor.GitHubProjectExtractor.CollectPageLoop | github_project_extractor/extractor.py:253-279 | the `while` loop over pages ends in the state, page list and crash flag `CollectPages` defines |
| ProjectExtractor.GitHubProjectExtractor.CollectProjects | github_project_extractor/extractor.py:244-279 | `collect_projects` ends in the state, page list and crash flag of `Collect`, and keeps records and accepted names one to one |
| ProjectExtractor.GitHubProjectExtractor.CategoryTotal | github_project_extractor/extractor.py:231 | the inner sum is the number of one language's records |
| ProjectExtractor.GitHubProjectExtractor.SaveFinalProgress | github_project_extractor/extractor.py:228-231 | the total printed is the number of records over all languages and categories, which equals the number of accepted names |
| ApiClient.APIClient.constructor | github_project_extractor/api_client.py:5-9 | the client starts with 5000 remaining calls and reset time 0 |
| ApiClient.ProactiveWait | github_project_extractor/api_client.py:40-47 | the client waits exactly when fewer than 20 calls remain and the reset lies ahead, and then until reset plus 10 seconds (more than 10 seconds) |
| ApiClient.APIClient.CheckRateLimit | github_project_extractor/api_client.py:40-47 | `_check_rate_limit` asks for the sleep `ProactiveWait` defines |
| ApiClient.FirstRequestNeverWaits | github_project_extractor/api_client.py:8-13 | from the initial state no proactive wait happens |
| ApiClient.APIClient.UpdateRateLimit | github_project_extractor/api_client.py:49-52 | both fields are set from the headers (0 when missing); an unreadable remaining header changes nothing, an unreadable reset header keeps the new remaining and the old reset; `raised` exactly when one of them is unreadable |
| ApiClient.APIClient.HandleRateLimitExceeded | github_project_extractor/api_client.py:54-58 | the sleep is reset plus 10 minus the clock, and `time.sleep` raises exactly when it is negative |
| ApiClient.APIClient.HandleRetry | github_project_extractor/api_client.py:60-64 | the backoff after the k-th counted failure is `2^k` seconds |
| ApiClient.Policy | github_project_extractor/api_client.py:17-38 | the loop never sends more attempts than exist and never passes 3 counted failures; 3 failures end it with `None`; a returned body is the body of the last attempt sent, a 200 |
| ApiClient.SuccessReturnsAtOnce | github_project_extractor/api_client.py:22-23 | a readable 200 returns its body after that one attempt |
| ApiClient.NotFoundReturnsAtOnce | github_project_extractor/api_client.py:27-29 | a 404 returns `None` with no further attempt |
| ApiClient.RetriesCountFailures | github_project_extractor/api_client.py:17-35 | `retry_count` rises once per counted failure among the attempts sent and never otherwise, and the backoffs are `2^(r+1), ..., 2^final` in order |
| ApiClient.AtMostThreeFailures | github_project_extractor/api_client.py:14-38 | a request sends at most 3 counted failures, and its backoffs are exactly a prefix of 2, 4, 8 |
| ApiClient.ThreeFaultsThenSuccess | github_project_extractor/api_client.py:17-38 | after three exceptions the budget is spent, so a fourth attempt is never sent and `None` is returned after backoffs 2, 4, 8 |
| ApiClient.RateLimitRefusal | github_project_extractor/api_client.py:24-58 | a rate-limit 403 is slept out until reset plus 10 without consuming the budget; one whose wait would be negative becomes a counted failure with a backoff |
| ApiClient.StateFromLastReply | github_project_extractor/api_client.py:20-52 | the rate-limit state after the request is the one set by the last reply sent when its headers are readable |
| ApiClient.APIClient.HandleAttempt | github_project_extractor/api_client.py:18-35 | one attempt: a 200 body or a 404 ends the loop; a rate-limit wait adds its sleep and keeps the count; any other outcome adds one to it and sleeps `2^count`; the fields follow the headers |
| ApiClient.APIClient.MakeRequest | github_project_extractor/api_client.py:11-38 | the result, the sleeps asked for, the attempts sent and the new rate-limit fields are those of `Request` |
| PyText.ParseIntRoundTrip | github_project_extractor/extractor.py:50 | `int(str(i)) == i`, the fact the year check relies on |
| PyText.ParseIntNeedsDigit | github_project_extractor/extractor.py:50 | text without a digit makes `int()` raise |
| PyText.BeforeFirstOf | github_project_extractor/extractor.py:50 | `split('-')[0]` of `a + "-" + b` is `a` when `a` has no dash |
| PyText.SplitLinesHaveNoBreaks | github_project_extractor/extractor.py:119 | no line `splitlines` returns contains a line boundary |
| PyText.SplitJoin | github_project_extractor/extractor.py:119 | `splitlines` of newline-terminated lines gives those lines back |
| PyText.SplitJoinUnterminated | github_project_extractor/extractor.py:119 | a last line without terminator is still counted as one line |

## Left out

- HTTP, JSON decoding, authentication headers, base64/UTF-8 decoding,
  `time.sleep`, `time.time()`, the 2-second pause between pages, and every
  `print` are left out. Responses and clock readings are inputs; sleeps are
  recorded as `Wait` values; a file is already decoded (`FileData`).
- `FileManager`, `Config` loading, `main.py`, `run()` and the
  `_save_progress` metadata (with its timestamp) are not part of this model.
  `SaveFinalProgress` models only the total of `_save_final_progress`.
- ProjectExtractor.GitHubProjectExtractor.CollectProjects: the extractor's own calls to
  `make_request` are not routed through one `APIClient`. Each response is
  the value `make_request` returned. The rate-limit state shared between
  those calls is therefore not modelled; `ApiClient` models one call.
- ProjectExtractor.Record: the second `/commits` fetch at line 208 is
  taken to return the list the staleness check saw. That fetch crashing
  on `None` is therefore not modelled. The contributors count is the
  length of the `/contributors` response, or 0.
- ProjectExtractor.Dominance: `target / total > 0.7` in floating point is
  modelled as the exact `10 * target > 7 * total`. The two can differ only
  when the share lies within rounding distance of 0.7, which needs totals
  above about 10^16 bytes.
- DataProcessing.Recorded: `defaultdict(list)` creating an empty list on
  read is modelled as reading an empty list without storing one. The
  difference shows only in the saved file.
- PyText.Lower, PyText.ParseInt: case folding, whitespace and digits are
  ASCII only. Python's Unicode digits and case mappings are not modelled.
- ApiClient.APIClient.MakeRequest: the attempts are a finite sequence. When they run
  out before the loop ends, the result is `Unfinished`; the source would
  keep sending requests.
- ProjectExtractor.CountLinesOfCode: the clock is a function from entry
  index to seconds elapsed, read once before each entry.
- ApiClient.APIClient.HandleRateLimitExceeded: `time.time()` returns
  fractional seconds. Here clock readings, waits (`Wait.seconds`,
  `ProactiveWait`) and the elapsed times of `CountLinesOfCode` are whole
  seconds. A fractional wait is not represented, such as 10.5 seconds for
  reset 100 at time 99.5. Neither is a negative wait above -1 second. A
  comparison with the clock that differs only by a fraction of a second may
  come out differently.
- ProjectExtractor.GitHubProjectExtractor.CollectProjects: an escaping
  `ZeroDivisionError` is reported as `crashed`. The program then stopping as
  a whole is not modelled: no further languages, no `_save_final_progress`.
- The `token`, `api_client` and `file_manager` fields of the extractor are
  not modelled.
