# Code executor plugin: a Dafny model

This project models the decision and bookkeeping logic of a chat-bot plugin. The plugin runs Python code sent by a language model and keeps a history of every run in SQLite.

The model covers two parts.

- **The execution engine (main.py).** It covers:
  - how the restriction lists are normalised from configuration;
  - the permission check and the keyword/library screening of non-admin code;
  - the library catalog offered to the code, filtered for non-admins;
  - the list of files a run sends back;
  - the chart-capture naming rule;
  - the shapes of success, exception and timeout results;
  - the truncation of output in the chat reply;
  - the tool entry point, which gates, runs and records.
- **The history store (database.py).** It covers:
  - the `execution_history` table as a sequence of rows with auto-incremented ids;
  - insertion, deletion by id and by category;
  - the filtered, paged query (WHERE clause, LIKE, time bounds, ORDER BY, LIMIT/OFFSET, page count);
  - the detail lookup and the statistics.

Modules (one per file):

| file | module | what it holds |
|---|---|---|
| text.dfy | Text | Python string operations: `isspace`, ASCII `lower`, `strip`, `split`, `join`, `str <=`, `str(n)` |
| wrappers.dfy | Wrappers | `Option`, `Result` |
| lists.dfy | Lists | order-preserving subsequences |
| config.dfy | Config | `_normalize_list_config`, default lists, settings |
| policy.dfy | Policy | the import-line regex, screening loop, sorted report, gate |
| policy_examples.dfy | PolicyExamples | concrete inputs the screening does and does not catch |
| artifacts.dfy | Artifacts | directory model, `os.path` helpers, artifact list, chart capture |
| worker.dfy | Worker | catalog filter, globals, `run_code`, timeout, truncation |
| jsonpaths.dfy | JsonPaths | `json.dumps`/`json.loads` of the `file_paths` column |
| history_query.dfy | HistoryQuery | LIKE, time bounds, WHERE builder, what it selects, paging |
| history.dfy | History | the table, `ExecutionHistoryDB` operations, statistics |
| plugin.dfy | Plugin | `execute_python_code` |

The environment of a run is passed in as parameters:

- the file system before the run;
- whether the time limit fired;
- what executing the code did (completed with stdout, appended `FILES_TO_SEND` entries and the resulting file system; or raised with partial stdout and a traceback);
- the timestamp a history row gets (`CURRENT_TIMESTAMP`);
- the moment `datetime('now', '-7 days')`;
- the chart timestamp;
- whether `savefig` fails.

In three places the code does something other than its stated intent. The model follows the code:

- A new directory entry of any kind counts as a produced file. The intent is regular files only, but the code takes `files_after - files_before` unfiltered.
- The catalog filter does not affect the special imports (`BeautifulSoup`, `Image`, `dateutil_parser`, `dateutil`) or the base globals. A restricted `PIL` is still bound as `Image`.
- `%` and `_` in a search keyword are not escaped. `_` matches any one character (`UnderscoreMatchesAnyCharacter`).

## Model

| member | source | states |
|---|---|---|
| Config.NormalizeListConfig | main.py:41-50 | `_normalize_list_config`: a list of convertible elements gives the cleaned texts (ListSide), a string gives its cleaned comma/newline pieces (StringSide), a raising element gives the lower-cased default (RaisingElementGivesDefault) |
| Config.Clean | main.py:44 | the cleaned list is never longer than the input |
| Config.CleanMembers | main.py:44 | a term is produced iff some entry strips to a non-empty string and lower-cases to it |
| Config.CleanTerms | main.py:44-47 | every produced term is non-empty, lower case, and has no leading or trailing whitespace |
| Config.CleanAppend | main.py:44-47 | cleaning keeps entry order: it distributes over concatenation |
| Config.CleanIdempotent | main.py:44-47 | normalising an already normalised list changes nothing |
| Config.StringSide | main.py:43-44 | a comma-joined string of entries without commas or newlines normalises to the cleaned entries |
| Config.ListSide | main.py:45-47 | a list whose elements all convert to text normalises to the cleaned texts |
| Config.StringAndListAgree | main.py:43-47 | a comma-joined string and the list of its entries normalise to the same terms, when no entry holds a comma or newline |
| Config.RaisingElementGivesDefault | main.py:49-50 | an element whose `str()` raises makes the result the lower-cased default |
| Config.StringTermsHaveNoSeparator | main.py:46 | no term produced from a string contains a comma |
| Config.LowerAll | main.py:48-50 | the default is lower-cased element by element, in order |
| Policy.ImportLineMatch | main.py:390 | the regex of the import-line rule: start of a line, optional blanks, `import` or `from`, blanks, then the library followed by a word boundary, ignoring ASCII case; ImportLineMatchLower and the PolicyExamples lemmas pin what it accepts |
| Policy.MatchedTerms | main.py:381-394 | the set `matched`: MatchedTermsMembers states its members, Screen proves the loops compute it |
| Policy.Screen | main.py:381-394 | the loops over keywords and libraries return exactly the set of matched terms: a keyword iff non-empty and in the lower-cased code; a library iff non-empty and it matches the import-line regex or `<lib>.` occurs |
| Policy.MatchedTermsMembers | main.py:381-394 | a term is reported iff it is a non-empty keyword in the lower-cased code, or a non-empty library, lower-cased, that matches the import-line rule or occurs as `<lib>.` |
| Policy.SortTerms | main.py:396 | `sorted(matched)`: strictly increasing, with exactly the members of the set |
| Policy.MinimumExists | main.py:396 | every non-empty finite set of terms has a least element |
| Policy.SortedUnique | main.py:396 | two strictly sorted lists with the same members are equal, so the report is determined by the matched set |
| Policy.Gate | main.py:377-403 | refused iff not admin and `allow_all_users` is off; blocked iff permitted, screened (non-admin with safety on) and some term matched; the block reports the matched terms sorted |
| Policy.NothingConfiguredClearsEverything | main.py:381-395 | with empty lists nothing is ever matched |
| Policy.MoreTermsBlockMore | main.py:381-395 | adding terms to either list can only add matches |
| Policy.ImportLineMatchLower | main.py:390-391 | the case-insensitive import-line regex matches the code iff it matches the lower-cased code |
| Policy.ScreeningIgnoresCase | main.py:381-394 | screening code and screening its lower-cased form give the same matches |
| PolicyExamples.PlainImportMatches | main.py:390 | `import subprocess` matches the import-line rule |
| PolicyExamples.IndentedFromImportMatches | main.py:390 | an indented `FROM socket import socket` on a later line matches |
| PolicyExamples.LongerModuleNameDoesNotMatch | main.py:390 | `import subprocess2` does not match `subprocess`, because of the word boundary |
| PolicyExamples.ImportListNoImportLine | main.py:390 | `import os, subprocess` does not match the import-line rule for `subprocess` |
| PolicyExamples.ImportListEscapesLibraryRule | main.py:386-394 | `import os, subprocess` passes the library rule for `subprocess` but hits the keyword rule |
| PolicyExamples.DefaultListsBlockImportSubprocess | main.py:381-395 | with the default lists, `import subprocess` matches `subprocess` |
| PolicyExamples.AttributeAccessMatches | main.py:393 | `socket.socket()` is caught by the `<lib>.` rule without any import |
| Worker.Unrestricted | main.py:790-792 | an entry is kept iff it is in the catalog and its lower-cased module name is not restricted |
| Worker.UnrestrictedInOrder | main.py:792 | the kept entries keep their catalog order |
| Worker.FilterCatalog | main.py:790-792 | admins, or an empty restriction list, get the whole catalog; otherwise the unrestricted entries |
| Worker.FilterCatalogInOrder | main.py:790-792 | the offered catalog is an order-preserving subsequence of the full one |
| Worker.BuildGlobals | main.py:790-812 | every base global and special import is bound; every offered, importable module is bound under its alias; every binding comes from one of these |
| Worker.RestrictedModuleNotOffered | main.py:790-798 | for a non-admin, a module bound to a restricted name comes only from the base globals or the special imports |
| Worker.SpecialImportIgnoresRestriction | main.py:804-807 | `Image` is bound to `PIL.Image` whenever PIL imports, whatever the restriction list |
| Worker.RunCode | main.py:606-887 | a failed directory listing before the run escapes as an exception; an exception in the code yields failure, its traceback, its partial stdout and no files; a failed listing after the run yields failure with its traceback; otherwise success with the stdout and the collected file list |
| Worker.ExecuteCodeSafely | main.py:889-898 | a timeout yields `success=false`, `output=None`, the time-limit message and no files; every returned result has the success or failure shape |
| Worker.RunSpec | main.py:605-881 | what `run_code` may return: a failing snapshot escapes, an exception gives traceback, partial output and no files, a failing later listing gives its traceback, otherwise success with the output and the collected files; RunSpecWellShaped shows every such result has the success or failure shape |
| Worker.RunSpecWellShaped | main.py:864-881 | every result `run_code` may return has `error` absent on success and no files on failure |
| Worker.Truncate | main.py:424-425 | the cut applied to the reply output; TruncateWithinLimit and TruncateNegativeLimit state its result |
| Worker.PrefixSlice | main.py:425 | Python `s[:n]`, including negative `n` |
| Worker.TruncateWithinLimit | main.py:424-425 | output within the limit is kept; longer output keeps exactly its first `max_output_length` characters plus the marker |
| Worker.TruncateNegativeLimit | main.py:424-425 | a negative limit always truncates, dropping characters from the end |
| Artifacts.ListDir | main.py:734 | `os.listdir(d)`: the names of a directory, and a failure for a missing path or a file |
| Artifacts.ListNames | main.py:611 | the snapshot with its existence fallback: a missing directory lists as empty, otherwise as `os.listdir` |
| Artifacts.Join | main.py:736 | POSIX `os.path.join`; BasenameJoin and JoinInjective state its properties |
| Artifacts.Basename | main.py:750 | `os.path.basename`: the result holds no `/`; BasenameJoin gives it back from a join |
| Artifacts.SplitextRoot | main.py:750 | the root of `os.path.splitext`; SplitextRootOfExtension and SplitextRootWithoutExtension state it |
| Artifacts.ExistingFiles | main.py:836-839 | a path survives the filter iff it was appended as a string and is an existing regular file |
| Artifacts.ExistingFilesInOrder | main.py:836-839 | the surviving paths keep their order |
| Artifacts.CollectArtifacts | main.py:838-853 | fails iff the listing after the run fails; otherwise the result starts with the surviving explicit paths, appends each new name joined to the directory unless already present, and misses none |
| Artifacts.ArtifactsComplete | main.py:836-853 | every surviving explicit path and every discovered file is in the list sent back |
| Artifacts.BasenameJoin | main.py:749-751 | `basename(join(d, f)) == f` for a plain name |
| Artifacts.JoinInjective | main.py:846-853 | distinct names in one directory give distinct paths |
| Artifacts.SplitextRootOfExtension | main.py:750 | `splitext` drops a final extension |
| Artifacts.SplitextRootWithoutExtension | main.py:750 | a name with no extension, or only leading dots, keeps its root |
| Artifacts.SavefigBase | main.py:749-751 | the base name of `savefig`: a basename without `/`, or `plot` for a non-string |
| Artifacts.ChartNameShape | main.py:735 | a chart file is `base_` followed by the stamp and count, ending in `.png` |
| Artifacts.ChartNamesDistinct | main.py:735 | different entry counts give different chart names |
| Artifacts.ChartSession.SaveAndCloseCurrentFig | main.py:731-752 | an empty figure changes nothing; listing a missing output directory, or a path that is not a directory, raises and changes nothing; otherwise the chart path is saved and appended and its message printed, or the save error is printed |
| Artifacts.SuccessiveChartsDistinct | main.py:735 | one chart saved into the directory raises the entry count, so the next chart gets a different name |
| JsonPaths.Encode | database.py:65 | `json.dumps(paths, ensure_ascii=False)`; DecodeEncode reads it back unchanged |
| JsonPaths.Decode | database.py:192 | `json.loads` of an array of strings; DecodeEncode is its round trip with Encode |
| JsonPaths.StorePaths | database.py:65 | the stored column: `None` paths as `[]`; StoredPathsRoundTrip reads them back |
| JsonPaths.ReadPaths | database.py:192 | `json.loads(v) if v else []`; EmptyColumnReadsEmpty and StoredPathsRoundTrip state it |
| JsonPaths.ElementsRead | database.py:192 | the written elements of a non-empty list, then `]`, read back as that list with the rest of the text left over |
| JsonPaths.FirstElementRead | database.py:192 | the first written element followed by `, ` is read, and the remaining elements are read after it |
| JsonPaths.LastElementRead | database.py:192 | a written element followed by `]` ends the array with that element |
| JsonPaths.DecodeEncode | database.py:65 | reading `json.dumps(paths, ensure_ascii=False)` back gives the same list of strings |
| JsonPaths.StoredPathsRoundTrip | database.py:65 | stored paths read back unchanged; missing paths read back as `[]` |
| JsonPaths.EmptyColumnReadsEmpty | database.py:192 | a NULL or empty column reads as `[]` |
| HistoryQuery.Like | database.py:135-138 | SQLite `LIKE` with `%` and `_`, ignoring ASCII case; LikePrefix, LikeSuffix, SearchIsContainment and UnderscoreMatchesAnyCharacter state what it matches |
| HistoryQuery.LikePrefix | database.py:136 | `q%` matches exactly the texts starting with `q`, ignoring ASCII case |
| HistoryQuery.LikeSuffix | database.py:136 | `%r` matches exactly when `r` matches some suffix |
| HistoryQuery.SearchIsContainment | database.py:135-138 | for a keyword without `%` or `_`, `%kw%` matches iff the keyword occurs, ignoring ASCII case |
| HistoryQuery.UnderscoreMatchesAnyCharacter | database.py:137 | `%a_c%` matches `abc`, which does not contain `a_c` |
| HistoryQuery.NormalizeBound | database.py:144-157 | a normalised bound has no `T`; a sixteen-character `YYYY-MM-DDTHH:mm` value gains exactly the seconds suffix (`:00` for the start, `:59` for the end), any other length keeps its length |
| HistoryQuery.ReplaceDatetimeLocal | database.py:146-153 | a `datetime-local` value gets a space in place of its `T` |
| HistoryQuery.MinuteBoundsInclusive | database.py:144-157 | bounds built from one minute include every timestamp of that minute, seconds 00 to 59 |
| HistoryQuery.CondParams | database.py:131-157 | each condition contributes as many parameters as it has placeholders |
| HistoryQuery.PlaceholdersMatchParams | database.py:128-159 | the clause has as many `?` as there are parameters |
| HistoryQuery.NoFilterNoClause | database.py:159 | with no filter the clause and the parameters are empty |
| HistoryQuery.KeywordParams | database.py:135-138 | a keyword contributes `%kw%` three times |
| HistoryQuery.ConditionsInOrder | database.py:131-157 | conditions come in the order sender, keyword, success, start, end |
| HistoryQuery.ConditionsPresent | database.py:131-157 | a condition is present iff its filter is given |
| HistoryQuery.EvalCond | database.py:131-157 | what one WHERE condition with its bound parameters means for a row; WhereMeansMatches ties the whole clause to the filter |
| HistoryQuery.EvalAppend | database.py:159 | conditions joined by AND evaluate as the conjunction of their parts |
| HistoryQuery.WhereMeansMatches | database.py:128-164 | the clause with its bound parameters holds for a row iff the row meets every given filter |
| HistoryQuery.BuildWhere | database.py:128-159 | builds the clause and parameter list by appending, equal to the specification, with matching placeholder count |
| HistoryQuery.Offset | database.py:125 | `(page - 1) * page_size`; RecordOnItsPage and PagesAdjacent state where each record lands |
| HistoryQuery.TotalPages | database.py:203 | `(total + size - 1) // size`, a division error for size 0; TotalPagesIsCeiling states it is the ceiling |
| HistoryQuery.FloorDiv | database.py:203 | Python `//` rounds toward negative infinity |
| HistoryQuery.TotalPagesIsCeiling | database.py:203 | with a positive page size the page count is the ceiling of total over size, 0 for no records |
| HistoryQuery.Window | database.py:174-177 | `LIMIT n OFFSET k` is a slice starting at the clamped offset, at most `n` long when `n >= 0`, and full length when enough rows remain |
| HistoryQuery.WindowAt | database.py:174 | item `r` of a window of `size` rows starting at a non-negative offset is row `start + r` |
| HistoryQuery.RecordOnItsPage | database.py:125 | record `i` is on page `i / size + 1` at position `i % size` |
| HistoryQuery.PagesAdjacent | database.py:125 | consecutive pages start `page_size` apart |
| History.DecodeAll | database.py:181-196 | a decoded result has one record per row |
| History.DecodeAllSpec | database.py:181-196 | decoding succeeds iff every row decodes, and record `i` comes from row `i` |
| History.WithoutSpec | database.py:82-110 | a DELETE keeps exactly the unselected rows, in order, and removes as many as the matching COUNT counts |
| History.CountPositive | database.py:88 | the count is positive iff some row is selected |
| History.UniqueIdCount | database.py:86-88 | with AUTOINCREMENT ids, deleting by id removes at most one row |
| History.WithoutIdsWithin | database.py:82-110 | a DELETE keeps the ids of the remaining rows within any bounds the table kept |
| History.WithoutOrdered | database.py:82-110 | deletes keep ids increasing |
| History.QuerySelectsMatching | database.py:163-178 | the generated query selects exactly the rows the filter describes |
| History.SortNewestFirst | database.py:173 | `ORDER BY created_at DESC`; SortSpec proves it a newest-first permutation |
| History.InsertSpec | database.py:173 | inserting a row into a newest-first list keeps it newest first and adds exactly that row |
| History.SortSpec | database.py:173 | `ORDER BY created_at DESC` gives a newest-first permutation of its input |
| History.ShownSpec | database.py:168-178 | the rows on a page are matching rows, newest first, at most `page_size` of them |
| History.HistoryPage | database.py:115-204 | the page `get_execution_history` returns; PageContents, ZeroPageSizeRaises and UnfilteredTotal state its contents |
| History.PageContents | database.py:161-204 | a page holds at most `page_size` records, newest first, each decoded from a matching row; `total_count` counts all matches |
| History.ZeroPageSizeRaises | database.py:203 | a page size of 0 always raises the division error |
| History.UnfilteredTotal | database.py:163-165 | without filters `total_count` is the number of rows |
| History.Find | database.py:213-222 | the lookup finds a row with the id, or none iff no row has it |
| History.ExecutionDetail | database.py:209-236 | `get_execution_detail`; DetailFinds and StoredRecordReadsBack state it |
| History.DetailFinds | database.py:209-236 | an unknown id gives `None`; a row's id gives that row's record |
| History.StoredRecordReadsBack | database.py:209-236 | a record stored by the insert reads back by its id with the same fields and file paths |
| History.Senders | database.py:257 | `COUNT(DISTINCT sender_id)` as a set; SendersMembers, SendersAppend and SendersBound state it |
| History.RecentCount | database.py:262-265 | the rows created at or after the given moment, counted: never more than the rows |
| History.SendersMembers | database.py:257 | the distinct senders are exactly the sender ids in the table |
| History.SendersAppend | database.py:257 | a new row adds exactly its sender to the distinct senders |
| History.SendersBound | database.py:257 | there are at most as many users as executions, and at least one when the table is not empty |
| History.Statistics | database.py:241-273 | `get_statistics`; StatisticsConsistent, StatisticsRate and StatisticsAfterAdd state its figures |
| History.StatisticsConsistent | database.py:241-273 | the failed count is the rows with `success = 0`, successes plus failures is the total, the rate lies in 0..100 and is 100 iff nothing failed, and `recent` is at most the total |
| History.StatisticsRate | database.py:271 | the success rate is 0 for an empty table, and otherwise rate times total equals successes times 100 |
| History.RateTimesTotal | database.py:271 | a percentage times the total gives back the successes times 100 |
| History.RateBounds | database.py:271 | a success percentage lies in 0..100 and is 100 iff all succeeded |
| History.DeletingFailuresLeavesFullRate | database.py:241-273 | after deleting the failures no failure remains and the rate is 100 |
| History.StatisticsAfterAdd | database.py:246-258 | one insert adds one execution, one success if it succeeded, and one user if the sender is new |
| History.HistoryDB.constructor | database.py:13-51 | a new store is empty and its first id is 1 |
| History.HistoryDB.Add | database.py:53-80 | appends one row under the next id, with the paths stored as JSON and missing paths as `[]`; ids stay increasing |
| History.HistoryDB.Delete | database.py:82-88 | removes the row with that id, changes nothing else, and reports true iff such a row existed |
| History.DeleteKind | database.py:99-110 | a category is accepted iff it is `success`, `fail` or `all`, and each selects its own rows |
| History.HistoryDB.DeleteByType | database.py:93-110 | `success`, `fail` and `all` delete exactly the successful, failed or all rows and return the number removed; any other type raises `无效的删除类型` and leaves the table unchanged |
| History.DecodeRows | database.py:181-196 | the row-by-row decoding loop yields exactly the decoded rows, or fails as the specification does |
| History.DeleteByIdFacts | database.py:82-88 | deleting by id keeps the ids ordered and in range, removes one row iff some row has the id, and otherwise changes nothing |
| History.HistoryDB.GetExecutionHistory | database.py:115-204 | builds the clause, selects, orders, windows and decodes row by row; the result equals the page specification in terms of the filter's meaning |
| Plugin.SuccessMessage | main.py:420-426 | the success reply; SuccessMessageBound states its bound and its untruncated form |
| Plugin.FailureMessage | main.py:534-537 | the failure reply: the error, then any output produced before it; stated by ExecutePythonCode's contract |
| Plugin.SuccessMessageBound | main.py:420-428 | the chat reply shows at most `max_output_length` characters of output, and the whole stripped output when it fits |
| Plugin.CodeExecutor.ExecutePythonCode | main.py:377-603 | refused iff not permitted or screening matched, and then nothing is recorded; otherwise exactly one row is added under the next id with the caller's fields and the outcome's success, output, error and files; the success reply truncates; a timeout gives the timeout shape; an escaping exception records `插件内部错误: ...` |

## Left out

- Chat I/O is not modelled. This covers every `event.send`, file sending (local route, native, base64), the image-URL listing in replies, `get_image_urls_from_message` and `debug_message_chain`. Sends never fail in the model. In the source, the `event.send` calls at main.py:429 and main.py:551 sit inside the `try` of main.py:416, before the history writes, so a failing send gives the internal-error reply and an internal-error row (main.py:572-600) instead of the success or failure row.
- The error analysis by an auxiliary language model is not modelled. It is an outbound provider call.
- The web UI (webui.py) is not part of this model.
- The real `exec` of the user's code, the stdout/stderr redirection and the threads behind the timeout are parameters, not modelled. A timed-out worker thread is not stopped, and its later effects are not modelled.
- Matplotlib font setup and figure rendering are not modelled. The model keeps only the empty-figure rule, the file name and the list append. The chart session is a separate object, and its appended paths reach the run as part of the code's effect.
- Exceptions other than `ImportError` during the matplotlib setup are not modelled. Neither are exceptions other than `ImportError` from a catalog `__import__` (main.py:794-797) or a special import (main.py:800-811): Worker.BuildGlobals treats each package as importable or not. All of these are caught by `run_code`'s handler (main.py:868) like any exception in the code.
- UTF-8 re-encoding with `errors='ignore'` is the identity. A Dafny `char` is a Unicode scalar value, so every model string encodes.
- Case mapping is ASCII only, in `lower()` and in SQLite's LIKE. The regex `\b` uses ASCII `\w`.
- Policy.ImportLineMatch ignores ASCII case only. Python's `re.IGNORECASE` on a text pattern (main.py:390) also folds other characters: `s` matches `ſ` (U+017F), `k` matches the Kelvin sign (U+212A), `i` matches `ı` (U+0131) and `İ` (U+0130). So `import ſocket` is blocked by the source under the default lists but cleared by the model, whose keyword and `<lib>.` rules miss it just as the source's do.
- JsonPaths.Decode reads only a JSON array of strings. Other JSON values in the `file_paths` column count as a decode failure.
- JsonPaths.Decode refuses every `\uXXXX` escape of a surrogate, so an escaped surrogate pair such as `"\ud83d\ude00"` is a decode failure, where Python's `json.loads` combines it into one character. The writer never produces such escapes (`ensure_ascii=False`), so only rows written by other tools are affected.
- HistoryQuery.EvalCond compares `created_at` with a time bound as text by code point. Stored timestamps are assumed to be text. SQLite's type affinity is not modelled: `created_at` is declared `TIMESTAMP`, so a bound that looks like a number (`"2025"`, `"1700000000"`) is compared as an INTEGER, which sorts below every text value. Then `created_at >= ?` holds for every row and `created_at <= ?` for none, while the model compares the texts.
- History.SortNewestFirst gives rows with equal `created_at` in table order. SQLite does not fix the order of such ties.
- History.Statistics does not model `round(x, 2)`. It states the exact percentage.
- History.Statistics is not a class member. It takes the moment seven days ago as a parameter, because `datetime('now', '-7 days')` reads the clock.
- Plugin.CodeExecutor.ExecutePythonCode assumes the history insert always succeeds. The source logs and swallows a failing insert.
- Plugin.CodeExecutor.ExecutePythonCode leaves out the final text returned to the language model. That text depends on the results of sending files.
- Worker.ExecuteCodeSafely takes the timeout as a whole number of seconds. The configuration could give a float.
- Database connection errors, which the source logs and re-raises, are not modelled.
- Worker.ExecEffect's `Raised` stands for an `Exception` raised by the code. A `BaseException` outside `Exception`, such as the `SystemExit` of `exit()` or `sys.exit()`, escapes both `run_code`'s handler and the tool's handler (main.py:868, 572) and writes no history row. The model has no such outcome.
