# ejudge_tools in Dafny

A model of the statistics core of ejudge_tools, the scripts a teacher runs on
the ejudge judge's run dumps. It covers four scripts.

- **ej_plot_contest.** Each run is given a student group. It comes from a roster, from the `Group` column, or from the code inside the login. Dropped runs are those without a usable group, with another status, or outside a contest window. The window opens at the first accepted run. The surviving runs are counted in a group × problem matrix. The group sizes come from the roster or from the distinct logins seen. The `ProblemName` spellings of a configured problem are reconciled with the names the data uses. Table rows are projected from the matrix: the group size, the counts, and whole percentages.
- **ej_student_progress.** Counts, for every login of a configured list, the distinct listed tasks it has solved. Also a group-wise variant of the run filter.
- **makeall_2019.** Flattens a three-level JSON config (top, department, stage) into one dictionary. The lower levels override the upper ones.
- **semestr.** Pivots a marks table (rows are marks, columns are departments) into `department → mark → number`.

The model is organised by module:

- `Base`: `Option`, `Result` with the Python exceptions the code raises, and `sum()` over dictionary values.
- `Text`: the parts of `str` that are used. These are `startswith`, slicing, `rstrip`, `split()`, `int()`, and the code-point order of `sorted()`.
- `ProblemNames`: the `ProblemName` class, with mutable `fullname`.
- `ContestData`: `Data.fiter_data` with `extract_group`, `enroll` and `count`.
- `ContestTables`: `get_counted_probs`, `data_group` and `data_group_all`.
- `StudentProgress`: count_ejudge_tasks.py.
- `FlatConfig`: `get_flat_dict`.
- `SemestrMarks`: the pivot in `process_data`.

Code that loops or updates state is an imperative `method`. Each method is proved equal to a specification function, or states its result outright. The lemmas relate the specification functions to independent descriptions: the set of participants, the number of counted runs, and the level a configuration key comes from. Parsed CSV rows are `map<string, string>`. Timestamps and the contest duration are integer seconds.

Two behaviours of the code that the model keeps:

- The contest filter enrols a login only after the status check (ej_plot_contest/ej_plot_contest.py:245-251). A login whose runs all have another status is not a participant.
- A percentage is `int(x * 100 / x0)`, and a size `x0` of 0 raises `ZeroDivisionError` (ej_plot_contest/ej_plot_contest.py:154 and 171). `ContestTables.GroupRowNeverDividesByZero` shows that `data_group` cannot raise it on the output of `fiter_data`. `data_group_all` can, in two ways, both for a non-empty header list with percentages asked for. With a roster, the roster may give every configured group zero members. Without a roster, `cfg.groups` may be empty with no enrolled run; then the sizes are `{}` and the sum at line 168 is 0.

## Model

| member | source | states |
|---|---|---|
| Text.Slice | ej_plot_contest/ej_plot_contest.py:360 | `s[i:j]` has length `min(j, len) - i`, or 0 when that is negative, and its k-th character is `s[i + k]` |
| Text.RStrip | ej_plot_contest/ej_plot_contest.py:27 | `rstrip(c)` gives a prefix of the input that does not end in `c`, and everything cut off is `c` |
| Text.Words | ej_plot_contest/ej_plot_contest.py:62 | every token of `split()` is non-empty and free of whitespace |
| Text.WordsKeepNonSpace | ej_plot_contest/ej_plot_contest.py:62 | the tokens of `split()`, concatenated, are the input with its whitespace removed |
| Text.WordsSplitAt | ej_plot_contest/ej_plot_contest.py:62 | a text followed by a whitespace-led tail splits into the words of the text, then the words of the tail after that first separator |
| Text.WordsSplitAtSpace | ej_plot_contest/ej_plot_contest.py:62 | every whitespace character breaks the tokens: `split()` of `a + c + b`, for a whitespace c, is `split()` of a followed by `split()` of b |
| Text.WordsOfJoin | ej_plot_contest/ej_plot_contest.py:62 | splitting whitespace-free words joined by spaces gives back the same words |
| Text.ParseInt | ej_plot_contest/ej_plot_contest.py:261 | `int(text)` succeeds iff the text is an optional sign followed by one or more ASCII digits, and raises `ValueError(text)` otherwise; a negative value comes only from a leading `-` |
| Text.ParseIntValue | ej_plot_contest/ej_plot_contest.py:261 | on such a text, `str` of the absolute value is the digits after the sign with leading zeros dropped, and the value is not positive after `-` and not negative otherwise |
| Text.CanonicalDigits | ej_plot_contest/ej_plot_contest.py:261 | digits without a leading zero are exactly `str()` of their value |
| Text.ParseIntOfIntToString | ej_plot_contest/ej_plot_contest.py:265 | `int(str(n)) == n` for every integer n |
| Text.Insert | ej_plot_contest/ej_plot_contest.py:300 | inserting into a strictly sorted list keeps it strictly sorted and adds exactly the new element |
| Text.SortedStrings | ej_plot_contest/ej_plot_contest.py:300 | `sorted(s)` is strictly increasing in code-point order and holds exactly the elements of s |
| Text.SortedUnique | ej_plot_contest/ej_plot_contest.py:300 | two strictly sorted lists with the same elements are equal, so `sorted` has one possible result |
| Text.LexTransitive | ej_plot_contest/ej_plot_contest.py:300 | the string order used by `sorted` is transitive |
| Text.LexTotal | ej_plot_contest/ej_plot_contest.py:300 | any two different strings are ordered one way or the other |
| ProblemNames.Reconcile | ej_plot_contest/ej_plot_contest.py:44-56 | the new full name is the old one when the data knows it, else the label when the data knows it, else the base when the data knows it, else unchanged; it is known to the data iff one of the three spellings is |
| ProblemNames.ReconcileIdempotent | ej_plot_contest/ej_plot_contest.py:44-56 | a second `update_fullname` with the same set changes nothing |
| ProblemNames.ProblemName.constructor | ej_plot_contest/ej_plot_contest.py:25-28 | base as given, label the base without trailing dashes, full name base + suffix |
| ProblemNames.ProblemName.UpdateFullname | ej_plot_contest/ej_plot_contest.py:44-56 | the full name becomes the reconciled name, and it stays one of the three spellings |
| ProblemNames.LabelIsBaseWithoutDashes | ej_plot_contest/ej_plot_contest.py:27 | the label is a prefix of the base, only dashes are cut, and the label does not end in a dash |
| ProblemNames.ReadNames | ej_plot_contest/ej_plot_contest.py:59-62 | one fresh name per whitespace-separated word, in order, with the word as base and word + department as full name |
| ContestData.ExtractGroup | ej_plot_contest/ej_plot_contest.py:351-360 | None iff the login lacks the prefix; otherwise the up to `login_group_len` characters that follow it |
| ContestData.ExtractGroupExamples | ej_plot_contest/ej_plot_contest.py:354-355 | the two docstring cases: `ed95070507` gives `705`, `ejudge` gives None |
| ContestData.Enroll | ej_plot_contest/ej_plot_contest.py:362-370 | the group's login set gains the login, and no other group changes |
| ContestData.EnrollIdempotent | ej_plot_contest/ej_plot_contest.py:367-370 | enrolling an already enrolled login changes nothing |
| ContestData.Count | ej_plot_contest/ej_plot_contest.py:373-380 | the (group, problem) cell goes up by one, an absent cell reading as 0; every other cell stays; no zero cell is ever stored |
| ContestData.RunGroup | ej_plot_contest/ej_plot_contest.py:240-243 | defines the group of a run: the roster entry of the login when there is a non-empty roster (KeyError(login) when it has none), else the `Group` column, else the group inside the login |
| ContestData.Classify | ej_plot_contest/ej_plot_contest.py:233-248 | defines what one run means alone: KeyError for the first missing field or an unlisted login; dropped when the group is None or `0` or the status is another; otherwise login, group, problem and time |
| ContestData.Apply | ej_plot_contest/ej_plot_contest.py:251-266 | defines one loop step on a kept run: enrol it; without a duration count it; with one, `int(time)` (ValueError on a bad time), open the window at the first such run, and count the run iff its time is inside |
| ContestData.Fold | ej_plot_contest/ej_plot_contest.py:228-267 | defines the loop state after the runs in order, from empty `d1`, `total` and window, stopping at the first exception; its meaning is stated by FoldOkIff, FoldTotals, FoldWindow and FoldCounts |
| ContestData.Finish | ej_plot_contest/ej_plot_contest.py:270-285 | defines the sizes: with a roster, its entry count for each configured group; without one, ValueError unless the enrolled groups are the configured ones, else the number of logins of each |
| ContestData.FilterSpec | ej_plot_contest/ej_plot_contest.py:216-285 | defines `fiter_data` as the loop followed by the size computation; its meaning is stated by TotalsFromRoster, TotalsWithoutRoster and CountedGroupsHaveMembers |
| ContestData.FilterData | ej_plot_contest/ej_plot_contest.py:216-285 | the loop over the runs and the size computation give exactly the specification's result, exceptions included |
| ContestData.FoldStep | ej_plot_contest/ej_plot_contest.py:232-266 | one more run updates the state by that run alone |
| ContestData.FoldErrPersists | ej_plot_contest/ej_plot_contest.py:232-266 | an exception on some run is the result of the whole pass |
| ContestData.FoldOkIff | ej_plot_contest/ej_plot_contest.py:233-265 | the pass raises iff some run lacks a field, has a login missing from the roster, or has a non-numeric time where a window applies |
| ContestData.FoldTotals | ej_plot_contest/ej_plot_contest.py:245-251 | `total[g]` is exactly the set of logins of runs with group g and the counted status, and g is a key iff that set is non-empty |
| ContestData.ParticipantsInRoster | ej_plot_contest/ej_plot_contest.py:240-241 | with a roster, every enrolled login is a roster entry of its group |
| ContestData.FoldWindow | ej_plot_contest/ej_plot_contest.py:259-263 | the window exists iff there is a duration and an accepted run; it starts at the time of the first accepted run and ends the duration later |
| ContestData.FoldCounts | ej_plot_contest/ej_plot_contest.py:255-266 | each cell is the number of accepted runs for that group and problem inside the final window (all of them without a duration), and no cell is zero |
| ContestData.WindowIsAnchoredAtFirstAcceptedRun | ej_plot_contest/ej_plot_contest.py:259-266 | with a duration the window is `[t0, t0 + D]` for the first accepted run's time t0, and that run is inside it |
| ContestData.SkippedRunChangesNothing | ej_plot_contest/ej_plot_contest.py:245-248 | a run with no group, group `0` or another status leaves matrix, enrolment and window unchanged |
| ContestData.MissingRosterLoginFails | ej_plot_contest/ej_plot_contest.py:240-241 | with a roster, a run whose login is not in it raises `KeyError(login)` |
| ContestData.TotalsFromRoster | ej_plot_contest/ej_plot_contest.py:271-275 | with a roster, exactly the configured groups get a size, their roster entry count, which bounds their enrolled logins |
| ContestData.TotalsWithoutRoster | ej_plot_contest/ej_plot_contest.py:277-283 | without a roster, the result is a ValueError unless the groups with enrolled logins are exactly the configured ones; then each size is the number of distinct enrolled logins |
| ContestData.SolvesNeedParticipant | ej_plot_contest/ej_plot_contest.py:251-266 | a group with a counted run has an enrolled login |
| ContestData.CountedGroupsHaveMembers | ej_plot_contest/ej_plot_contest.py:270-285 | a group with a matrix row and a size has a positive size |
| ContestTables.ProblemsSeen | ej_plot_contest/ej_plot_contest.py:293-296 | a name is seen iff some group's row holds it |
| ContestTables.CollectProblems | ej_plot_contest/ej_plot_contest.py:294-296 | the loop's union of the group rows' keys is the set of seen names |
| ContestTables.Fullnames | ej_plot_contest/ej_plot_contest.py:150 | the full names of the headers, position by position |
| ContestTables.GetCountedProbs | ej_plot_contest/ej_plot_contest.py:287-307 | empty filter: fresh names, strictly sorted, exactly the seen names; otherwise the configured objects in their order, each full name reconciled against the seen names |
| ContestTables.NewHeaders | ej_plot_contest/ej_plot_contest.py:300 | one fresh suffix-less name per given name, in order |
| ContestTables.UpdateFullnames | ej_plot_contest/ej_plot_contest.py:304-305 | every configured name, even one listed twice, ends reconciled once |
| ContestTables.PercentOf | ej_plot_contest/ej_plot_contest.py:154 | `int(c * 100 / x0)` is the q with `q*x0 <= c*100 < (q+1)*x0` |
| ContestTables.Percentages | ej_plot_contest/ej_plot_contest.py:154 | ZeroDivisionError iff there is a count and x0 is 0; otherwise one whole percentage per count |
| ContestTables.RepeatedRunFirst | ej_plot_contest/ej_plot_contest.py:245-266 | one accepted run enrols its login in its group and counts 1 under its problem |
| ContestTables.RepeatedRunFold | ej_plot_contest/ej_plot_contest.py:245-266 | a second identical run counts 2 but leaves the group's logins at one |
| ContestTables.RepeatedRunData | ej_plot_contest/ej_plot_contest.py:216-285 | so `fiter_data` returns the cell 2 and the group size 1 |
| ContestTables.PercentCanExceedHundred | ej_plot_contest/ej_plot_contest.py:150-154 | percentages are not bounded by 100: a login with two accepted runs of one problem makes `fiter_data` give the cell 2 over a size of 1, and the row shows 200 |
| ContestTables.Assemble | ej_plot_contest/ej_plot_contest.py:153-156 | the row is the size (when asked), the counts, and their percentages (when asked); ZeroDivisionError iff percentages of a non-empty list over 0 |
| ContestTables.GroupCounts | ej_plot_contest/ej_plot_contest.py:150 | one `data[g].get(fullname, 0)` per header |
| ContestTables.GroupRow | ej_plot_contest/ej_plot_contest.py:141-157 | KeyError(g) when headers exist and g has no row, or g has no size; ZeroDivisionError for percentages over size 0; else the row layout over the group's counts |
| ContestTables.DataGroup | ej_plot_contest/ej_plot_contest.py:150-157 | the method that fills the list gives the group row |
| ContestTables.ColumnSums | ej_plot_contest/ej_plot_contest.py:167 | per header, the sum of its cell over all groups |
| ContestTables.AllGroupsRow | ej_plot_contest/ej_plot_contest.py:159-174 | ZeroDivisionError iff percentages are asked for headers and all sizes sum to 0; else the row layout over the column sums and the size sum |
| ContestTables.DataGroupAll | ej_plot_contest/ej_plot_contest.py:167-174 | the method gives the all-groups row |
| ContestTables.ColumnTotals | ej_plot_contest/ej_plot_contest.py:167 | the loop gives the column sums |
| ContestTables.AssembleRow | ej_plot_contest/ej_plot_contest.py:153-156 | `d += pct; d.insert(0, x0)` on the list gives the assembled row |
| ContestTables.SumValues | ej_plot_contest/ej_plot_contest.py:168 | the loop gives `sum(m.values())` |
| ContestTables.GroupRowNeverDividesByZero | ej_plot_contest/ej_plot_contest.py:141-157 | on `fiter_data`'s output, `data_group` can only raise `KeyError(g)` |
| ContestTables.GroupWithinColumn | ej_plot_contest/ej_plot_contest.py:167 | a group's cell never exceeds the column sum |
| ContestTables.SingleGroupAll | ej_plot_contest/ej_plot_contest.py:141-174 | with a single group the all-groups row is that group's row |
| StudentProgress.RunFields | ej_student_progress/count_ejudge_tasks.py:43-45 | the three fields, or KeyError naming the first missing one |
| StudentProgress.FilterAsWritten | ej_student_progress/count_ejudge_tasks.py:42-52 | the function as written returns only on an empty dump |
| StudentProgress.AsWrittenRaisesNameError | ej_student_progress/count_ejudge_tasks.py:46 | a first run with its fields makes it raise NameError on `extract_group` |
| StudentProgress.ProgressFold | ej_student_progress/count_ejudge_tasks.py:40-53 | defines the loop state after the runs: KeyError at the first run without its fields; a run whose login has a group enrols the login, and is counted when its status is the counted one |
| StudentProgress.ProgressSpec | ej_student_progress/count_ejudge_tasks.py:27-58 | defines the corrected `fiter_data`: the loop, then each group's number of distinct logins; its meaning is stated by ProgressOkIff, ProgressMeaning and GroupNumbers |
| StudentProgress.FilterProgress | ej_student_progress/count_ejudge_tasks.py:27-58 | the loop with the group extraction made explicit gives the specification's result |
| StudentProgress.ProgressErrPersists | ej_student_progress/count_ejudge_tasks.py:42-52 | a KeyError on some run is the result of the pass |
| StudentProgress.ProgressOkIff | ej_student_progress/count_ejudge_tasks.py:43-45 | the pass raises iff some run lacks one of its three fields |
| StudentProgress.ProgressMeaning | ej_student_progress/count_ejudge_tasks.py:46-52 | every login with a group is enrolled whatever its status; each cell is the number of runs with the counted status; no zero cell |
| StudentProgress.GroupNumbers | ej_student_progress/count_ejudge_tasks.py:56 | the sizes are the numbers of distinct logins carrying each group |
| StudentProgress.LoginList | ej_student_progress/count_ejudge_tasks.py:79 | `last - first + 1` logins (none for an empty range), the i-th the format of `first + i` |
| StudentProgress.LoginListMembers | ej_student_progress/count_ejudge_tasks.py:79 | a login is listed iff it formats an integer of the range; an injective format lists no login twice |
| StudentProgress.SolvedBy | ej_student_progress/count_ejudge_tasks.py:103-116 | defines, independently of the loop, the set of listed tasks with an OK run of the login |
| StudentProgress.SolvedStep | ej_student_progress/count_ejudge_tasks.py:99-116 | one more run adds at most its own task to its own login |
| StudentProgress.CollectSolved | ej_student_progress/count_ejudge_tasks.py:98-116 | KeyError iff a run lacks a field, and it is the first such run's; otherwise `d.get(login, {})` is the set of listed tasks with an OK run of the login |
| StudentProgress.FillTable | ej_student_progress/count_ejudge_tasks.py:94-120 | header `['login', timestamp]`, then one row per login in list order, holding its number of tasks in d |
| StudentProgress.GetDataFromRuns | ej_student_progress/count_ejudge_tasks.py:82-120 | the same errors; otherwise the header and, per listed login in order, the number of distinct listed tasks it solved; nothing for unlisted logins |
| StudentProgress.RepeatedSolveCountsOnce | ej_student_progress/count_ejudge_tasks.py:113-116 | another OK run of a solved task changes no count |
| StudentProgress.SolvedWithinTasks | ej_student_progress/count_ejudge_tasks.py:106-108 | only listed tasks are ever counted |
| FlatConfig.Index | ej_plot_contest/makeall_2019.py:27 | `v[key]` succeeds iff v is an object with the key; KeyError or TypeError otherwise |
| FlatConfig.Fields | ej_plot_contest/makeall_2019.py:32-34 | only an object can serve as the department level; iterating and indexing any other value raises TypeError (one array case differs, see Left out) |
| FlatConfig.PairOf | ej_plot_contest/makeall_2019.py:37 | defines how `dict.update` reads one element of a non-dict argument: a two-character string or a two-item array with a string key is a pair; another length is `ValueError` with the element's index and length; a number, boolean or null is a TypeError |
| FlatConfig.UpdatePairs | ej_plot_contest/makeall_2019.py:37 | defines the merge of a list argument: pairs in order, a later key overriding an earlier one, the first bad element raising |
| FlatConfig.UpdateArg | ej_plot_contest/makeall_2019.py:37 | defines what `dres.update(v)` merges: a dict's items; the empty string nothing; a non-empty string the ValueError of its first one-character element; an array its pairs; anything else TypeError |
| FlatConfig.UpdatePairsKeys | ej_plot_contest/makeall_2019.py:37 | when every element is a pair the merge succeeds and its keys are exactly the pairs' keys |
| FlatConfig.UpdatePairsLastWins | ej_plot_contest/makeall_2019.py:37 | when every element is a pair each key holds the value of the last pair with that key |
| FlatConfig.UpdatePairsFirstBad | ej_plot_contest/makeall_2019.py:37 | the merge raises the error of the first element that is not a pair |
| FlatConfig.UpdateArgExamples | ej_plot_contest/makeall_2019.py:37 | `["ab", ["k", 1]]` merges `a: "b"` and `k: 1`; `[1]` is a TypeError; `[[1]]` and `"abc"` raise the length ValueError of element 0; `""` merges nothing |
| FlatConfig.DepartmentLevel | ej_plot_contest/makeall_2019.py:21-27 | defines `d1` after the first loop: `d['department'][department]`, the empty dict when there is no `department` key |
| FlatConfig.TopLevel | ej_plot_contest/makeall_2019.py:20-25 | defines what the first loop writes: every top key, `department` replaced by the argument |
| FlatConfig.FlatDict | ej_plot_contest/makeall_2019.py:13-38 | defines `get_flat_dict` as the top level overridden by the department level without `stage`, then `stage` set, then the stage entry merged; its meaning is stated by FlatDictLevels and FlatDictKeepsLowerLevels |
| FlatConfig.GetFlatDict | ej_plot_contest/makeall_2019.py:13-38 | the two loops, the stage assignment and the merge give the specification's result, exceptions included |
| FlatConfig.CopyTopLevel | ej_plot_contest/makeall_2019.py:20-27 | every top key copied, `department` replaced by the argument, and the department entry picked |
| FlatConfig.CopyDepartmentLevel | ej_plot_contest/makeall_2019.py:32-34 | every department key except `stage` overrides the upper value |
| FlatConfig.FlatDictLevels | ej_plot_contest/makeall_2019.py:20-38 | keys are top ∪ (department − {stage}) ∪ {stage} ∪ stage keys; each value comes from the lowest level that has it |
| FlatConfig.FlatDictKeepsLowerLevels | ej_plot_contest/makeall_2019.py:32-37 | every stage and department entry survives unless a lower level has the key; `department` and `stage` are set to the arguments when no lower level overrides them |
| FlatConfig.NoDepartmentKeyFails | ej_plot_contest/makeall_2019.py:21-37 | without `department` the empty d1 makes `d1['stage']` raise KeyError |
| FlatConfig.UnknownDepartmentFails | ej_plot_contest/makeall_2019.py:27 | an unlisted department raises KeyError |
| FlatConfig.UnknownStageFails | ej_plot_contest/makeall_2019.py:37 | an unlisted stage raises KeyError |
| FlatConfig.FlatDictOkHasLevels | ej_plot_contest/makeall_2019.py:104 | every result comes from a config that has both levels and a stage entry that `dict.update` accepts, and is the upper levels overridden by what that entry merges; so the result is never None |
| FlatConfig.StringStageEntry | ej_plot_contest/makeall_2019.py:37 | a string stage entry merges nothing when empty and raises the length ValueError of element 0 otherwise |
| SemestrMarks.Departments | semestr/plot_semestr_data.py:41 | the first row's columns other than the mark column |
| SemestrMarks.HasBadCell | semestr/plot_semestr_data.py:44-47 | defines a row the inner loop fails on: a non-mark cell under an unknown department (KeyError) or not a number (ValueError) |
| SemestrMarks.RowUpdate | semestr/plot_semestr_data.py:43-47 | defines one pass of the outer loop: KeyError without a mark, failure on a bad cell, otherwise every non-mark cell stored under its department and the row's mark |
| SemestrMarks.PivotUpTo | semestr/plot_semestr_data.py:41-47 | defines the pivot after the first k rows: the first row's non-mark columns with empty dicts, then one pass per later row, stopping at the first exception |
| SemestrMarks.ProcessSpec | semestr/plot_semestr_data.py:38-49 | defines `process_data` on the parsed rows: an empty file fails at `data[0]` (IndexError, here NoRows); otherwise the pivot over all rows; its meaning is stated by PivotOkIff, PivotKeys and PivotCells |
| SemestrMarks.ProcessData | semestr/plot_semestr_data.py:41-47 | the comprehension and the loops give the specification's result |
| SemestrMarks.ApplyRow | semestr/plot_semestr_data.py:43-47 | KeyError for a row without a mark; a bad cell fails the row; otherwise every cell is stored under its department and the row's mark |
| SemestrMarks.StoreCells | semestr/plot_semestr_data.py:44-47 | the inner loop fails iff a cell names an unknown department or is not a number, and otherwise stores every cell |
| SemestrMarks.NoBadCell | semestr/plot_semestr_data.py:44-47 | a row whose every cell passes has no bad cell |
| SemestrMarks.PivotErrPersists | semestr/plot_semestr_data.py:42-47 | an exception on some row is the result |
| SemestrMarks.PivotKeys | semestr/plot_semestr_data.py:41 | the departments are exactly the first row's non-mark columns, never the mark column |
| SemestrMarks.LastWith | semestr/plot_semestr_data.py:42-47 | the last contributing row with a given mark and department |
| SemestrMarks.PivotCells | semestr/plot_semestr_data.py:42-47 | a mark is under a department iff a contributing row has that mark and the column; the value is the number in the last such row |
| SemestrMarks.PivotOkIff | semestr/plot_semestr_data.py:41-47 | succeeds iff every later row has a mark and only number cells under known departments |
| SemestrMarks.FirstRowCellsIgnored | semestr/plot_semestr_data.py:41-42 | only the first row's column names matter, not its cells |

## Findings

| source | as written | input that shows it | evidently intended | confidence | as-written member | corrected member |
|---|---|---|---|---|---|---|
| ej_student_progress/count_ejudge_tasks.py:46 | `fiter_data` calls `extract_group(login, prefix, group_name_len)` and later `enroll` and `count`; none of these names is defined or imported in the file | any run list whose first run has `User_Login`, `Prob` and `Stat_Short` raises NameError | extract the group by prefix and length as ej_plot_contest does, enrol every run with a group, count the runs with the counted status | not executed | StudentProgress.AsWrittenRaisesNameError | StudentProgress.ProgressMeaning |

## Left out

- File reading, CSV and JSON parsing, writing CSV, the command line, logging and printing: the model takes parsed rows and parsed JSON values.
- Plotting and HTML templating.
- Timestamps are integer seconds. The contest end from `datetime.fromtimestamp(start) + duration` is taken as `start + duration`. Local-time effects are not modelled, and neither is parsing `hh:mm` into a duration.
- ContestTables.PercentOf: `int(x * 100 / x0)` goes through a float. The model uses exact floor division, which can differ from the float result for very large counts.
- Text.ParseInt: `int()` also accepts surrounding whitespace, underscores between digits and non-ASCII digits. The model accepts an optional sign and ASCII digits only.
- ContestData.ExtractGroup: `login_group_len` is a natural number. Python also accepts a negative length, and `login[n:n+L]` then counts the end from the back of the login; the model does not cover that configuration.
- ContestData.Finish: the ValueError text differs from the source's message, which lists both group collections.
- The roster file is read by `get_login_list`, which is not part of this model. The roster is an optional map parameter.
- StudentProgress.LoginList: `login_format.format(x)` is a function parameter. Distinct logins are proved only for an injective format.
- `get_data_from_standing` is called at count_ejudge_tasks.py:175 but defined in no file; it is not part of this model.
- FlatConfig.PairOf: two kinds of list element that `dres.update` accepts are reported as TypeError. One is a two-item array whose key is a number, boolean or null, because the model's dicts have string keys only. The other is a two-key object, because the model does not keep key order and the source takes the first key as the pair's key and the second as its value. The ValueError text follows CPython's message.
- FlatConfig.GetFlatDict: JSON floats are not modelled; numbers are integers. When `dres.update` raises part-way through a list, the pairs before the bad element are already written, but the exception ends `get_flat_dict`, so nothing observable differs.
- FlatConfig.Fields: a department entry that is a JSON array holding an integer or a boolean reaches `d1[st]` at makeall_2019.py:34 as a list index. When that index is out of range the source raises IndexError, and the model reports TypeError. When it is in range the source stores `dres[i] = d1[i]` under a non-string key, which the model's string-keyed dicts cannot hold, and then raises TypeError at `d1['stage']`, as the model does. Every other non-object department entry (a string, a number, null, another array) raises TypeError in the source as in the model.
- Dictionary insertion order is not modelled: maps and sets are unordered. Results that depend only on contents are unaffected. In `process_data` the first failing cell of a row depends on that order, so the error names only the row (`BadCell(row)`). Whether it would be KeyError or ValueError is not kept.
- The `ProblemName` field `label` is called `display`, because `label` is a Dafny keyword.
- ContestTables.AllGroupsRow and ContestTables.ColumnSums are ghost, because the sum over map values picks keys in an arbitrary order. ContestTables.DataGroupAll computes the same row in executable code.
