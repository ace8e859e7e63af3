# Build retention and Dockerfile interpreter of docker-lineage-cicd, in Dafny

This project models two small tools that sit around the LineageOS-for-microG
build container.

* **The retention cleaner** is `clean_path` in `src/clean_up.py`, driven by
  `main` with `-n` defaulting to 3 (`CleanUp.DefaultBuildsToKeep`). It works in
  four steps:
  1. It lists every file under a directory.
  2. It keeps those whose basename matches the artefact pattern
     `lineage-[\d,.]+-[\d]+-[\w]+-[\w]+[.,\w]+`.
  3. It finds the build name `lineage-<version>-<date>-<kind>-<codename>` in
     each of them and groups the files by codename, then by build name.
  4. In every codename it sorts the builds by date and deletes the files of all
     but the `n` newest.
* **The Dockerfile interpreter** is `run.py`. `get_docker_cmd` joins the
  continuation lines of a Dockerfile into commands. `main` seeds an environment
  with `PREFIX`, `HOME` and the `--env KEY=VALUE` arguments. It then acts on
  `ENV`, `RUN mkdir`, `COPY`, `WORKDIR` and `ENTRYPOINT`.

The files:

* `wrappers.dfy` holds `Option` and `Result`.
* `seqs.dfy` holds generic sequence facts and `Filter`.
* `text.dfy` holds the pieces of Python's `str` the code relies on:
  * `strip`, `lstrip` and `rstrip` with a character set;
  * `split(sep)` and `split(maxsplit=...)`;
  * `join`, `startswith` and `endswith`.
* `build_names.dfy` recognises the two regular expressions. It also models
  `re.search` over a whole path, `os.path.basename`, and
  `datetime.strptime(token, "%Y%m%d")`, which follows CPython's own
  regular-expression alternatives for `%Y`, `%m` and `%d` plus its calendar
  check.
* `cohorts.dfy` models the two-level dictionary, the stable date sort and the
  eviction slice.
* `clean_up.dfy` models `clean_path` and `main` of the cleaner:
  * the filesystem is a `FileStore` class holding a set of paths;
  * the deletion loops are methods proved against the functional `CleanSpec`.
* `dockerfile.dfy` models `get_docker_cmd`. `DockerCommands` is a loop proved
  against the fold `ReadLines`.
* `runner.dfy` models `main` of `run.py`. `Interpret` is its loop, proved
  against `Run`.

Python exceptions are modelled as values:
* `Outcome` in the cleaner: `IndexError` on an empty path, `AttributeError`
  when no build name is found, `IndexError` on a missing token, `ValueError`
  from `strptime`, and a missing file in `os.remove`;
* `Fault` in the interpreter: `ValueError` from the `--env` unpacking or from
  an empty command, and `IndexError` on a missing operand.

An exception ends a run. Whatever was removed or issued before it stays done.

The source's `build_re.search(f)` (src/clean_up.py line 38) runs over the whole
path, not the basename. The model keeps that:
* `BuildNames.SearchFrom` finds the leftmost match;
* `BuildNames.SearchInBasename` says when the match is the basename's own name.

Build names hold no `/`, so `split("/")[-1]` on line 39 returns the name
unchanged (`BuildNames.NameWhole`).

## Model

| member | source | states |
|---|---|---|
| `BuildNames.RunEnd` | src/clean_up.py:34 | a greedy `+` over a character class: every character before the end is in the class, the one at the end is not |
| `BuildNames.Field` | src/clean_up.py:34 | a recognised `<class>+-` field is non-empty, made of the class and closed by `-` |
| `BuildNames.Head` | src/clean_up.py:32-34 | the head `lineage-V-D-T-` shared by both patterns: its fields are non-empty and in order |
| `BuildNames.BuildMatch` | src/clean_up.py:34 | `build_re.match`: a match is a well-formed build name that starts the string and is not followed by a word character |
| `BuildNames.MatchOfFields` | src/clean_up.py:34 | any text laid out as `lineage-V-D-T-C` and not continued by a word character matches with exactly those parts |
| `BuildNames.HeadOfName` | src/clean_up.py:34 | the head of a build name sits where its parts say |
| `BuildNames.NameMatches` | src/clean_up.py:34 | round trip: a well-formed build name followed by a non-word character is recognised as itself |
| `BuildNames.NameTokens` | src/clean_up.py:39-41 | `split("-")` of a build name gives `lineage`, the version, the date, the kind and the codename, so token 4 is the codename and token 2 the date |
| `BuildNames.NameWhole` | src/clean_up.py:39 | a build name holds no `/`, so `split("/")[-1]` returns it unchanged |
| `BuildNames.FileMatchBuild` | src/clean_up.py:32-38 | a basename the file pattern accepts starts with a build name |
| `BuildNames.FileMatchShape` | src/clean_up.py:32-33 | the file pattern accepts a build name exactly when `.` or `,` follows it, or its codename has at least two characters |
| `BuildNames.Basename` | src/clean_up.py:33 | `basename` is the suffix after the last `/` and holds no `/` |
| `BuildNames.SearchFrom` | src/clean_up.py:38 | `search` finds the leftmost position where a build name starts, and `None` only when none starts anywhere |
| `BuildNames.SelectedFound` | src/clean_up.py:33-38 | on a selected path `search` finds a name no later than the basename, so `.group(0)` cannot fail |
| `BuildNames.SearchInBasename` | src/clean_up.py:38 | when no build name starts in the directory part, `search` finds the basename's name |
| `BuildNames.DaysInMonth` | src/clean_up.py:41 | every month has 28 to 31 days |
| `BuildNames.MonthChoices` | src/clean_up.py:41 | the `%m` alternatives are months 1 to 12 of one or two characters inside the token |
| `BuildNames.DayChoice` | src/clean_up.py:41 | the chosen `%d` alternative is a day 1 to 31 of one or two characters inside the token |
| `BuildNames.FirstWithDay` | src/clean_up.py:41 | the month chosen is one of the alternatives and a day alternative matches right after it |
| `BuildNames.ParseDate` | src/clean_up.py:41 | an accepted token is 6 to 8 characters and gives a calendar date key `y*10000+m*100+d` |
| `BuildNames.EightDigitDate` | src/clean_up.py:41 | on eight digits `strptime` accepts exactly the calendar dates from year 1, and the key is the digits read as a number |
| `BuildNames.ShortDates` | src/clean_up.py:41 | on shorter tokens `%m` backtracks: `202311` reads as 1 January 2023, `2023111` as 1 November 2023 |
| `Cohorts.FindCohort` | src/clean_up.py:43 | the position of a codename is its first occurrence, or the length when it is absent |
| `Cohorts.FindBuild` | src/clean_up.py:45 | the position of a build name is its first occurrence, or the length when it is absent |
| `Cohorts.AddToBuilds` | src/clean_up.py:45-48 | the inner update either keeps the number of builds or appends `(date, [path])` |
| `Cohorts.AddEntry` | src/clean_up.py:43-48 | the outer update either keeps the number of codenames or appends a new codename with one build |
| `Cohorts.LookupAdd` | src/clean_up.py:43-48 | after one update, a new key pair holds `(date, [path])`, a known one has the path appended, and every other lookup is unchanged |
| `Cohorts.GroupLookup` | src/clean_up.py:37-48 | `builds[c][n]` holds the paths of exactly the files of codename `c` and build name `n`, in order, with the first one's date; it is absent when there are none; the version plays no part |
| `Cohorts.AddToBuildsDistinct` | src/clean_up.py:45-48 | the inner update keeps build names distinct and path lists non-empty |
| `Cohorts.AddEntryValid` | src/clean_up.py:43-48 | the outer update keeps both dictionaries' keys distinct |
| `Cohorts.GroupValid` | src/clean_up.py:37-48 | the grouping loop ends with distinct keys at both levels and non-empty path lists |
| `Cohorts.LookupValid` | src/clean_up.py:43-48 | every build of the grouping is what a lookup of its keys finds |
| `Cohorts.AddBuildPaths` | src/clean_up.py:45-48 | the inner update adds exactly one occurrence of the new path |
| `Cohorts.AddEntryPaths` | src/clean_up.py:43-48 | the outer update adds exactly one occurrence of the new path |
| `Cohorts.GroupPaths` | src/clean_up.py:37-48 | the grouping loses no file and counts none twice: the multiset of grouped paths is the multiset of input paths |
| `Cohorts.Insert` | src/clean_up.py:52 | one insertion step of the sort adds exactly the new build |
| `Cohorts.InsertSorted` | src/clean_up.py:52 | insertion keeps a date-sorted list sorted |
| `Cohorts.SortByDate` | src/clean_up.py:52 | `sort(key=date)` gives a date-sorted permutation of the builds |
| `Cohorts.InsertWithDate` | src/clean_up.py:52 | insertion puts the new build behind the builds of its date |
| `Cohorts.SortStable` | src/clean_up.py:52 | the sort is stable: builds of one date keep their relative order |
| `Cohorts.SortPaths` | src/clean_up.py:52 | sorting keeps every path of the codename |
| `Cohorts.EvictCount` | src/clean_up.py:53-55 | `build_list[0:n-k]` under `n > k` leaves `min(n, max(k, 0))` builds |
| `Cohorts.Evicted` | src/clean_up.py:54-55 | the deleted builds are a prefix of the sorted list that leaves `min(n, max(k, 0))` builds |
| `Cohorts.Kept` | src/clean_up.py:54-55 | the surviving builds are the rest of the sorted list, `min(n, max(k, 0))` of them |
| `Cohorts.OldestFirst` | src/clean_up.py:52-55 | no deleted build is newer than a surviving one |
| `Cohorts.SmallGroupUntouched` | src/clean_up.py:54 | a codename with at most `k` builds loses none |
| `Cohorts.KeepNone` | src/clean_up.py:54-55 | with `k <= 0` every build of a codename is deleted |
| `Cohorts.CohortDoomedWithin` | src/clean_up.py:51-56 | one codename's deletions are among its own paths, each at most as often as it occurs |
| `Cohorts.DoomedWithin` | src/clean_up.py:50-56 | the eviction loop deletes only grouped paths, each at most as often as it was grouped |
| `Cohorts.EvictedEntryDoomed` | src/clean_up.py:50-56 | every file of a deleted build is deleted |
| `Cohorts.DoomedBuild` | src/clean_up.py:55-56 | a deleted path lies in a deleted build of some codename |
| `Cohorts.DoomedEntryEvicted` | src/clean_up.py:50-56 | a deleted file belongs to a deleted build |
| `Cohorts.DoomedEntries` | src/clean_up.py:50-56 | a file is deleted exactly when its build is among the deleted builds of its codename |
| `Cohorts.KeepNoneEvicts` | src/clean_up.py:54-56 | with `k <= 0` the build of every file is deleted |
| `Cohorts.SurvivorKept` | src/clean_up.py:50-56 | a file whose build is not deleted names one of the kept builds of its codename |
| `Cohorts.SurvivorGroupSmall` | src/clean_up.py:50-56 | regrouping the surviving files gives at most `max(k, 0)` builds per codename |
| `Cohorts.SmallGroupsIdle` | src/clean_up.py:54 | codenames with at most `max(k, 0)` builds lose nothing |
| `Cohorts.SecondRunIdle` | src/clean_up.py:37-56 | regrouping surviving files and evicting again deletes nothing |
| `CleanUp.ScanDir` | src/clean_up.py:29 | the scan directory fails exactly on an empty path and drops at most one trailing `/` |
| `CleanUp.InDir` | src/clean_up.py:31 | the file names of one directory joined to it with `/`, in order |
| `CleanUp.ListWalk` | src/clean_up.py:30-31 | the walk loop builds the listing of all walk steps in order |
| `CleanUp.Selection` | src/clean_up.py:32-33 | the build files are exactly the listed files whose basename the file pattern accepts |
| `CleanUp.SelectionDistinct` | src/clean_up.py:33 | selecting from a listing without repeats gives no repeats |
| `CleanUp.ScanFile` | src/clean_up.py:38-42 | a scanned file gives an entry with its own path and a valid date key; a failure is a scan error naming that file |
| `CleanUp.ScanName` | src/clean_up.py:39-42 | the entry carries the build name found; a failure is a scan error naming that file |
| `CleanUp.ScanWellFormed` | src/clean_up.py:39-41 | for a well-formed name the entry has the name's codename and its date token's date, or the scan fails on that date |
| `CleanUp.ScanSelected` | src/clean_up.py:38-42 | a selected file fails only on its date; otherwise its entry has the codename and date of the name `search` finds |
| `CleanUp.ScanAll` | src/clean_up.py:37-42 | the entries keep the files' order and paths; a failure is a scan error for one of the files |
| `CleanUp.ScanAllPrefix` | src/clean_up.py:37-41 | once a file fails, later files change nothing |
| `CleanUp.ScanAllFails` | src/clean_up.py:37-41 | any one failing file makes the grouping loop fail |
| `CleanUp.GroupFiles` | src/clean_up.py:37-48 | the grouping loop returns the grouping of all entries, or the first file's failure |
| `CleanUp.RemoveEach` | src/clean_up.py:56 | removals only take files away, never one outside the list, and a failure names a listed path |
| `CleanUp.RemoveEachAppend` | src/clean_up.py:55-56 | removing two lists in turn is removing their concatenation |
| `CleanUp.RemoveEachOk` | src/clean_up.py:56 | removing distinct present paths succeeds and removes exactly them |
| `CleanUp.RemoveEachStops` | src/clean_up.py:56 | after a failing removal nothing more is removed |
| `CleanUp.DoomedAppend` | src/clean_up.py:50-56 | the deletions of two runs of codenames are the concatenation of their deletions |
| `CleanUp.FileStore.Remove` | src/clean_up.py:56 | `os.remove` takes the path out and reports whether it was there |
| `CleanUp.FileStore.RemoveAll` | src/clean_up.py:56 | `list(map(remove, paths))` leaves the files and outcome of `RemoveEach` |
| `CleanUp.FileStore.EvictCohort` | src/clean_up.py:51-56 | one codename's pass removes its doomed files in order |
| `CleanUp.FileStore.Evict` | src/clean_up.py:50-56 | the eviction loop removes every codename's doomed files in order |
| `CleanUp.FileStore.CleanPath` | src/clean_up.py:27-56 | `clean_path` leaves the files and outcome of `CleanSpec` |
| `CleanUp.FileStore.CleanPaths` | src/clean_up.py:66-67 | `main`'s loop cleans the paths in turn and stops at the first exception |
| `CleanUp.DoomedSelected` | src/clean_up.py:33-56 | only selected files of the walk are ever removed |
| `CleanUp.UnselectedKept` | src/clean_up.py:32-33 | a file the file pattern rejects is never removed, and a run only ever removes files |
| `CleanUp.FailedScanRemovesNothing` | src/clean_up.py:37-41 | when the grouping loop fails, no file is removed and the run fails |
| `CleanUp.ScanFailureRemovesNothing` | src/clean_up.py:37-41 | one selected file whose scan fails makes the whole run remove nothing |
| `CleanUp.BadDateRemovesNothing` | src/clean_up.py:41 | one selected file with an impossible date makes the whole run remove nothing |
| `CleanUp.CleanRemovesEvicted` | src/clean_up.py:27-56 | a run over an existing listing without repeats removes exactly the doomed files and ends normally; a file survives exactly when its build is kept |
| `CleanUp.KeepNoneRemovesAll` | src/clean_up.py:54-56 | with `k <= 0` every selected file is removed |
| `CleanUp.SelectionKeep` | src/clean_up.py:32-33 | selecting the surviving files is the same as keeping the surviving selected files |
| `CleanUp.ScanAllKeep` | src/clean_up.py:37-42 | scanning the surviving files gives the surviving entries |
| `CleanUp.SecondRunRemovesNothing` | src/clean_up.py:27-56 | idempotence: a second run with the same `k` over what the first left removes nothing and ends normally |
| `CleanUp.CleanAllStops` | src/clean_up.py:66-67 | after a failed path, later paths change nothing |
| `Text.Span` | run.py:123 | the length of the longest prefix inside a character set |
| `Text.TrimStart` | run.py:123 | `lstrip(chars)` drops exactly the leading characters of the set |
| `Text.TrimEnd` | run.py:43 | `rstrip(chars)` drops exactly the trailing characters of the set |
| `Text.StripBy` | run.py:108 | `strip(chars)` is a slice of the string between a leading and a trailing run of set characters; it is empty exactly when every character is in the set, and otherwise neither end is in it |
| `Text.StripAround` | run.py:108 | stripping a text whose ends are not in the set, with any set characters around it, gives that text back |
| `Text.Split` | run.py:100 | `split(sep)` gives at least one piece and no piece holds the separator |
| `Text.SplitJoin` | run.py:100 | splitting what was joined gives the pieces back |
| `Text.JoinSplit` | run.py:100 | joining the pieces of a split gives the string back |
| `Text.SplitCount` | run.py:100 | `split(sep)` has one more piece than the string has separators |
| `Text.SplitWhitespace` | run.py:105 | `split(maxsplit=m)` gives at most `m + 1` fields, each non-empty and not starting with whitespace |
| `Text.SplitWhitespaceBlank` | run.py:105 | the split gives no field exactly when the string is blank |
| `Text.SplitWhitespaceCons` | run.py:105 | with splits left, the first field is the first word after the leading whitespace, and the rest is split with one split fewer |
| `Text.SplitWhitespaceLast` | run.py:105 | with no split left, the field is the whole rest after the leading whitespace, inner and trailing whitespace included |
| `Text.SplitWhitespaceWords` | run.py:105 | for any string laid out as whitespace, words and a final rest, the fields are its words in order, followed by the rest when the split count runs out |
| `Text.SplitTwoWords` | run.py:105 | two words between whitespace split into exactly those two words |
| `Text.SplitThreeFields` | run.py:105 | two words and a rest split with `maxsplit=2` into the two words and the rest as written |
| `Dockerfile.LineEnd` | run.py:37 | a line ends just after its first newline or at the end of the text |
| `Dockerfile.FileLines` | run.py:37 | the lines of the file give the text back, each non-empty with a newline only at its end, and all but the last end in a newline |
| `Dockerfile.DockerCommands` | run.py:33-46 | the reading loop yields what the fold of `Feed` over the lines yields |
| `Dockerfile.FeedKeepsCommands` | run.py:38-43 | a skipped or continuation line yields no command |
| `Dockerfile.CommandCount` | run.py:37-46 | one command per line that is neither skipped nor a continuation |
| `Dockerfile.Significant` | run.py:38-40 | the lines that are neither comments nor blank |
| `Dockerfile.SkippedLinesIgnored` | run.py:38-40 | dropping every comment and blank line gives the same state, even inside a continued command |
| `Dockerfile.TrailingContinuationDropped` | run.py:41-46 | continuation lines at the end of the file yield nothing: their pending text is dropped |
| `Dockerfile.FeedTrimmed` | run.py:41-45 | each line keeps the pending text and every command free of leading whitespace, and commands free of trailing whitespace |
| `Dockerfile.CommandsTrimmed` | run.py:41-45 | every command yielded is non-empty and starts and ends with a non-space character |
| `Runner.Seed` | run.py:96-98 | the environment starts with exactly `PREFIX`, the absolute prefix, and `HOME`, taken from the process environment or `/` |
| `Runner.EnvArgCount` | run.py:99-101 | a `--env` argument unpacks exactly when it holds one `=` |
| `Runner.EnvArgJoin` | run.py:100 | `KEY=VALUE` unpacks back to the key and the value when neither holds `=` |
| `Runner.EnvArgSplit` | run.py:100 | an argument that unpacks is its key, `=` and its value |
| `Runner.AddEnvArgs` | run.py:99-101 | the `--env` loop fails only with a `ValueError` on one of its arguments |
| `Runner.AddEnvArgsOk` | run.py:99-101 | the `--env` loop succeeds exactly when every argument holds one `=` |
| `Runner.LastArgWins` | run.py:99-101 | the last argument naming a key gives that key its value |
| `Runner.SeedKept` | run.py:96-101 | a seeded key that no argument names keeps its seeded value |
| `Runner.EnvValue` | run.py:108-110 | for a `_DIR` key the stored value is the stripped value under the prefix; for any other key it is the raw value stripped of quotes at both ends: empty exactly when the raw value is all quotes, and otherwise neither starting nor ending with a quote |
| `Runner.QuotedValue` | run.py:108-110 | a value written with quotes around it is stored without them, and made absolute under the prefix for a `_DIR` key |
| `Runner.WorkdirReference` | run.py:121-123 | `WORKDIR KEY` or `WORKDIR $KEY` (any number of `$`) selects the value of a set key `KEY` |
| `Runner.WorkdirLiteral` | run.py:121-123 | a `WORKDIR` path whose name without leading `$`s is no set key is taken literally, `$`s included |
| `Runner.EnvLine` | run.py:105-111 | `ENV KEY VALUE` for a key not yet set stores the stored form of the rest of the line under `KEY` and changes nothing else |
| `Runner.WorkdirLine` | run.py:121-123 | `WORKDIR ARG` sets the working directory to what `ARG` selects and changes nothing else |
| `Runner.StepExtends` | run.py:104-134 | a command never drops or changes a key already set, keeps every earlier action and adds at most one |
| `Runner.StepFrame` | run.py:104-134 | only `ENV` changes the environment, only `WORKDIR` the working directory, and only `RUN`, `COPY` and `ENTRYPOINT` issue actions |
| `Runner.EnvOnce` | run.py:106-111 | an `ENV` line has no effect the second time |
| `Runner.ExecStops` | run.py:104-134 | a command that raises ends the loop |
| `Runner.ExecExtends` | run.py:104-134 | over the loop the environment only gains keys, and actions are only appended, at most one per command |
| `Runner.ExecNoEmptyCommand` | run.py:104-105 | commands that all have a field never stop the loop on an empty command |
| `Runner.CommandsHaveFields` | run.py:41-45 | every command the reader yields has a first field |
| `Runner.RunNoEmptyCommand` | run.py:104-105 | `main` never fails on unpacking a command |
| `Runner.RunKeepsArgs` | run.py:96-111 | `PREFIX`, `HOME` and the `--env` values win over the Dockerfile's `ENV` lines: they are unchanged at the end |
| `Runner.StepCarries` | run.py:104-134 | a command that succeeds keeps a set key at its value in the environment and in the environment of every process started |
| `Runner.ExecCarries` | run.py:104-134 | the dispatch loop keeps a set key at its value in the environment and in every started process's environment |
| `Runner.ArgValueFinal` | run.py:99-134 | the last `--env KEY=VALUE` for a key is its value in the final environment and in the environment of every `RUN mkdir` shell and `ENTRYPOINT` build process |
| `Runner.Interpret` | run.py:96-134 | the seeding and dispatch loops end as `Run` says: the first fault with the state reached before it, or the final environment, working directory and actions |

## Left out

- Input and output are left out. This covers reading the Dockerfile (the text is a parameter), `os.walk` (its steps are a parameter), `subprocess.Popen`, `shutil.rmtree` and `shutil.copytree`. The processes and copies are recorded as `Runner.Action` values. Their own failures, such as a missing copy source or an error inside a process, are not modelled.
- `Path.absolute()` depends on the process's working directory, so it is the parameter `Context.absolute`. `with_prefix` is that function applied to the string concatenation of the prefix and the path.
- Python's universal-newline translation on reading is not modelled. The text is taken as the lines `for line in f` would see.
- `str.isspace`, `\w` and `\d` cover ASCII only. Unicode letters, digits and spaces are not recognised.
- Argument parsing and logging (`argparse`, `--verbose`, `logging.basicConfig`, the log lines before `ENTRYPOINT`) are left out.
- `-n` given without a value makes `builds_to_keep` `None`, and `n_builds > None` then raises `TypeError`. The model takes an integer `k`.
- `os.remove` is modelled as failing only for a missing file. Failures from permissions or directories are not modelled.
- `Cohorts.SortByDate`: `list.sort` is modelled as a functional stable insertion sort on a sequence, not as an in-place sort of a list.
- `clean_path` builds its `files` list and dictionaries on the stack, so the model gives values rather than objects for them. `FileStore` is the only state that survives a call.
- `Runner.Interpret` reads all commands before dispatching any. The generator in the source is lazy. Both orders give the same actions, because a read error is not modelled.
