# BannedFiles: a Dafny model of the NZBGet banned-extension hook

`BannedFiles.py` is an NZBGet queue and post-processing script. NZBGet starts
it once per event with the download's context in environment variables. The
script:

- flags a download whose directory holds a regular file with a banned
  extension (`[NZB] MARK=BAD`);
- when an NZB is added, asks NZBGet to download the highest-numbered
  split-archive volume first (`FileMoveTop`);
- in post-processing, removes the stale marker files in
  `<NZBOP_TEMPDIR>/BannedFiles`.

The model treats one invocation as a function from what the host provides
(the environment, the file system, the response lines of the `listgroups`
and `listfiles` queries) to what the run does. That result is a `Run`: the
texts passed to `print` (one element per call, see "## Left out"), the
remote-control calls in order, the
marker paths whose removal was attempted, and the exit (`sys.exit(code)`,
or `Crash` for an uncaught Python exception). The loops of the script are
methods, each proved equal to the function that specifies it:

- `detectBannedFile`: `BannedExtensions.DetectBannedFile`;
- the loop of `sort_inner_files`: `VolumeSort.SortInnerFiles`;
- the NZBID loop of `cleanUp`: `Housekeeping.CollectLiveIds`;
- the removal loop of `cleanUp`: `Housekeeping.RemoveMarkers`;
- all of `cleanUp`: `Housekeeping.CleanUp`.

The specifying functions are what the properties are stated about. The
script's other functions, and the pieces of its loops, are functions:

- `startCheck`: `Hook.StartCheck`;
- `main`: `Hook.Dispatch` past the gate, `Hook.Main` for the whole body, and
  `Hook.Hook` with the real sorting and cleanup;
- `sort_inner_files`: `Hook.SortStep`, with `Hook.SortAfterQuery` after the
  `listfiles` query and `VolumeSort.Selected` for its loop;
- the two regular expressions of `sort_inner_files`: `VolumeSort.Capture` for
  each and `VolumeSort.VolumeNumber` for `regex1 or regex2`;
- the running maximum: `VolumeSort.Offer` for one candidate and
  `VolumeSort.Advance` for one response line;
- `cleanUp`: `Housekeeping.CleanUpStep`, with `Housekeeping.LiveIds`,
  `Housekeeping.Doomed` and `Housekeeping.RemovalLog` for its parts;
- `detectBannedFile`: `BannedExtensions.FirstBanned`, with the test at line
  166 as `BannedExtensions.IsBanned`;
- `int()`, `str()` and `'%i' %`: `PyText.ParseInt`, `PyText.NatToDecimal`
  and `PyText.IntToDecimal`.

Files, one module each:

- `wrappers.dfy`: `Option`.
- `pytext.dfy`: the Python built-ins the script relies on: `str.replace`,
  `str.split`/`join`, `startswith`, clamped slicing, `os.path.splitext`,
  `int()`, `str()` and ASCII case folding.
- `hostio.dfy`: the file system as a value, the recorded effects, and exit codes 93, 94 and 95.
- `extensions.dfy`: the option parse at line 53 and `detectBannedFile`.
- `volumes.dfy`: `sort_inner_files`: the two volume patterns, the response
  parser and the running maximum.
- `housekeeping.dfy`: `cleanUp`.
- `hook.dfy`: `startCheck`, `main` and the whole-run properties.

Four behaviours of the code that a reader might expect otherwise, and that the model keeps:

- Extensions are compared exactly, so matching is case-sensitive: `README.NFO` is not caught by `.nfo`.
- An unset or empty `BannedExtensions` option does not mean "never flag". It
  yields the list `[""]`, which flags every regular file without an
  extension (`README`, or `.nfo` alone). A trailing comma does the same.
- `cleanUp` with at most one marker does not query NZBGet, and it removes
  that marker: the live list is then empty.
- The current download's marker is removed whenever it exists, whether or not its NZBID is still live.

These parts of the program raise Python exceptions, and the model turns each
into `Crash`, keeping the output printed before it:

- a missing `os.environ[...]` key, including the four `NZBOP_CONTROL*` keys
  that `callNzbget` and `connectNzbget` read;
- `int()` on malformed text, or on the unset `NZBNA_NZBID`;
- `cur_id` read before any `"ID"` line;
- `os.listdir` of a missing directory;
- a string joined with an unset variable (`NZBPR_PPSTATUS_BANNEDFILE` at line 77, `NZBOP_TEMPDIR` at line 94).

The process NZBGet sees then ends with exit status 1 (`HostIo.ExitStatus`), the
same status an incompatible caller gets from `sys.exit(1)`.

## Model

| member | source | states |
|---|---|---|
| BannedExtensions.ParseBannedExtensions | BannedFiles.py:53 | the list has at least one piece, no piece holds a space or a comma, and joining the pieces with commas gives back the option with its spaces removed |
| BannedExtensions.ParsedPieces | BannedFiles.py:53 | any comma-free pieces whose join is the space-free option are exactly the list parsed from it |
| BannedExtensions.UnsetOptionBansEmptyExtension | BannedFiles.py:53 | an unset or empty option gives the list `[""]` |
| BannedExtensions.TrailingCommaBansEmptyExtension | BannedFiles.py:53 | a trailing comma appends the empty extension to the list |
| PyText.SplitJoin | BannedFiles.py:53 | `split` inverts `join` for separator-free pieces |
| PyText.RemoveAllKeeps | BannedFiles.py:53 | removing spaces keeps every other character with its multiplicity, and leaves a space-free text unchanged |
| PyText.RemoveAllAppend | BannedFiles.py:53 | removing a character distributes over concatenation |
| PyText.Splitext | BannedFiles.py:166 | root and extension concatenate back to the name; a nonempty extension is a final dot suffix of the last path component with a non-dot character before it; an empty one means no such suffix exists |
| BannedExtensions.FirstBanned | BannedFiles.py:163-170 | none exactly when no regular file has a listed extension; otherwise the name of a regular file with a listed extension with no such entry before it |
| BannedExtensions.DetectBannedFile | BannedFiles.py:163-170 | the loop with its early return finds `FirstBanned` of the listing, and prints the two found lines exactly on a match, with that name |
| BannedExtensions.DotlessFileIsBanned | BannedFiles.py:166 | with `""` in the list, a regular file without a dot is banned |
| BannedExtensions.HiddenFileHasNoExtension | BannedFiles.py:166 | a name such as `.nfo` (one leading dot, no further dot) has the empty extension |
| BannedExtensions.MatchingIsCaseSensitive | BannedFiles.py:166 | `README.NFO` is not banned by `[".nfo"]` |
| BannedExtensions.ExtensionOf | BannedFiles.py:166 | a stem with a non-dot character followed by a dot suffix has that suffix as its extension |
| PyText.ParseIntOfDecimal | BannedFiles.py:106-107 | `int(str(n)) == n` for every integer |
| PyText.NatToDecimal | BannedFiles.py:107 | `str(n)` is a nonempty digit string without a leading zero whose value is `n` |
| VolumeSort.DotStarReach | BannedFiles.py:184-185 | greedy `.*` reaches up to the first line break or the end of the text: no line break before the reach, and a line break or the end at it |
| VolumeSort.RightmostTail | BannedFiles.py:184-185 | the backtracking of greedy `.*` ends at a place where the pattern's tail matches and no later place within reach matches, or fails exactly when no place matches |
| VolumeSort.RightmostTailFinds | BannedFiles.py:184-185 | the search succeeds exactly when the tail matches somewhere within reach, and then on the rightmost such place |
| VolumeSort.RightmostTailUnique | BannedFiles.py:184-185 | any rightmost match is the one the search returns |
| VolumeSort.CaptureMeaning | BannedFiles.py:184-197 | a pattern captures a number exactly when its tail matches within reach, and the number is the digit run at the rightmost such place |
| VolumeSort.VolumeNumberMeaning | BannedFiles.py:195-197 | a name has a volume number exactly when one of the patterns matches; the `.part(\d+).rar` number wins when that pattern matches, otherwise the `.r(\d+)` number is used, each from its rightmost match |
| PyText.DigitRun | BannedFiles.py:184-185 | the greedy `\d+` run: a slice of digits followed by a non-digit or the end |
| VolumeSort.PrefixesExclusive | BannedFiles.py:191-193 | no line is both an ID line and a Filename line |
| VolumeSort.ReadLine | BannedFiles.py:191-201 | one loop iteration over the source's variables performs one `Advance` of the fold, or fails exactly where the fold aborts |
| VolumeSort.SortInnerFiles | BannedFiles.py:186-201 | the loop over the response lines yields `Selected` of those lines |
| VolumeSort.LastIdMeaning | BannedFiles.py:190-192 | `cur_id` is the value of the most recent ID line, and unset before any ID line |
| VolumeSort.MaxNumBounds | BannedFiles.py:198-201 | every candidate's number is at most the maximum |
| VolumeSort.ScanSummarises | BannedFiles.py:190-201 | after every prefix of the response, the loop state aborts exactly on a malformed ID line or a maximum taken before any ID line; `cur_id` is the last ID; no pick exactly for no candidate; otherwise the pick is the chosen candidate |
| VolumeSort.AdvanceSummarises | BannedFiles.py:190-201 | one line preserves that summary |
| VolumeSort.OfferSummarises | BannedFiles.py:198-201 | one offered volume preserves that summary |
| VolumeSort.OutcomeOfSummary | BannedFiles.py:198-204 | a summarising state selects nothing, fails, or picks the chosen maximum, as the summary says |
| VolumeSort.SelectedVolume | BannedFiles.py:186-201 | the selection fails exactly on a malformed ID line or on a maximum taken before any ID line; it is empty exactly when no filename carries a volume number; otherwise it is a candidate with the largest number, the first such unless that number is 0 (then the last candidate), paired with the ID read before that same Filename line |
| Hook.SortAfterQueryCalls | BannedFiles.py:203-213 | after the query, at most one command is sent: `FileMoveTop` for the selected volume, exactly when its ID is non-zero; nothing is removed; it raises exactly on an unreadable response, printing nothing; with the move it prints the `Moving` line naming the selected file, and otherwise the `Skipping` line |
| Hook.SortStepCalls | BannedFiles.py:172-213 | `sort_inner_files` sends at most one `FileMoveTop`, for the selected volume with a non-zero ID, and sends it whenever it completes with such a volume |
| Hook.SortStepOnlyLogs | BannedFiles.py:203-213 | everything `sort_inner_files` prints is a log line, never an `[NZB]` directive |
| PyText.IntToDecimal | BannedFiles.py:176 | `'%i' % n` is nonempty |
| Housekeeping.CollectMeaning | BannedFiles.py:104-107 | the collection fails exactly on a malformed reading, and otherwise holds exactly the listed IDs |
| Housekeeping.LiveIdsMeaning | BannedFiles.py:104-107 | the NZBID loop fails exactly on a malformed NZBID line, and otherwise holds exactly the canonical spellings of the listed NZBIDs |
| Housekeeping.LiveIdsCanonical | BannedFiles.py:106-107 | every collected NZBID is a canonical decimal that `int()` reads back |
| Housekeeping.CollectLine | BannedFiles.py:105-107 | one iteration performs one `Extend` step of the collection, or fails exactly where it does |
| Housekeeping.CollectLiveIds | BannedFiles.py:104-107 | the loop yields `LiveIds` of the response lines |
| Housekeeping.Difference | BannedFiles.py:109 | no duplicates, and a name is in it exactly when it is a marker and not live |
| Housekeeping.Doomed | BannedFiles.py:109-111 | no duplicates, and a name is in it exactly when it is a marker that is not live or is the current download's |
| Housekeeping.Paths | BannedFiles.py:114 | one path per marker, in order; every path lies in the marker folder; the paths are pairwise distinct exactly when the markers are |
| Housekeeping.RemoveMarkers | BannedFiles.py:113-119 | the removal loop prints `RemovalLog` and attempts exactly the marker paths, in order |
| Housekeeping.RemovalLinesWithoutErrors | BannedFiles.py:115-119 | without its error line, one removal prints only its `Removing` line |
| Housekeeping.FailuresOnlyAddErrorLines | BannedFiles.py:113-119 | with the error lines dropped, the log is that of a run where every removal succeeds, one line per marker |
| Housekeeping.CleanUp | BannedFiles.py:92-119 | the method has the effects `CleanUpStep` specifies |
| Housekeeping.SingleMarkerIsRemoved | BannedFiles.py:97-111 | with at most one marker, no query is sent and every marker is removed |
| Housekeeping.RemovedMarkers | BannedFiles.py:96-111 | the removed paths are those of `Doomed` over the live IDs, which come from the `listgroups` query when there are more than one marker and are empty otherwise |
| Housekeeping.CleanUpQueries | BannedFiles.py:99-101 | `cleanUp` sends no call or only `listgroups` |
| Housekeeping.RemovesOnlyMarkers | BannedFiles.py:109-117 | every removed path is that of an existing marker in the marker folder |
| Housekeeping.RemovesEachOnce | BannedFiles.py:109-114 | no path is attempted twice, as the set difference and the membership test before the append guarantee |
| Housekeeping.CleanUpOnlyLogs | BannedFiles.py:113-119 | everything `cleanUp` prints is a log line, never an `[NZB]` directive |
| Hook.GateOpens | BannedFiles.py:59-90 | `startCheck` lets the run go on exactly when no guard applies |
| Hook.ExitCodes | BannedFiles.py:59-90 | the run ends on an exception or with 0, 1, 93 or 95. `sys.exit(1)` happens exactly for an incompatible caller (banner only); the process status is 1 exactly for that caller or an exception. It ends with 0 exactly for an ignored event (no effect). It ends with 95 exactly for a missing directory or a failed download whose cleanup completes, or after sorting a newly added NZB. A missing directory prints its message and then has the cleanup's effects; a failed download has only the cleanup's effects |
| Hook.DispatchCodes | BannedFiles.py:235-282 | past the gate the run ends with 93, with 95 exactly after a completed sort of a newly added NZB, or on an exception |
| Hook.AlreadyBadDownload | BannedFiles.py:72-79 | for a download NZBGet marked bad, the warning naming the banned file is printed exactly when `PPSTATUS_BANNED` is `yes`; nothing else is printed before the cleanup; the run ends with 93 unless something raised |
| Hook.CallsInOrder | BannedFiles.py:59-90 | a run's calls and removals are exactly sorting's, when sorting ran (past the gate, on a trigger), followed by the cleanup's, when the cleanup ran (on the gate's exits after its first two guards, and after a completed scan in post-processing mode) |
| Hook.SortingRunsWhenTriggered | BannedFiles.py:235-245 | sorting is announced first exactly when triggered; a completed sort is followed by `SORTED=yes`; a sorted `NZB_ADDED` run ends with 95 with sorting's effects only |
| Hook.QueueModeSkipsCleanup | BannedFiles.py:275-277 | in queue mode past the gate the cleanup never runs: the run's calls and removals are sorting's when it ran, and none otherwise |
| Hook.ReportedLines | BannedFiles.py:248-272 | on a banned file its name line, `PPSTATUS_BANNED=yes` and `MARK=BAD` are printed in a row; otherwise the clearing directive is printed for a previously flagged download; the completion line is always printed |
| Hook.DetectionReport | BannedFiles.py:245-282 | a run that reaches detection prints those lines, ends with 93 unless the post-processing cleanup raised, and removes the cleanup's markers in post-processing mode |
| Hook.ReportedVerdict | BannedFiles.py:248-270 | when nothing printed before detection or by the cleanup is a verdict directive: `PPSTATUS_BANNED=yes` and `MARK=BAD` are printed exactly on a banned file with a nonempty name, and the clearing directive exactly without one for a download flagged earlier |
| Hook.VerdictOnlyOnMatch | BannedFiles.py:215-282 | for any sorting and cleanup that print no verdict directive, a run prints `PPSTATUS_BANNED=yes` and `MARK=BAD` exactly when detection scans the directory and finds a banned file, and the clearing directive exactly when the scan finds none for a download flagged earlier |
| Hook.HookVerdict | BannedFiles.py:215-282 | the same for the whole invocation with the real sorting and cleanup |
| Hook.MovesOfRun | BannedFiles.py:235-277 | when the cleanup sends none, a run's `FileMoveTop` commands are exactly sorting's if sorting ran, and none otherwise |
| Hook.MoveTopAtMostOnce | BannedFiles.py:204-211 | a whole run sends `FileMoveTop` at most once, only when sorting was triggered, and for the selected volume with its non-zero ID; a sorting run that completes with such a volume sends exactly that one move |
| Hook.QueueModeLeavesMarkers | BannedFiles.py:275-277 | a queue-mode run past the gate removes no marker |

## Left out

- HTTP/JSON-RPC transport (`callNzbget`, lines 121-144). URL building, Basic
  authentication and `urlopen` are not modelled. The query is recorded as a
  `JsonRpc` call and its response is an input, already split into lines.
- Host replies: the `listfiles` response is the same input whatever NZBID is
  asked for. The model cannot tell an answer for the wrong download.
- Network failures: a failing `urlopen` or `editqueue` is not modelled; the host always answers.
- XML-RPC (`connectNzbget`, lines 146-161): `ServerProxy` and the credentials
  in the URL are not modelled. The command is recorded as an `EditQueue` call.
- `data.splitlines()`: the responses are given as lines. Since a line then
  holds no line break, the `.*` limit at a line break never applies to them.
- The file system: `os.listdir`, `os.path.isfile`, `os.path.exists` and `os.remove` are inputs.
  - Directory entries come in a given order.
  - Which removals fail is a set of paths.
  - `os.path.join` is not modelled: whether an entry is a regular file is part of its listing entry.
- Output mechanics: `sys.stdout.flush`, the `print` machinery and tracebacks
  are not modelled. An uncaught exception is `Crash` without any message.
- Output lines: an element of `HostIo.Effects.output` is the text of one `print`
  call; NZBGet's split of standard output at line breaks is not modelled.
  A download name (`NZBNAME`, printed at lines 238, 245, 268 and 272) or a
  directory entry name (lines 167-168) that holds a line break gives several
  host lines from one element: the name `x`, a line break, `[NZB] MARK=BAD`
  makes NZBGet mark the download bad although no banned file is present.
- Hook.HookVerdict, Hook.VerdictOnlyOnMatch, Hook.ReportedVerdict: their
  "exactly when" statements are about the texts of print calls, not about the
  lines NZBGet parses from them (see the line above).
- Crash: it stands for the interpreter's exit status 1, after a traceback written
  to standard error. `HostIo.ExitStatus` maps it to 1, but the traceback itself
  is not modelled.
- `list(set(files) - set(nzbids))`: Python leaves the order unspecified. The
  model removes the markers in listing order, each once, so only the set of
  removals, not their order, matches the source.
- Digits and case: `int()` and `\d` on non-ASCII digits, underscores in
  `int()`, and non-ASCII whitespace around numbers are not modelled. Case folding is ASCII
  only, which is exact for the letters `p`, `a`, `r`, `t` of the patterns.
- PyText.ParseInt, PyText.NatToDecimal: CPython's limit on integer string
  conversion is not modelled (`int()` of more than 4300 digits, and `str()` of
  a number that long, raise `ValueError`). The model converts any length, so an
  NZBID (lines 106-107, 173, 192) or a volume number (line 197) longer than
  that crashes the script but not the model, and `PyText.ParseIntOfDecimal`
  holds of the script only below that length.
- `mediaExtensions` (line 52) and the commented-out marker path (line 227): the script never uses either.
- `callNzbget` and `connectNzbget` rewrite host `0.0.0.0` to `127.0.0.1`, which is not modelled: the transport is abstract.
- PyText.IntToDecimal: its contract states only that the text is nonempty.
  The round trip through `int()` is stated by `PyText.ParseIntOfDecimal`.
