/**
  One invocation of the hook: the gatekeeper (`startCheck`), then the
  dispatch of `main` (sort the inner files when an NZB is added, detect banned
  files, remove stale markers after post-processing), as a function from what
  the host provides to what the run does.
 */
module Hook {
  import opened Wrappers
  import opened PyText
  import opened HostIo
  import opened BannedExtensions
  import opened VolumeSort
  import opened Housekeeping

  /** What one invocation sees: the environment NZBGet starts it with, the
      file system, and the responses of the `listgroups` and `listfiles`
      queries. */
  datatype Host = Host(env: map<string, string>, fs: FileSystem, groupLines: seq<string>, fileLines: seq<string>)
  {
    /** `os.environ.get(key)` */
    function Get(key: string): Option<string> {
      if key in env then Some(env[key]) else None
    }
  }

  // ---------------------------------------------------------------------------
  // The gatekeeper
  // ---------------------------------------------------------------------------

  /** Started by NZBGet 14.0 or later, as a queue or as a post-processing script. */
  predicate Compatible(h: Host) {
    ("NZBNA_EVENT" in h.env || "NZBPP_DIRECTORY" in h.env) && "NZBOP_ARTICLECACHE" in h.env
  }

  const KnownEvents := ["NZB_ADDED", "FILE_DOWNLOADED", "NZB_DOWNLOADED"]

  /** A queue event the hook does not handle (an absent event is handled). */
  predicate IgnoredEvent(h: Host) {
    h.Get("NZBNA_EVENT").Some? && h.Get("NZBNA_EVENT").value !in KnownEvents
  }

  /** `callNzbget` and `connectNzbget` read these four options with
      `os.environ[...]`, which raises when one is missing. */
  predicate CanCall(h: Host) {
    && "NZBOP_CONTROLIP" in h.env && "NZBOP_CONTROLPORT" in h.env
    && "NZBOP_CONTROLUSERNAME" in h.env && "NZBOP_CONTROLPASSWORD" in h.env
  }

  /** `cleanUp()` in this host. */
  function Cleanup(h: Host): Step {
    CleanUpStep(Context(h.Get("NZBPP_NZBID"), h.Get("NZBOP_TEMPDIR"), h.fs, CanCall(h), h.groupLines))
  }

  const Banner := ["*** NZBGet queue script ***",
                   "This script is supposed to be called from nzbget (14.0 or later)."]
  const BannedWarning := WarningTag + "Download contains banned extension "
  const MissingDirectory := "Destination directory doesn't exist, exiting"

  /** Where `startCheck` ends the run, or that it lets it go on. */
  datatype Gate = Proceed | Halt(run: Run)

  /** `startCheck`: its guards in order, the first that applies deciding;
      `cleanup` is what `cleanUp()` does in this host. */
  function StartCheck(h: Host, cleanup: Step): Gate {
    if !Compatible(h) then Halt(Run(Say(Banner), Exit(1)))
    else if IgnoredEvent(h) then Halt(Run(NoEffects, Exit(0)))
    else if h.Get("NZBPP_STATUS") == Some("FAILURE/BAD") then
      if h.Get("NZBPR_PPSTATUS_BANNED") == Some("yes") then
        match h.Get("NZBPR_PPSTATUS_BANNEDFILE")
        case None => Halt(Run(NoEffects, Crash))
        case Some(file) => Halt(Finish(Say([BannedWarning + file]), cleanup, PostProcessSuccess))
      else Halt(Finish(NoEffects, cleanup, PostProcessSuccess))
    else if "NZBPP_DIRECTORY" in h.env && !h.fs.Exists(h.env["NZBPP_DIRECTORY"]) then
      Halt(Finish(Say([MissingDirectory]), cleanup, PostProcessNone))
    else if h.Get("NZBPP_TOTALSTATUS") == Some("FAILURE") then
      Halt(Finish(NoEffects, cleanup, PostProcessNone))
    else Proceed
  }

  // ---------------------------------------------------------------------------
  // sort_inner_files, with its queries
  // ---------------------------------------------------------------------------

  const MovingLine := InfoTag + "Moving last rar-file to the top: "
  const SkippingLine := InfoTag + "Skipping sorting since could not find any rar-files"

  /** `FileMoveTop` for the file with the given ID. */
  function MoveTop(id: int): HostCall {
    EditQueue("FileMoveTop", 0, "", [id])
  }

  /** `sort_inner_files()`: `int(NZBNA_NZBID)` (raising when unset or
      malformed), the `listfiles` query, the loop over its response, and the
      move of the selected volume, which only happens when its ID is non-zero. */
  function SortStep(h: Host): Step {
    var nzbId := if h.Get("NZBNA_NZBID").Some? then ParseInt(h.Get("NZBNA_NZBID").value) else None;
    if nzbId.None? || !CanCall(h) then Step(NoEffects, true)
    else SortAfterQuery(JsonRpc("listfiles?1=0&2=0&3=" + IntToDecimal(nzbId.value)), Selected(h.fileLines))
  }

  /** The rest of `sort_inner_files()` once `query` is sent and the loop has
      made its selection. */
  function SortAfterQuery(query: HostCall, sel: Selection): Step {
    match sel
    case Unreadable => Step(Effects([], [query], []), true)
    case NoVolume => Step(Effects([SkippingLine], [query], []), false)
    case Volume(p) =>
      if p.id != 0 then Step(Effects([MovingLine + p.name], [query, MoveTop(p.id)], []), false)
      else Step(Effects([SkippingLine], [query], []), false)
  }

  // ---------------------------------------------------------------------------
  // main
  // ---------------------------------------------------------------------------

  const SortingLine := InfoTag + "Sorting inner files for earlier file detection in "
  const SortedLine := "[NZB] NZBPR_BANNEDFILES_SORTED=yes"
  const DetectingLine := InfoTag + "Detecting banned files in "
  const BannedLine := "[NZB] NZBPR_PPSTATUS_BANNED=yes"
  const MarkBadLine := "[NZB] MARK=BAD"
  const ClearBannedLine := "[NZB] NZBPR_PPSTATUS_BANNED="
  const NothingFoundLine := InfoTag + "No Banned files detected in "
  const CompletedLine := DetailTag + "Detecting banned files completed for "

  /** The queue event asks for sorting: a newly added NZB, or a downloaded file
      of an NZB that has not been sorted yet. */
  predicate SortTriggered(h: Host) {
    h.Get("NZBNA_EVENT") == Some("NZB_ADDED")
    || (h.Get("NZBNA_EVENT") == Some("FILE_DOWNLOADED") && h.Get("NZBPR_BANNEDFILES_SORTED") != Some("yes"))
  }

  /** The prefix of the per-download variables: queue or post-processing mode. */
  function Prefix(h: Host): string {
    if "NZBNA_EVENT" in h.env then "NZBNA_" else "NZBPP_"
  }

  /** The extension list, read once when the script starts. */
  function BannedList(h: Host): seq<string> {
    ParseBannedExtensions(h.Get("NZBPO_BANNEDEXTENSIONS"))
  }

  /** What detection prints after `detectBannedFile`: `if detectBannedFile(...)`
      is false for no file and for a file named by the empty text. */
  function Verdict(h: Host, found: Option<string>, name: string): seq<string> {
    if found.Some? && found.value != "" then [BannedLine, MarkBadLine]
    else [NothingFoundLine + name + " yet"]
         + (if h.Get("NZBPR_PPSTATUS_BANNED") == Some("yes") then [ClearBannedLine] else [])
  }

  /** Detection and what follows it, after the effects `before`: the scan of the
      download's directory (`os.listdir` raises when it is not one), the
      verdict, and `cleanup` in post-processing mode. */
  function Detection(h: Host, before: Effects, dir: string, name: string, cleanup: Step): Run {
    if dir !in h.fs.listings then Run(Then(before, Say([DetectingLine + name])), Crash)
    else Reported(h, before, name, FirstBanned(h.fs.listings[dir], BannedList(h)), cleanup)
  }

  /** Detection once `detectBannedFile` has returned `found`. */
  function Reported(h: Host, before: Effects, name: string, found: Option<string>, cleanup: Step): Run {
    var report := Then(before, Say([DetectingLine + name] + FoundLines(found) + Verdict(h, found, name)
                                    + [CompletedLine + name]));
    if Prefix(h) == "NZBPP_" then Finish(report, cleanup, PostProcessSuccess)
    else Run(report, Exit(PostProcessSuccess))
  }

  /** The effects of the run before detection starts, given what sorting did. */
  function Preamble(h: Host, name: string, sort: Step): Effects {
    if SortTriggered(h) then Then(Then(Say([SortingLine + name]), sort.effects), Say([SortedLine]))
    else NoEffects
  }

  /** `main` after `startCheck` has let the run go on; `sort` is what
      `sort_inner_files()` does in this host. */
  function Dispatch(h: Host, sort: Step, cleanup: Step): Run {
    var prefix := Prefix(h);
    if prefix + "DIRECTORY" !in h.env || prefix + "NZBNAME" !in h.env then Run(NoEffects, Crash)
    else
      var dir := h.env[prefix + "DIRECTORY"];
      var name := h.env[prefix + "NZBNAME"];
      if SortTriggered(h) && sort.crashed then Run(Then(Say([SortingLine + name]), sort.effects), Crash)
      else if SortTriggered(h) && h.Get("NZBNA_EVENT") == Some("NZB_ADDED") then
        Run(Preamble(h, name, sort), Exit(PostProcessNone))
      else Detection(h, Preamble(h, name, sort), dir, name, cleanup)
  }

  /** The script, given what its two helpers with side effects do. */
  function Main(h: Host, sort: Step, cleanup: Step): Run {
    match StartCheck(h, cleanup)
    case Halt(run) => run
    case Proceed => Dispatch(h, sort, cleanup)
  }

  /** The whole invocation. */
  function Hook(h: Host): Run {
    Main(h, SortStep(h), Cleanup(h))
  }

  // ---------------------------------------------------------------------------
  // What a whole run does, whatever sorting and the cleanup do
  // ---------------------------------------------------------------------------

  /** `startCheck` lets the run go on: a compatible caller, a handled event, a
      download not already failed, and an existing destination directory. */
  predicate PassesGate(h: Host) {
    && Compatible(h) && !IgnoredEvent(h)
    && h.Get("NZBPP_STATUS") != Some("FAILURE/BAD")
    && !("NZBPP_DIRECTORY" in h.env && !h.fs.Exists(h.env["NZBPP_DIRECTORY"]))
    && h.Get("NZBPP_TOTALSTATUS") != Some("FAILURE")
  }

  /** `main` reads the download's directory and name with `os.environ[...]`. */
  predicate HasContext(h: Host) {
    Prefix(h) + "DIRECTORY" in h.env && Prefix(h) + "NZBNAME" in h.env
  }

  /** Sorting runs: past the gate, with the context read, when the event asks for it. */
  predicate SortRuns(h: Host) {
    PassesGate(h) && HasContext(h) && SortTriggered(h)
  }

  /** Detection gets to scan the directory: past the gate, with the context
      read, sorting (when it ran) neither raised nor ended the run, and the
      directory can be listed. */
  predicate ScanCompletes(h: Host, sort: Step) {
    && PassesGate(h) && HasContext(h)
    && !(SortTriggered(h) && (sort.crashed || h.Get("NZBNA_EVENT") == Some("NZB_ADDED")))
    && h.env[Prefix(h) + "DIRECTORY"] in h.fs.listings
  }

  /** The cleanup runs: before every exit of `startCheck` after its first two
      guards (unless printing the warning of a download already marked bad
      raises), and after detection in post-processing mode. */
  predicate CleanupRuns(h: Host, sort: Step) {
    || (&& Compatible(h) && !IgnoredEvent(h) && !PassesGate(h)
        && !(&& h.Get("NZBPP_STATUS") == Some("FAILURE/BAD") && h.Get("NZBPR_PPSTATUS_BANNED") == Some("yes")
             && h.Get("NZBPR_PPSTATUS_BANNEDFILE").None?))
    || (ScanCompletes(h, sort) && Prefix(h) == "NZBPP_")
  }

  lemma GateOpens(h: Host, cleanup: Step)
    ensures StartCheck(h, cleanup) == Proceed <==> PassesGate(h)
  {
  }

  /** Past the gate, the run is the dispatch of `main`. */
  lemma Proceeds(h: Host, sort: Step, cleanup: Step)
    requires PassesGate(h)
    ensures Main(h, sort, cleanup) == Dispatch(h, sort, cleanup)
  {
    GateOpens(h, cleanup);
  }

  /** The run ends with one of the codes the hook uses, or on an exception:
      1 exactly for an incompatible caller (printing the banner only), 0 exactly
      for an ignored event (doing nothing), and 95 exactly for a missing
      directory (announced, then the cleanup) or an already failed download
      (only the cleanup), or after sorting a newly added NZB, each time when
      nothing raised. The process also ends with status 1 on an exception. */
  lemma ExitCodes(h: Host, sort: Step, cleanup: Step)
    ensures Main(h, sort, cleanup).status == Crash || Main(h, sort, cleanup).status.code in {0, 1, 93, 95}
    ensures Main(h, sort, cleanup).status == Exit(1) <==> !Compatible(h)
    ensures ExitStatus(Main(h, sort, cleanup).status) == 1 <==> !Compatible(h) || Main(h, sort, cleanup).status == Crash
    ensures Main(h, sort, cleanup).status == Exit(0) <==> Compatible(h) && IgnoredEvent(h)
    ensures !Compatible(h) ==> Main(h, sort, cleanup).effects == Say(Banner)
    ensures Compatible(h) && IgnoredEvent(h) ==> Main(h, sort, cleanup).effects == NoEffects
    ensures Main(h, sort, cleanup).status == Exit(PostProcessNone) <==>
      || (&& Compatible(h) && !IgnoredEvent(h) && h.Get("NZBPP_STATUS") != Some("FAILURE/BAD") && !PassesGate(h)
          && !cleanup.crashed)
      || (PassesGate(h) && HasContext(h) && h.Get("NZBNA_EVENT") == Some("NZB_ADDED") && !sort.crashed)
    ensures && Compatible(h) && !IgnoredEvent(h) && h.Get("NZBPP_STATUS") != Some("FAILURE/BAD")
            && "NZBPP_DIRECTORY" in h.env && !h.fs.Exists(h.env["NZBPP_DIRECTORY"]) ==>
      Main(h, sort, cleanup).effects == Then(Say([MissingDirectory]), cleanup.effects)
    ensures && Compatible(h) && !IgnoredEvent(h) && h.Get("NZBPP_STATUS") != Some("FAILURE/BAD")
            && !("NZBPP_DIRECTORY" in h.env && !h.fs.Exists(h.env["NZBPP_DIRECTORY"]))
            && h.Get("NZBPP_TOTALSTATUS") == Some("FAILURE") ==>
      Main(h, sort, cleanup).effects == cleanup.effects
  {
    GateOpens(h, cleanup);
    assert Then(NoEffects, cleanup.effects) == cleanup.effects;
    if PassesGate(h) {
      Proceeds(h, sort, cleanup);
      DispatchCodes(h, sort, cleanup);
    }
  }

  /** Past the gate, the run ends with 93, or with 95 exactly after sorting a
      newly added NZB, or on an exception. */
  lemma DispatchCodes(h: Host, sort: Step, cleanup: Step)
    ensures Dispatch(h, sort, cleanup).status in {Crash, Exit(PostProcessSuccess), Exit(PostProcessNone)}
    ensures Dispatch(h, sort, cleanup).status == Exit(PostProcessNone) <==>
      HasContext(h) && h.Get("NZBNA_EVENT") == Some("NZB_ADDED") && !sort.crashed
  {
    if HasContext(h) {
      var dir := h.env[Prefix(h) + "DIRECTORY"];
      var name := h.env[Prefix(h) + "NZBNAME"];
      if dir in h.fs.listings {
        ReportedEffects(h, Preamble(h, name, sort), name, FirstBanned(h.fs.listings[dir], BannedList(h)), cleanup);
      }
    }
  }

  /** A download NZBGet already marked bad: the warning naming the banned file
      is printed exactly when an earlier run flagged it, nothing else is printed
      before the cleanup, and the run ends with 93 unless something raised. */
  lemma AlreadyBadDownload(h: Host, sort: Step, cleanup: Step)
    requires Compatible(h) && !IgnoredEvent(h) && h.Get("NZBPP_STATUS") == Some("FAILURE/BAD")
    ensures h.Get("NZBPR_PPSTATUS_BANNED") == Some("yes") && h.Get("NZBPR_PPSTATUS_BANNEDFILE").None? ==>
      Main(h, sort, cleanup) == Run(NoEffects, Crash)
    ensures !(h.Get("NZBPR_PPSTATUS_BANNED") == Some("yes") && h.Get("NZBPR_PPSTATUS_BANNEDFILE").None?) ==>
      Main(h, sort, cleanup).status == if cleanup.crashed then Crash else Exit(PostProcessSuccess)
    ensures h.Get("NZBPR_PPSTATUS_BANNED") == Some("yes") && h.Get("NZBPR_PPSTATUS_BANNEDFILE").Some? ==>
      Main(h, sort, cleanup).effects.output
        == [BannedWarning + h.Get("NZBPR_PPSTATUS_BANNEDFILE").value] + cleanup.effects.output
    ensures h.Get("NZBPR_PPSTATUS_BANNED") != Some("yes") ==> Main(h, sort, cleanup).effects == cleanup.effects
  {
    assert Then(NoEffects, cleanup.effects) == cleanup.effects;
  }

  /** What detection adds to the effects before it, once the scan has a result. */
  lemma ReportedEffects(h: Host, before: Effects, name: string, found: Option<string>, cleanup: Step)
    ensures var tail := if Prefix(h) == "NZBPP_" then cleanup.effects else NoEffects;
      && Reported(h, before, name, found, cleanup).effects.output ==
           before.output + [DetectingLine + name]
           + (FoundLines(found) + Verdict(h, found, name) + [CompletedLine + name]) + tail.output
      && Reported(h, before, name, found, cleanup).effects.calls == before.calls + tail.calls
      && Reported(h, before, name, found, cleanup).effects.removed == before.removed + tail.removed
      && Reported(h, before, name, found, cleanup).status ==
           if Prefix(h) == "NZBPP_" && cleanup.crashed then Crash else Exit(PostProcessSuccess)
  {
    var lines := FoundLines(found) + Verdict(h, found, name) + [CompletedLine + name];
    assert [DetectingLine + name] + FoundLines(found) + Verdict(h, found, name) + [CompletedLine + name]
        == [DetectingLine + name] + lines;
  }

  /** What detection adds to the effects before it. */
  lemma DetectionEffects(h: Host, before: Effects, dir: string, name: string, cleanup: Step)
    requires dir in h.fs.listings
    ensures var found := FirstBanned(h.fs.listings[dir], BannedList(h));
      var tail := if Prefix(h) == "NZBPP_" then cleanup.effects else NoEffects;
      && Detection(h, before, dir, name, cleanup).effects.output ==
           before.output + [DetectingLine + name]
           + (FoundLines(found) + Verdict(h, found, name) + [CompletedLine + name]) + tail.output
      && Detection(h, before, dir, name, cleanup).effects.calls == before.calls + tail.calls
      && Detection(h, before, dir, name, cleanup).effects.removed == before.removed + tail.removed
      && Detection(h, before, dir, name, cleanup).status ==
           if Prefix(h) == "NZBPP_" && cleanup.crashed then Crash else Exit(PostProcessSuccess)
  {
    ReportedEffects(h, before, name, FirstBanned(h.fs.listings[dir], BannedList(h)), cleanup);
  }

  /** The calls and the removals of a run: those of sorting, when it ran,
      then those of the cleanup, when it ran. */
  lemma CallsInOrder(h: Host, sort: Step, cleanup: Step)
    ensures Main(h, sort, cleanup).effects.calls ==
      (if SortRuns(h) then sort.effects.calls else []) + (if CleanupRuns(h, sort) then cleanup.effects.calls else [])
    ensures Main(h, sort, cleanup).effects.removed ==
      (if SortRuns(h) then sort.effects.removed else []) + (if CleanupRuns(h, sort) then cleanup.effects.removed else [])
  {
    GateOpens(h, cleanup);
    if PassesGate(h) {
      Proceeds(h, sort, cleanup);
      DispatchCalls(h, sort, cleanup);
    }
  }

  /** The same for the run past the gate. */
  lemma DispatchCalls(h: Host, sort: Step, cleanup: Step)
    requires PassesGate(h)
    ensures Dispatch(h, sort, cleanup).effects.calls ==
      (if SortRuns(h) then sort.effects.calls else []) + (if CleanupRuns(h, sort) then cleanup.effects.calls else [])
    ensures Dispatch(h, sort, cleanup).effects.removed ==
      (if SortRuns(h) then sort.effects.removed else []) + (if CleanupRuns(h, sort) then cleanup.effects.removed else [])
  {
    if HasContext(h) {
      var dir := h.env[Prefix(h) + "DIRECTORY"];
      var name := h.env[Prefix(h) + "NZBNAME"];
      var pre := Preamble(h, name, sort);
      assert pre.calls == if SortRuns(h) then sort.effects.calls else [];
      assert pre.removed == if SortRuns(h) then sort.effects.removed else [];
      if ScanCompletes(h, sort) {
        ReportedEffects(h, pre, name, FirstBanned(h.fs.listings[dir], BannedList(h)), cleanup);
      } else if !(SortTriggered(h) && (sort.crashed || h.Get("NZBNA_EVENT") == Some("NZB_ADDED"))) {
        assert pre.calls + [] == pre.calls && pre.removed + [] == pre.removed;
      } else {
        assert sort.effects.calls + [] == sort.effects.calls && sort.effects.removed + [] == sort.effects.removed;
      }
    }
  }

  /** Sorting comes first when the event asks for it, announced, and followed by
      the `SORTED=yes` directive; an added NZB then ends with 95 before any
      detection. Without the trigger, detection is announced first. */
  lemma SortingRunsWhenTriggered(h: Host, sort: Step, cleanup: Step)
    requires PassesGate(h) && HasContext(h)
    ensures |Main(h, sort, cleanup).effects.output| >= 1
    ensures Main(h, sort, cleanup).effects.output[0] ==
      (if SortTriggered(h) then SortingLine else DetectingLine) + h.env[Prefix(h) + "NZBNAME"]
    ensures SortTriggered(h) && !sort.crashed ==>
      && |Main(h, sort, cleanup).effects.output| > |sort.effects.output| + 1
      && Main(h, sort, cleanup).effects.output[|sort.effects.output| + 1] == SortedLine
    ensures h.Get("NZBNA_EVENT") == Some("NZB_ADDED") && !sort.crashed ==>
      && Main(h, sort, cleanup).status == Exit(PostProcessNone)
      && Main(h, sort, cleanup).effects.output
           == [SortingLine + h.env[Prefix(h) + "NZBNAME"]] + sort.effects.output + [SortedLine]
      && Main(h, sort, cleanup).effects.calls == sort.effects.calls
      && Main(h, sort, cleanup).effects.removed == sort.effects.removed
  {
    Proceeds(h, sort, cleanup);
    var dir := h.env[Prefix(h) + "DIRECTORY"];
    var name := h.env[Prefix(h) + "NZBNAME"];
    var out := Main(h, sort, cleanup).effects.output;
    if SortTriggered(h) && !sort.crashed {
      var pre := Preamble(h, name, sort);
      assert pre.output == [SortingLine + name] + sort.effects.output + [SortedLine];
      if h.Get("NZBNA_EVENT") != Some("NZB_ADDED") && dir in h.fs.listings {
        DetectionEffects(h, pre, dir, name, cleanup);
      }
      assert out[..|pre.output|] == pre.output;
    } else if !SortTriggered(h) && dir in h.fs.listings {
      DetectionEffects(h, NoEffects, dir, name, cleanup);
    }
  }

  /** In queue mode the cleanup never runs once `startCheck` has let the run go
      on: the run asks and removes what sorting does, if it ran, and nothing
      otherwise. */
  lemma QueueModeSkipsCleanup(h: Host, sort: Step, cleanup: Step)
    requires PassesGate(h) && "NZBNA_EVENT" in h.env
    ensures Main(h, sort, cleanup).effects.calls == if SortRuns(h) then sort.effects.calls else []
    ensures Main(h, sort, cleanup).effects.removed == if SortRuns(h) then sort.effects.removed else []
  {
    CallsInOrder(h, sort, cleanup);
    assert !CleanupRuns(h, sort);
    assert sort.effects.calls + [] == sort.effects.calls && sort.effects.removed + [] == sort.effects.removed;
  }

  /** `block` appears in `lines` from index `i` on. */
  predicate BlockAt(lines: seq<string>, i: int, block: seq<string>) {
    0 <= i <= |lines| - |block| && lines[i..i + |block|] == block
  }

  lemma BlockInside(a: seq<string>, block: seq<string>, b: seq<string>)
    ensures BlockAt(a + block + b, |a|, block)
  {
    assert (a + block + b)[|a|..|a| + |block|] == block;
  }

  /** What detection prints, once the scan has a result. */
  lemma ReportedLines(h: Host, before: Effects, name: string, found: Option<string>, cleanup: Step)
    ensures var out := Reported(h, before, name, found, cleanup).effects.output;
      && (found.Some? && found.value != "" ==>
            BlockAt(out, |before.output| + 1, FoundLines(found) + [BannedLine, MarkBadLine]))
      && (!(found.Some? && found.value != "") && h.Get("NZBPR_PPSTATUS_BANNED") == Some("yes") ==>
            ClearBannedLine in out)
      && CompletedLine + name in out
  {
    ReportedEffects(h, before, name, found, cleanup);
    var verdict := Verdict(h, found, name);
    var tail := (if Prefix(h) == "NZBPP_" then cleanup.effects else NoEffects).output;
    var lead := before.output + [DetectingLine + name];
    var out := Reported(h, before, name, found, cleanup).effects.output;
    assert out == lead + (FoundLines(found) + verdict) + ([CompletedLine + name] + tail);
    BlockInside(lead, FoundLines(found) + verdict, [CompletedLine + name] + tail);
  }

  /** A run in which detection completes prints, in post-processing and in
      queue mode alike: on a banned file its name, `PPSTATUS_BANNED=yes` and
      `MARK=BAD` in a row; otherwise the clearing directive when an earlier run
      had flagged the download; and the completion line. It then ends with 93,
      after the cleanup, and with the cleanup's removals, in post-processing
      mode only. */
  lemma DetectionReport(h: Host, sort: Step, cleanup: Step)
    requires PassesGate(h) && HasContext(h)
    requires h.env[Prefix(h) + "DIRECTORY"] in h.fs.listings
    requires SortTriggered(h) ==> !sort.crashed && h.Get("NZBNA_EVENT") != Some("NZB_ADDED")
    ensures var found := FirstBanned(h.fs.listings[h.env[Prefix(h) + "DIRECTORY"]], BannedList(h));
      var out := Main(h, sort, cleanup).effects.output;
      && (found.Some? && found.value != "" ==>
            exists i :: BlockAt(out, i, FoundLines(found) + [BannedLine, MarkBadLine]))
      && (!(found.Some? && found.value != "") && h.Get("NZBPR_PPSTATUS_BANNED") == Some("yes") ==>
            ClearBannedLine in out)
      && CompletedLine + h.env[Prefix(h) + "NZBNAME"] in out
    ensures Main(h, sort, cleanup).status ==
      if Prefix(h) == "NZBPP_" && cleanup.crashed then Crash else Exit(PostProcessSuccess)
    ensures Prefix(h) == "NZBPP_" ==> Main(h, sort, cleanup).effects.removed == cleanup.effects.removed
  {
    GateOpens(h, cleanup);
    var dir := h.env[Prefix(h) + "DIRECTORY"];
    var name := h.env[Prefix(h) + "NZBNAME"];
    var pre := Preamble(h, name, sort);
    var found := FirstBanned(h.fs.listings[dir], BannedList(h));
    assert Main(h, sort, cleanup) == Reported(h, pre, name, found, cleanup);
    ReportedEffects(h, pre, name, found, cleanup);
    ReportedLines(h, pre, name, found, cleanup);
    if Prefix(h) == "NZBPP_" {
      assert pre == NoEffects;
    }
  }

  /** One of the directives the verdict of detection prints. */
  predicate IsVerdictLine(line: string) {
    line == BannedLine || line == MarkBadLine || line == ClearBannedLine
  }

  /** Lines none of which is a verdict directive. */
  predicate NoVerdict(lines: seq<string>) {
    forall k :: 0 <= k < |lines| ==> !IsVerdictLine(lines[k])
  }

  /** Log lines are no directives. */
  lemma LogsHaveNoVerdict(lines: seq<string>)
    requires LogsOnly(lines)
    ensures NoVerdict(lines)
  {
    assert BannedLine[1] == 'N' && MarkBadLine[1] == 'N' && ClearBannedLine[1] == 'N';
  }

  /** A verdict directive in lines made of a middle part between two parts
      without any is in the middle part. */
  lemma VerdictInMiddle(a: seq<string>, v: seq<string>, b: seq<string>, x: string)
    requires NoVerdict(a) && NoVerdict(b) && IsVerdictLine(x)
    ensures x in a + v + b <==> x in v
  {
    assert x !in a && x !in b;
  }

  /** What `detectBannedFile` prints holds no verdict directive: the second line
      names the file in `PPSTATUS_BANNEDFILE`, which is longer than any of them. */
  lemma FoundLinesNoVerdict(found: Option<string>)
    ensures NoVerdict(FoundLines(found))
  {
    if found.Some? {
      TagsLog();
      LogLineExtends(InfoTag, "Found file with banned extension: ");
      LogLineExtends(FoundLine, found.value);
      assert |FoundLines(found)[1]| >= 32;
      LogsHaveNoVerdict([FoundLines(found)[0]]);
    }
  }

  /** The lines detection prints around its verdict are no directives. */
  lemma ReportLinesNoVerdict(name: string, found: Option<string>)
    ensures NoVerdict([DetectingLine + name] + FoundLines(found))
    ensures NoVerdict([CompletedLine + name])
    ensures NoVerdict([NothingFoundLine + name + " yet"])
  {
    TagsLog();
    LogLineExtends(InfoTag, "Detecting banned files in ");
    LogLineExtends(DetectingLine, name);
    LogLineExtends(DetailTag, "Detecting banned files completed for ");
    LogLineExtends(CompletedLine, name);
    LogLineExtends(InfoTag, "No Banned files detected in ");
    LogLineExtends(NothingFoundLine, name);
    LogLineExtends(NothingFoundLine + name, " yet");
    LogsHaveNoVerdict([DetectingLine + name]);
    LogsHaveNoVerdict([CompletedLine + name]);
    LogsHaveNoVerdict([NothingFoundLine + name + " yet"]);
    FoundLinesNoVerdict(found);
  }

  /** Detection prints `PPSTATUS_BANNED=yes` and `MARK=BAD` only on a banned
      file, and the clearing directive only without one for a download an
      earlier run had flagged, as long as nothing printed before it or by the
      cleanup is such a directive. */
  lemma ReportedVerdict(h: Host, before: Effects, name: string, found: Option<string>, cleanup: Step)
    requires NoVerdict(before.output) && NoVerdict(cleanup.effects.output)
    ensures var out := Reported(h, before, name, found, cleanup).effects.output;
      var flagged := found.Some? && found.value != "";
      && (MarkBadLine in out <==> flagged)
      && (BannedLine in out <==> flagged)
      && (ClearBannedLine in out <==> !flagged && h.Get("NZBPR_PPSTATUS_BANNED") == Some("yes"))
  {
    ReportedEffects(h, before, name, found, cleanup);
    var tail := (if Prefix(h) == "NZBPP_" then cleanup.effects else NoEffects).output;
    var verdict := Verdict(h, found, name);
    var lead := before.output + [DetectingLine + name] + FoundLines(found);
    var rest := [CompletedLine + name] + tail;
    ReportLinesNoVerdict(name, found);
    assert NoVerdict(lead) && NoVerdict(rest);
    assert Reported(h, before, name, found, cleanup).effects.output == lead + verdict + rest;
    VerdictInMiddle(lead, verdict, rest, MarkBadLine);
    VerdictInMiddle(lead, verdict, rest, BannedLine);
    VerdictInMiddle(lead, verdict, rest, ClearBannedLine);
  }

  /** The scan of the download's directory finds a banned file the verdict acts on. */
  predicate Flagged(h: Host)
    requires HasContext(h) && h.env[Prefix(h) + "DIRECTORY"] in h.fs.listings
  {
    var found := FirstBanned(h.fs.listings[h.env[Prefix(h) + "DIRECTORY"]], BannedList(h));
    found.Some? && found.value != ""
  }

  /** `startCheck` prints no verdict directive when it ends the run. */
  lemma HaltNoVerdict(h: Host, sort: Step, cleanup: Step)
    requires !PassesGate(h) && NoVerdict(cleanup.effects.output)
    ensures NoVerdict(Main(h, sort, cleanup).effects.output)
  {
    GateOpens(h, cleanup);
    TagsLog();
    LogLineExtends(WarningTag, "Download contains banned extension ");
    if h.Get("NZBPR_PPSTATUS_BANNEDFILE").Some? {
      LogLineExtends(BannedWarning, h.Get("NZBPR_PPSTATUS_BANNEDFILE").value);
      LogsHaveNoVerdict([BannedWarning + h.Get("NZBPR_PPSTATUS_BANNEDFILE").value]);
    }
    assert |Banner[0]| == 27 && |Banner[1]| > 31 && |MissingDirectory| > 31;
    assert NoVerdict(Banner) && NoVerdict([MissingDirectory]);
  }

  /** What sorting adds before detection holds no verdict directive either. */
  lemma PreambleNoVerdict(h: Host, name: string, sort: Step)
    requires NoVerdict(sort.effects.output)
    ensures NoVerdict(Preamble(h, name, sort).output)
    ensures NoVerdict([SortingLine + name] + sort.effects.output)
  {
    TagsLog();
    LogLineExtends(InfoTag, "Sorting inner files for earlier file detection in ");
    LogLineExtends(SortingLine, name);
    LogsHaveNoVerdict([SortingLine + name]);
    assert |SortedLine| == 34;
    assert NoVerdict([SortedLine]);
  }

  /** The verdict directives of a run past the gate. */
  lemma DispatchVerdict(h: Host, sort: Step, cleanup: Step)
    requires PassesGate(h) && NoVerdict(sort.effects.output) && NoVerdict(cleanup.effects.output)
    ensures var out := Dispatch(h, sort, cleanup).effects.output;
      && (MarkBadLine in out <==> ScanCompletes(h, sort) && Flagged(h))
      && (BannedLine in out <==> ScanCompletes(h, sort) && Flagged(h))
      && (ClearBannedLine in out <==>
            ScanCompletes(h, sort) && !Flagged(h) && h.Get("NZBPR_PPSTATUS_BANNED") == Some("yes"))
  {
    if HasContext(h) {
      var dir := h.env[Prefix(h) + "DIRECTORY"];
      var name := h.env[Prefix(h) + "NZBNAME"];
      var pre := Preamble(h, name, sort);
      PreambleNoVerdict(h, name, sort);
      if ScanCompletes(h, sort) {
        ReportedVerdict(h, pre, name, FirstBanned(h.fs.listings[dir], BannedList(h)), cleanup);
      } else if !(SortTriggered(h) && (sort.crashed || h.Get("NZBNA_EVENT") == Some("NZB_ADDED"))) {
        TagsLog();
        LogLineExtends(InfoTag, "Detecting banned files in ");
        LogLineExtends(DetectingLine, name);
        LogsHaveNoVerdict([DetectingLine + name]);
        assert NoVerdict(pre.output + [DetectingLine + name]);
      }
    }
  }

  /** The verdict directives of a run: `PPSTATUS_BANNED=yes` and `MARK=BAD`
      are printed exactly when detection scans the directory and finds a banned
      file, and the clearing directive exactly when it scans without finding
      one for a download an earlier run had flagged, as long as sorting and the
      cleanup print no such directive themselves. */
  lemma VerdictOnlyOnMatch(h: Host, sort: Step, cleanup: Step)
    requires NoVerdict(sort.effects.output) && NoVerdict(cleanup.effects.output)
    ensures var out := Main(h, sort, cleanup).effects.output;
      && (MarkBadLine in out <==> ScanCompletes(h, sort) && Flagged(h))
      && (BannedLine in out <==> ScanCompletes(h, sort) && Flagged(h))
      && (ClearBannedLine in out <==>
            ScanCompletes(h, sort) && !Flagged(h) && h.Get("NZBPR_PPSTATUS_BANNED") == Some("yes"))
  {
    if PassesGate(h) {
      Proceeds(h, sort, cleanup);
      DispatchVerdict(h, sort, cleanup);
    } else {
      HaltNoVerdict(h, sort, cleanup);
      assert !ScanCompletes(h, sort);
      var out := Main(h, sort, cleanup).effects.output;
      assert MarkBadLine !in out && BannedLine !in out && ClearBannedLine !in out;
    }
  }

  // ---------------------------------------------------------------------------
  // What a whole run does with the real sorting and cleanup
  // ---------------------------------------------------------------------------

  /** The file-moving commands among some calls. */
  function Moves(calls: seq<HostCall>): seq<HostCall> {
    if calls == [] then []
    else Moves(calls[..|calls| - 1]) + (if calls[|calls| - 1].EditQueue? then [calls[|calls| - 1]] else [])
  }

  lemma {:induction false} MovesAppend(a: seq<HostCall>, b: seq<HostCall>)
    ensures Moves(a + b) == Moves(a) + Moves(b)
    decreases |b|
  {
    if b == [] {
      assert a + b == a;
    } else {
      assert (a + b)[..|a + b| - 1] == a + b[..|b| - 1];
      MovesAppend(a, b[..|b| - 1]);
    }
  }

  /** After its query, sorting sends at most one command: `FileMoveTop` for the
      selected volume, exactly when its ID is non-zero. */
  lemma SortAfterQueryCalls(query: HostCall, sel: Selection)
    requires query.JsonRpc?
    ensures SortAfterQuery(query, sel).effects.removed == []
    ensures |Moves(SortAfterQuery(query, sel).effects.calls)| <= 1
    ensures Moves(SortAfterQuery(query, sel).effects.calls) != [] ==>
      sel.Volume? && sel.pick.id != 0 && Moves(SortAfterQuery(query, sel).effects.calls) == [MoveTop(sel.pick.id)]
    ensures sel.Volume? && sel.pick.id != 0 ==> Moves(SortAfterQuery(query, sel).effects.calls) == [MoveTop(sel.pick.id)]
    ensures SortAfterQuery(query, sel).crashed <==> sel.Unreadable?
    ensures SortAfterQuery(query, sel).crashed ==> SortAfterQuery(query, sel).effects.output == []
    ensures Moves(SortAfterQuery(query, sel).effects.calls) != [] ==>
      SortAfterQuery(query, sel).effects.output == [MovingLine + sel.pick.name]
    ensures !SortAfterQuery(query, sel).crashed && Moves(SortAfterQuery(query, sel).effects.calls) == [] ==>
      SortAfterQuery(query, sel).effects.output == [SkippingLine]
  {
    var calls := SortAfterQuery(query, sel).effects.calls;
    assert [query][..0] == [];
    assert Moves([query]) == [];
    if |calls| == 2 {
      assert calls[..1] == [query];
    }
  }

  /** Sorting queries the NZB's file list and then sends at most one command:
      `FileMoveTop` for the selected volume, exactly when its ID is non-zero. */
  lemma SortStepCalls(h: Host)
    ensures SortStep(h).effects.removed == []
    ensures |Moves(SortStep(h).effects.calls)| <= 1
    ensures Moves(SortStep(h).effects.calls) != [] ==>
      && Selected(h.fileLines).Volume? && Selected(h.fileLines).pick.id != 0
      && Moves(SortStep(h).effects.calls) == [MoveTop(Selected(h.fileLines).pick.id)]
    ensures !SortStep(h).crashed && Selected(h.fileLines).Volume? && Selected(h.fileLines).pick.id != 0 ==>
      Moves(SortStep(h).effects.calls) == [MoveTop(Selected(h.fileLines).pick.id)]
  {
    var nzbId := if h.Get("NZBNA_NZBID").Some? then ParseInt(h.Get("NZBNA_NZBID").value) else None;
    if nzbId.Some? && CanCall(h) {
      SortAfterQueryCalls(JsonRpc("listfiles?1=0&2=0&3=" + IntToDecimal(nzbId.value)), Selected(h.fileLines));
    }
  }

  /** Sorting prints log lines only, never a directive. */
  lemma SortStepOnlyLogs(h: Host)
    ensures LogsOnly(SortStep(h).effects.output)
  {
    var nzbId := if h.Get("NZBNA_NZBID").Some? then ParseInt(h.Get("NZBNA_NZBID").value) else None;
    if nzbId.Some? && CanCall(h) {
      SortAfterQueryOnlyLogs(JsonRpc("listfiles?1=0&2=0&3=" + IntToDecimal(nzbId.value)), Selected(h.fileLines));
    }
  }

  lemma SortAfterQueryOnlyLogs(query: HostCall, sel: Selection)
    ensures LogsOnly(SortAfterQuery(query, sel).effects.output)
  {
    TagsLog();
    LogLineExtends(InfoTag, "Skipping sorting since could not find any rar-files");
    LogLineExtends(InfoTag, "Moving last rar-file to the top: ");
    if sel.Volume? {
      LogLineExtends(MovingLine, sel.pick.name);
    }
  }

  /** `FileMoveTop` is sent at most once in a run, only by a sorting run, and
      always for the selected volume, whose ID is non-zero; a sorting run that
      completes with such a volume sends it. */
  lemma MoveTopAtMostOnce(h: Host)
    ensures |Moves(Hook(h).effects.calls)| <= 1
    ensures Moves(Hook(h).effects.calls) != [] ==>
      && SortTriggered(h)
      && Selected(h.fileLines).Volume? && Selected(h.fileLines).pick.id != 0
      && Moves(Hook(h).effects.calls) == [MoveTop(Selected(h.fileLines).pick.id)]
    ensures SortRuns(h) && !SortStep(h).crashed && Selected(h.fileLines).Volume? && Selected(h.fileLines).pick.id != 0 ==>
      Moves(Hook(h).effects.calls) == [MoveTop(Selected(h.fileLines).pick.id)]
  {
    SortStepCalls(h);
    var ctx := Context(h.Get("NZBPP_NZBID"), h.Get("NZBOP_TEMPDIR"), h.fs, CanCall(h), h.groupLines);
    CleanUpQueries(ctx);
    assert Moves(Cleanup(h).effects.calls) == [] by {
      assert [JsonRpc("listgroups?1=0")][..0] == [];
    }
    MovesOfRun(h, SortStep(h), Cleanup(h));
  }

  /** The moves of a run are those of sorting, when sorting ran, as long as
      the cleanup sends none. */
  lemma MovesOfRun(h: Host, sort: Step, cleanup: Step)
    requires Moves(cleanup.effects.calls) == []
    ensures Moves(Main(h, sort, cleanup).effects.calls) == if SortRuns(h) then Moves(sort.effects.calls) else []
  {
    CallsInOrder(h, sort, cleanup);
    MovesAppend(if SortRuns(h) then sort.effects.calls else [],
                if CleanupRuns(h, sort) then cleanup.effects.calls else []);
  }

  /** In queue mode a run that `startCheck` lets go on removes no marker. */
  lemma QueueModeLeavesMarkers(h: Host)
    requires PassesGate(h) && "NZBNA_EVENT" in h.env
    ensures Hook(h).effects.removed == []
  {
    QueueModeSkipsCleanup(h, SortStep(h), Cleanup(h));
    SortStepCalls(h);
  }

  /** The whole invocation prints `PPSTATUS_BANNED=yes` and `MARK=BAD` exactly
      when detection scans the download's directory and finds a banned file,
      and the clearing directive exactly when it finds none for a download an
      earlier run had flagged. */
  lemma HookVerdict(h: Host)
    ensures var out := Hook(h).effects.output;
      && (MarkBadLine in out <==> ScanCompletes(h, SortStep(h)) && Flagged(h))
      && (BannedLine in out <==> ScanCompletes(h, SortStep(h)) && Flagged(h))
      && (ClearBannedLine in out <==>
            ScanCompletes(h, SortStep(h)) && !Flagged(h) && h.Get("NZBPR_PPSTATUS_BANNED") == Some("yes"))
  {
    SortStepOnlyLogs(h);
    LogsHaveNoVerdict(SortStep(h).effects.output);
    CleanUpOnlyLogs(Context(h.Get("NZBPP_NZBID"), h.Get("NZBOP_TEMPDIR"), h.fs, CanCall(h), h.groupLines));
    LogsHaveNoVerdict(Cleanup(h).effects.output);
    VerdictOnlyOnMatch(h, SortStep(h), Cleanup(h));
  }
}
