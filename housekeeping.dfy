/**
  `cleanUp`: the marker folder `<NZBOP_TEMPDIR>/BannedFiles` holds one file
  per download, named by its NZBID. The hook removes the markers of downloads
  that are no longer in NZBGet's queue, and the marker of the download being
  post-processed.
 */
module Housekeeping {
  import opened Wrappers
  import opened PyText
  import opened HostIo

  // ---------------------------------------------------------------------------
  // The live NZBIDs, read from the `listgroups` response
  // ---------------------------------------------------------------------------

  const NzbIdPrefix := "\"NZBID\" : "

  predicate IsNzbIdLine(line: string) {
    StartsWith(line, NzbIdPrefix)
  }

  /** What the loop reads from one line: the NZBID `str(int(line[10:len(line)-1]))`
      of an NZBID line (none where `int()` raises), or nothing. */
  datatype GroupLine = Listing(id: Option<string>) | Unrelated

  function ReadGroupLine(line: string): GroupLine {
    if !IsNzbIdLine(line) then Unrelated
    else
      match ParseInt(Slice(line, |NzbIdPrefix|, |line| - 1))
      case None => Listing(None)
      case Some(v) => Listing(Some(IntToDecimal(v)))
  }

  function Reads(lines: seq<string>): seq<GroupLine> {
    seq(|lines|, k requires 0 <= k < |lines| => ReadGroupLine(lines[k]))
  }

  /** One iteration: an NZBID line appends its NZBID, or raises where
      `int()` does; other lines leave the list alone. */
  function Extend(acc: Option<seq<string>>, g: GroupLine): Option<seq<string>> {
    match acc
    case None => None
    case Some(ids) =>
      match g
      case Unrelated => acc
      case Listing(id) => if id.None? then None else Some(ids + [id.value])
  }

  /** The list the loop builds from its readings, or `None` where it raises. */
  function Collect(readings: seq<GroupLine>): Option<seq<string>> {
    if readings == [] then Some([])
    else Extend(Collect(readings[..|readings| - 1]), readings[|readings| - 1])
  }

  /** The list `nzbids` the loop builds from the response lines. */
  function LiveIds(lines: seq<string>): Option<seq<string>> {
    Collect(Reads(lines))
  }

  /** Every NZBID line holds a number `int()` accepts. */
  predicate GroupsReadable(lines: seq<string>) {
    forall k :: 0 <= k < |lines| ==> ReadGroupLine(lines[k]) != Listing(None)
  }

  /** `id` is the canonical spelling of the number on some NZBID line. */
  predicate Listed(lines: seq<string>, id: string) {
    exists k :: 0 <= k < |lines| && ReadGroupLine(lines[k]) == Listing(Some(id))
  }

  lemma {:induction false} CollectMeaning(readings: seq<GroupLine>)
    ensures Collect(readings).Some? <==> forall k :: 0 <= k < |readings| ==> readings[k] != Listing(None)
    ensures Collect(readings).Some? ==>
      forall id :: id in Collect(readings).value <==> exists k :: 0 <= k < |readings| && readings[k] == Listing(Some(id))
  {
    if readings != [] {
      var init := readings[..|readings| - 1];
      CollectMeaning(init);
      assert forall k :: 0 <= k < |init| ==> readings[k] == init[k];
      if Collect(readings).Some? {
        forall id ensures id in Collect(readings).value <==> exists k :: 0 <= k < |readings| && readings[k] == Listing(Some(id)) {
          if k :| 0 <= k < |readings| && readings[k] == Listing(Some(id)) {
            if k < |init| { assert init[k] == Listing(Some(id)); }
          }
          if id in Collect(init).value {
            var k :| 0 <= k < |init| && init[k] == Listing(Some(id));
            assert readings[k] == init[k];
          }
        }
      }
    }
  }

  /** The loop fails exactly on a malformed NZBID line; otherwise it collects
      exactly the canonical spellings of the listed NZBIDs. */
  lemma LiveIdsMeaning(lines: seq<string>)
    ensures LiveIds(lines).Some? <==> GroupsReadable(lines)
    ensures LiveIds(lines).Some? ==> forall id :: id in LiveIds(lines).value <==> Listed(lines, id)
  {
    var readings := Reads(lines);
    CollectMeaning(readings);
    forall k | 0 <= k < |lines| ensures readings[k] == ReadGroupLine(lines[k]) { }
  }

  /** Each collected NZBID is a canonical decimal: `int()` readings it back to the
      same number it was printed from. */
  lemma LiveIdsCanonical(lines: seq<string>, id: string)
    requires LiveIds(lines).Some? && id in LiveIds(lines).value
    ensures exists v :: ParseInt(id) == Some(v) && IntToDecimal(v) == id
  {
    LiveIdsMeaning(lines);
    var k :| 0 <= k < |lines| && ReadGroupLine(lines[k]) == Listing(Some(id));
    var v := ParseInt(Slice(lines[k], |NzbIdPrefix|, |lines[k]| - 1)).value;
    ParseIntOfDecimal(v);
  }

  /** The body of the loop over the `listgroups` response for one line;
      `ok` is false where `int()` raises. */
  method CollectLine(ids: seq<string>, line: string) returns (ok: bool, ids': seq<string>)
    ensures ok ==> Extend(Some(ids), ReadGroupLine(line)) == Some(ids')
    ensures !ok ==> Extend(Some(ids), ReadGroupLine(line)) == None
  {
    ok, ids' := true, ids;
    if IsNzbIdLine(line) {
      var curId := ParseInt(Slice(line, |NzbIdPrefix|, |line| - 1));
      if curId.None? {
        return false, ids;
      }
      ids' := ids + [IntToDecimal(curId.value)];
    }
  }

  /** The loop over the `listgroups` response lines (`nzbids.append(str(cur_id))`). */
  method CollectLiveIds(lines: seq<string>) returns (nzbids: Option<seq<string>>)
    ensures nzbids == LiveIds(lines)
  {
    ghost var readings := Reads(lines);
    var ids: seq<string> := [];
    var i := 0;
    while i < |lines|
      invariant 0 <= i <= |lines|
      invariant Collect(readings[..i]) == Some(ids)
    {
      CollectStep(readings, i);
      assert readings[i] == ReadGroupLine(lines[i]);
      var ok;
      ok, ids := CollectLine(ids, lines[i]);
      if !ok {
        CollectStaysFailed(readings, i + 1);
        return None;
      }
      i := i + 1;
    }
    assert readings[..i] == readings;
    nzbids := Some(ids);
  }

  /** One more line extends what was collected so far by that line's reading. */
  lemma CollectStep(readings: seq<GroupLine>, i: nat)
    requires i < |readings|
    ensures Collect(readings[..i + 1]) == Extend(Collect(readings[..i]), readings[i])
  {
    assert readings[..i + 1][..i] == readings[..i];
  }

  lemma {:induction false} CollectStaysFailed(readings: seq<GroupLine>, i: nat)
    requires i <= |readings| && Collect(readings[..i]).None?
    ensures Collect(readings).None?
    decreases |readings| - i
  {
    if i < |readings| {
      assert readings[..i + 1][..i] == readings[..i];
      CollectStaysFailed(readings, i + 1);
    } else {
      assert readings[..i] == readings;
    }
  }

  // ---------------------------------------------------------------------------
  // The markers to remove
  // ---------------------------------------------------------------------------

  predicate NoDuplicates(s: seq<string>) {
    forall i, j :: 0 <= i < j < |s| ==> s[i] != s[j]
  }

  /** `list(set(files) - set(nzbids))`, each name once, in listing order. */
  function Difference(files: seq<string>, live: seq<string>): (r: seq<string>)
    ensures NoDuplicates(r)
    ensures forall m :: m in r <==> m in files && m !in live
  {
    if files == [] then []
    else
      var r := Difference(files[..|files| - 1], live);
      var f := files[|files| - 1];
      assert forall m :: m in files <==> m in files[..|files| - 1] || m == f;
      if f in live || f in r then r else r + [f]
  }

  /** `old_temp_files` once the current download's marker has been added: the
      names `cleanUp` tries to remove are each existing marker whose NZBID is
      no longer in the queue, and the current download's marker if there is
      one; none twice, and nothing that is not a marker. */
  function Doomed(files: seq<string>, live: seq<string>, current: Option<string>): (r: seq<string>)
    ensures NoDuplicates(r)
    ensures forall m :: m in r <==> m in files && (m !in live || current == Some(m))
  {
    var stale := Difference(files, live);
    if current.Some? && current.value in files && current.value !in stale then stale + [current.value]
    else stale
  }

  /** `temp_folder + '/' + str(temp_id)` */
  function MarkerPath(folder: string, id: string): string {
    folder + "/" + id
  }

  /** The paths of the given markers, in order: each lies in the folder, and
      two paths differ exactly when their markers do. */
  function Paths(folder: string, ids: seq<string>): (r: seq<string>)
    ensures |r| == |ids| && forall k :: 0 <= k < |ids| ==> r[k] == MarkerPath(folder, ids[k])
    ensures forall k :: 0 <= k < |r| ==> StartsWith(r[k], folder + "/")
    ensures NoDuplicates(r) <==> NoDuplicates(ids)
  {
    var r := seq(|ids|, k requires 0 <= k < |ids| => MarkerPath(folder, ids[k]));
    PathsInFolder(folder, ids, r);
    r
  }

  /** A marker's name is what follows the folder in its path. */
  lemma MarkerPathName(folder: string, id: string)
    ensures StartsWith(MarkerPath(folder, id), folder + "/")
    ensures MarkerPath(folder, id)[|folder| + 1..] == id
  {
    assert MarkerPath(folder, id) == (folder + "/") + id;
  }

  lemma PathsInFolder(folder: string, ids: seq<string>, r: seq<string>)
    requires |r| == |ids| && forall k :: 0 <= k < |ids| ==> r[k] == MarkerPath(folder, ids[k])
    ensures forall k :: 0 <= k < |r| ==> StartsWith(r[k], folder + "/")
    ensures NoDuplicates(r) <==> NoDuplicates(ids)
  {
    forall k | 0 <= k < |r| ensures StartsWith(r[k], folder + "/") && r[k][|folder| + 1..] == ids[k] {
      MarkerPathName(folder, ids[k]);
    }
  }

  const RemovingLine := DetailTag + "Removing temp file "
  const RemoveFailedLine := ErrorTag + "Could not remove temp file "

  /** What one removal prints: the attempt, then the error if `os.remove` raised. */
  function RemovalLines(path: string, failing: set<string>): seq<string> {
    [RemovingLine + path] + (if path in failing then [RemoveFailedLine + path] else [])
  }

  /** What the removal loop prints. */
  function RemovalLog(folder: string, ids: seq<string>, failing: set<string>): seq<string> {
    if ids == [] then []
    else RemovalLog(folder, ids[..|ids| - 1], failing) + RemovalLines(MarkerPath(folder, ids[|ids| - 1]), failing)
  }

  /** The removal loop only logs. */
  lemma {:induction false} RemovalLogOnlyLogs(folder: string, ids: seq<string>, failing: set<string>)
    ensures LogsOnly(RemovalLog(folder, ids, failing))
  {
    if ids != [] {
      var path := MarkerPath(folder, ids[|ids| - 1]);
      RemovalLogOnlyLogs(folder, ids[..|ids| - 1], failing);
      LogLineExtends(RemovingLine, path);
      LogLineExtends(RemoveFailedLine, path);
      assert LogsOnly(RemovalLines(path, failing));
    }
  }

  /** The removal loop: every marker is attempted once, in order; an `os.remove`
      that raises is reported and the loop goes on. */
  method RemoveMarkers(folder: string, ids: seq<string>, failing: set<string>)
    returns (output: seq<string>, attempted: seq<string>)
    ensures output == RemovalLog(folder, ids, failing)
    ensures attempted == Paths(folder, ids)
  {
    output, attempted := [], [];
    var i := 0;
    while i < |ids|
      invariant 0 <= i <= |ids|
      invariant output == RemovalLog(folder, ids[..i], failing)
      invariant attempted == Paths(folder, ids[..i])
    {
      RemovalStep(folder, ids, failing, i);
      var tempFile := MarkerPath(folder, ids[i]);
      output := output + [RemovingLine + tempFile];
      if tempFile in failing {
        output := output + [RemoveFailedLine + tempFile];
      }
      attempted := attempted + [tempFile];
      i := i + 1;
    }
    assert ids[..i] == ids;
  }

  /** One more marker adds its lines to the log and its path to the attempts. */
  lemma RemovalStep(folder: string, ids: seq<string>, failing: set<string>, i: nat)
    requires i < |ids|
    ensures RemovalLog(folder, ids[..i + 1], failing)
         == RemovalLog(folder, ids[..i], failing) + RemovalLines(MarkerPath(folder, ids[i]), failing)
    ensures Paths(folder, ids[..i + 1]) == Paths(folder, ids[..i]) + [MarkerPath(folder, ids[i])]
  {
    assert ids[..i + 1][..i] == ids[..i];
  }

  /** The log lines that are not error reports. */
  function WithoutErrors(lines: seq<string>): seq<string> {
    if lines == [] then []
    else
      var rest := WithoutErrors(lines[..|lines| - 1]);
      var line := lines[|lines| - 1];
      if StartsWith(line, RemoveFailedLine) then rest else rest + [line]
  }

  lemma {:induction false} WithoutErrorsAppend(a: seq<string>, b: seq<string>)
    ensures WithoutErrors(a + b) == WithoutErrors(a) + WithoutErrors(b)
    decreases |b|
  {
    if b == [] {
      assert a + b == a;
    } else {
      var b0 := b[..|b| - 1];
      assert (a + b)[..|a + b| - 1] == a + b0;
      WithoutErrorsAppend(a, b0);
    }
  }

  /** Without its error line, one removal prints only its `Removing` line. */
  lemma RemovalLinesWithoutErrors(path: string, failing: set<string>)
    ensures WithoutErrors(RemovalLines(path, failing)) == [RemovingLine + path]
  {
    DiffersFrom(RemovingLine + path, RemoveFailedLine, 1);
    assert WithoutErrors([RemovingLine + path]) == [RemovingLine + path];
    if path in failing {
      StartsWithPrefix(RemoveFailedLine, path);
      var two := [RemovingLine + path, RemoveFailedLine + path];
      assert two[..1] == [RemovingLine + path];
      assert RemovalLines(path, failing) == two;
    }
  }

  /** A failed removal changes nothing but the error line it adds: without
      those lines the log is the log of a run where every removal succeeds,
      one `Removing` line per marker. */
  lemma {:induction false} FailuresOnlyAddErrorLines(folder: string, ids: seq<string>, failing: set<string>)
    ensures WithoutErrors(RemovalLog(folder, ids, failing)) == RemovalLog(folder, ids, {})
    ensures |RemovalLog(folder, ids, {})| == |ids|
  {
    if ids != [] {
      var init := ids[..|ids| - 1];
      var path := MarkerPath(folder, ids[|ids| - 1]);
      FailuresOnlyAddErrorLines(folder, init, failing);
      WithoutErrorsAppend(RemovalLog(folder, init, failing), RemovalLines(path, failing));
      RemovalLinesWithoutErrors(path, failing);
      assert RemovalLines(path, {}) == [RemovingLine + path];
    }
  }

  // ---------------------------------------------------------------------------
  // cleanUp
  // ---------------------------------------------------------------------------

  /** What `cleanUp` needs from the outside: NZBPP_NZBID and NZBOP_TEMPDIR,
      the file system, whether the remote-control credentials are set, and
      the `listgroups` response. */
  datatype Context = Context(current: Option<string>, tempDir: Option<string>, fs: FileSystem,
                             canCall: bool, groupLines: seq<string>)

  function MarkerFolder(tempDir: string): string {
    tempDir + "/BannedFiles"
  }

  /** `cleanUp`, as the effects it has. It raises when NZBOP_TEMPDIR is unset
      (`None + str`), when the folder cannot be listed, when the queue must be
      asked but the credentials are missing, or on a malformed NZBID line. */
  function CleanUpStep(ctx: Context): Step {
    if ctx.tempDir.None? then Step(NoEffects, true)
    else
      var folder := MarkerFolder(ctx.tempDir.value);
      match ctx.fs.ListNames(folder)
      case None => Step(NoEffects, true)
      case Some(files) =>
        if |files| > 1 && !ctx.canCall then Step(NoEffects, true)
        else
          var calls := if |files| > 1 then [JsonRpc("listgroups?1=0")] else [];
          var live := if |files| > 1 then LiveIds(ctx.groupLines) else Some([]);
          match live
          case None => Step(Effects([], calls, []), true)
          case Some(ids) =>
            var doomed := Doomed(files, ids, ctx.current);
            Step(Effects(RemovalLog(folder, doomed, ctx.fs.undeletable), calls, Paths(folder, doomed)), false)
  }

  /** `cleanUp`, step by step. */
  method CleanUp(ctx: Context) returns (step: Step)
    ensures step == CleanUpStep(ctx)
  {
    if ctx.tempDir.None? {
      return Step(NoEffects, true);
    }
    var tempFolder := MarkerFolder(ctx.tempDir.value);
    var listed := ctx.fs.ListNames(tempFolder);
    if listed.None? {
      return Step(NoEffects, true);
    }
    var files := listed.value;
    var nzbids: seq<string> := [];
    var calls: seq<HostCall> := [];
    if |files| > 1 {
      if !ctx.canCall {
        return Step(NoEffects, true);
      }
      calls := [JsonRpc("listgroups?1=0")];
      var parsed := CollectLiveIds(ctx.groupLines);
      if parsed.None? {
        return Step(Effects([], calls, []), true);
      }
      nzbids := parsed.value;
    }
    var oldTempFiles := Difference(files, nzbids);
    if ctx.current.Some? && ctx.current.value in files && ctx.current.value !in oldTempFiles {
      oldTempFiles := oldTempFiles + [ctx.current.value];
    }
    var output, removed := RemoveMarkers(tempFolder, oldTempFiles, ctx.fs.undeletable);
    step := Step(Effects(output, calls, removed), false);
  }

  /** With at most one marker the queue is not asked, and every marker is
      removed, the current download's or not. */
  lemma SingleMarkerIsRemoved(ctx: Context, folder: string, files: seq<string>)
    requires ctx.tempDir.Some? && folder == MarkerFolder(ctx.tempDir.value)
    requires ctx.fs.ListNames(folder) == Some(files) && |files| <= 1
    ensures !CleanUpStep(ctx).crashed
    ensures CleanUpStep(ctx).effects.calls == []
    ensures CleanUpStep(ctx).effects.removed == Paths(folder, files)
  {
    if |files| == 1 {
      assert Difference(files, []) == files by {
        assert files[..0] == [];
      }
    }
  }

  /** With two or more markers, the markers removed are exactly the stale ones
      and the current download's: those, and only those, of the folder. */
  lemma RemovedMarkers(ctx: Context, folder: string, files: seq<string>)
    requires ctx.tempDir.Some? && folder == MarkerFolder(ctx.tempDir.value)
    requires ctx.fs.ListNames(folder) == Some(files)
    requires !CleanUpStep(ctx).crashed
    ensures exists live ::
      && CleanUpStep(ctx).effects.removed == Paths(folder, Doomed(files, live, ctx.current))
      && (|files| > 1 ==> LiveIds(ctx.groupLines) == Some(live) && CleanUpStep(ctx).effects.calls == [JsonRpc("listgroups?1=0")])
      && (|files| <= 1 ==> live == [] && CleanUpStep(ctx).effects.calls == [])
  {
    var live := if |files| > 1 then LiveIds(ctx.groupLines).value else [];
    assert CleanUpStep(ctx).effects.removed == Paths(folder, Doomed(files, live, ctx.current));
  }

  /** `cleanUp` asks NZBGet at most one thing, the `listgroups` query. */
  lemma CleanUpQueries(ctx: Context)
    ensures CleanUpStep(ctx).effects.calls == [] || CleanUpStep(ctx).effects.calls == [JsonRpc("listgroups?1=0")]
  {
  }

  /** Every path `cleanUp` tries to remove is that of an existing marker, in the
      marker folder. */
  lemma RemovesOnlyMarkers(ctx: Context)
    ensures CleanUpStep(ctx).effects.removed != [] ==>
      && ctx.tempDir.Some?
      && ctx.fs.ListNames(MarkerFolder(ctx.tempDir.value)).Some?
      && forall k :: 0 <= k < |CleanUpStep(ctx).effects.removed| ==>
           exists m :: m in ctx.fs.ListNames(MarkerFolder(ctx.tempDir.value)).value
                    && CleanUpStep(ctx).effects.removed[k] == MarkerPath(MarkerFolder(ctx.tempDir.value), m)
  {
    var removed := CleanUpStep(ctx).effects.removed;
    if removed != [] {
      var folder := MarkerFolder(ctx.tempDir.value);
      var files := ctx.fs.ListNames(folder).value;
      var live := if |files| > 1 then LiveIds(ctx.groupLines).value else [];
      var doomed := Doomed(files, live, ctx.current);
      assert removed == Paths(folder, doomed);
      forall k | 0 <= k < |removed|
        ensures exists m :: m in files && removed[k] == MarkerPath(folder, m)
      {
        assert doomed[k] in files;
      }
    }
  }

  /** `cleanUp` tries to remove every path at most once: the names come from a
      set difference, and the current download's is only added when missing. */
  lemma RemovesEachOnce(ctx: Context)
    ensures NoDuplicates(CleanUpStep(ctx).effects.removed)
  {
    if ctx.tempDir.Some? && ctx.fs.ListNames(MarkerFolder(ctx.tempDir.value)).Some? {
      var folder := MarkerFolder(ctx.tempDir.value);
      var files := ctx.fs.ListNames(folder).value;
      var live := if |files| > 1 then LiveIds(ctx.groupLines) else Some([]);
      if live.Some? {
        assert CleanUpStep(ctx).effects.removed == Paths(folder, Doomed(files, live.value, ctx.current)) || CleanUpStep(ctx).effects.removed == [];
      }
    }
  }

  /** `cleanUp` prints log lines only, never a directive. */
  lemma CleanUpOnlyLogs(ctx: Context)
    ensures LogsOnly(CleanUpStep(ctx).effects.output)
  {
    if ctx.tempDir.Some? && ctx.fs.ListNames(MarkerFolder(ctx.tempDir.value)).Some? {
      var folder := MarkerFolder(ctx.tempDir.value);
      var files := ctx.fs.ListNames(folder).value;
      var live := if |files| > 1 then LiveIds(ctx.groupLines) else Some([]);
      if live.Some? {
        RemovalLogOnlyLogs(folder, Doomed(files, live.value, ctx.current), ctx.fs.undeletable);
      }
    }
  }
}
