/**
  `sort_inner_files`: reads the `listfiles` response line by line and picks
  the split-archive volume with the highest number, so that NZBGet can be
  asked to download it first.
 */
module VolumeSort {
  import opened Wrappers
  import opened PyText

  // ---------------------------------------------------------------------------
  // The two volume patterns, `.*\.part(\d+)\.rar` and `.*\.r(\d+)`, applied
  // with `re.match` (anchored at the start only) and re.IGNORECASE
  // ---------------------------------------------------------------------------

  datatype Pattern = PartRar | RVolume

  /** Where group 1 starts, counted from the dot the pattern's tail begins with. */
  function GroupOffset(p: Pattern): nat {
    match p
    case PartRar => 5
    case RVolume => 2
  }

  /** The part of the pattern after `.*` matches `s` from index `i` on. The digit
      run is the longest one there: `\d+` is greedy and in `.part(\d+)\.rar` the
      character after the digits has to be a dot anyway. */
  predicate TailMatchesAt(p: Pattern, s: string, i: nat) {
    match p
    case PartRar =>
      MatchesAt(s, i, ".part") && var d := DigitRun(s, i + 5); |d| > 0 && MatchesAt(s, i + 5 + |d|, ".rar")
    case RVolume =>
      MatchesAt(s, i, ".r") && i + 2 < |s| && IsDigit(s[i + 2])
  }

  /** How far `.*` can reach: up to the first line break, since `.` does not
      match one, and no less, since `.*` is greedy. */
  function DotStarReach(s: string): (r: nat)
    ensures r <= |s| && '\n' !in s[..r]
    ensures r == |s| || s[r] == '\n'
  {
    var i := IndexOf(s, '\n');
    if i < 0 then |s| else i
  }

  /** Backtracking of the greedy `.*`: the last index at or below `hi` where the
      pattern's tail matches. */
  function RightmostTail(p: Pattern, s: string, hi: nat): (r: Option<nat>)
    ensures r.Some? ==> r.value <= hi && TailMatchesAt(p, s, r.value)
                        && forall j :: r.value < j <= hi ==> !TailMatchesAt(p, s, j)
    ensures r.None? ==> forall j :: 0 <= j <= hi ==> !TailMatchesAt(p, s, j)
  {
    if TailMatchesAt(p, s, hi) then Some(hi)
    else if hi == 0 then None
    else RightmostTail(p, s, hi - 1)
  }

  /** The number a pattern captures when its tail starts at `i`. */
  function GroupValue(p: Pattern, s: string, i: nat): nat
    requires TailMatchesAt(p, s, i)
  {
    DecimalValue(DigitRun(s, i + GroupOffset(p)))
  }

  /** `int(regex.match(s).group(1))`, or `None` when the pattern does not match
      a prefix of `s`. */
  function Capture(p: Pattern, s: string): Option<nat> {
    match RightmostTail(p, s, DotStarReach(s))
    case None => None
    case Some(i) => Some(GroupValue(p, s, i))
  }

  /** `regex1.match(name) or regex2.match(name)`, as a volume number. */
  function VolumeNumber(name: string): Option<nat> {
    var first := Capture(PartRar, name);
    if first.Some? then first else Capture(RVolume, name)
  }

  /** `i` is where the greedy `.*` stops for pattern `p`: the tail matches
      there and at no later index `.*` can reach. */
  predicate RightmostMatch(p: Pattern, s: string, i: nat) {
    i <= DotStarReach(s) && TailMatchesAt(p, s, i)
    && forall j :: i < j <= DotStarReach(s) ==> !TailMatchesAt(p, s, j)
  }

  /** One pattern matches exactly when its tail matches somewhere `.*` can
      reach; the number then comes from the rightmost such place. */
  lemma CaptureMeaning(p: Pattern, s: string)
    ensures Capture(p, s).Some? <==> exists i: nat :: i <= DotStarReach(s) && TailMatchesAt(p, s, i)
    ensures Capture(p, s).Some? ==> exists i :: RightmostMatch(p, s, i)
    ensures forall i :: RightmostMatch(p, s, i) ==> Capture(p, s) == Some(GroupValue(p, s, i))
  {
    RightmostTailFinds(p, s);
    RightmostTailUnique(p, s);
    forall i: nat | RightmostMatch(p, s, i) ensures Capture(p, s) == Some(GroupValue(p, s, i)) {
      assert RightmostTail(p, s, DotStarReach(s)) == Some(i);
    }
  }

  /** The backtracking search finds a match exactly when there is one, and
      what it finds is the rightmost one. */
  lemma RightmostTailFinds(p: Pattern, s: string)
    ensures RightmostTail(p, s, DotStarReach(s)).Some? <==>
      exists i: nat :: i <= DotStarReach(s) && TailMatchesAt(p, s, i)
    ensures RightmostTail(p, s, DotStarReach(s)).Some? ==>
      RightmostMatch(p, s, RightmostTail(p, s, DotStarReach(s)).value)
  {
  }

  /** There is at most one rightmost match. */
  lemma RightmostTailUnique(p: Pattern, s: string)
    ensures forall i: nat :: RightmostMatch(p, s, i) ==> RightmostTail(p, s, DotStarReach(s)) == Some(i)
  {
    var r := RightmostTail(p, s, DotStarReach(s));
    forall i: nat | RightmostMatch(p, s, i) ensures r == Some(i) { }
  }

  /** A name has a volume number exactly when one of the patterns' tails
      matches somewhere `.*` can reach. The number comes from `.part(\d+).rar`
      when that pattern matches, and from `.r(\d+)` only when it does not;
      either way from the rightmost place where the pattern's tail matches. */
  lemma VolumeNumberMeaning(s: string)
    ensures VolumeNumber(s).Some? <==>
      exists i: nat :: i <= DotStarReach(s) && (TailMatchesAt(PartRar, s, i) || TailMatchesAt(RVolume, s, i))
    ensures forall i :: RightmostMatch(PartRar, s, i) ==> VolumeNumber(s) == Some(GroupValue(PartRar, s, i))
    ensures (forall j: nat :: j <= DotStarReach(s) ==> !TailMatchesAt(PartRar, s, j)) ==>
      forall i :: RightmostMatch(RVolume, s, i) ==> VolumeNumber(s) == Some(GroupValue(RVolume, s, i))
  {
    CaptureMeaning(PartRar, s);
    CaptureMeaning(RVolume, s);
  }

  // ---------------------------------------------------------------------------
  // The lines of the `listfiles` response
  // ---------------------------------------------------------------------------

  const IdPrefix := "\"ID\" : "
  const FilenamePrefix := "\"Filename\" : \""

  predicate IsIdLine(line: string) {
    StartsWith(line, IdPrefix)
  }

  predicate IsFilenameLine(line: string) {
    StartsWith(line, FilenamePrefix)
  }

  /** `line[7:len(line)-1]`: the number after `"ID" : `, without the trailing comma. */
  function IdField(line: string): string
    requires IsIdLine(line)
  {
    Slice(line, |IdPrefix|, |line| - 1)
  }

  /** `line[14:len(line)-2]`: the name between the quotes, without `",`. */
  function FilenameField(line: string): string
    requires IsFilenameLine(line)
  {
    Slice(line, |FilenamePrefix|, |line| - 2)
  }

  /** The two prefixes exclude each other (their second characters differ), so
      the loop's two independent `if`s never both apply to one line. */
  lemma PrefixesExclusive(line: string)
    ensures IsIdLine(line) ==> !IsFilenameLine(line)
  {
    if IsIdLine(line) {
      assert line[..|IdPrefix|][1] == 'I' != FilenamePrefix[1];
    }
  }

  /** A response line as the loop sees it: an ID line with its number (none
      when `int()` rejects it), a Filename line with its name and volume number,
      or anything else. */
  datatype LineKind = IdLine(id: Option<int>) | NameLine(name: string, volume: Option<nat>) | OtherLine

  function Classify(line: string): LineKind {
    if IsIdLine(line) then IdLine(ParseInt(IdField(line)))
    else if IsFilenameLine(line) then NameLine(FilenameField(line), VolumeNumber(FilenameField(line)))
    else OtherLine
  }

  // ---------------------------------------------------------------------------
  // The loop, as a fold over the lines
  // ---------------------------------------------------------------------------

  /** The volume picked so far: `file_num`, `file_id`, `file_name`. */
  datatype Pick = Pick(num: nat, id: int, name: string)

  /** The loop's state: `cur_id` (unbound until the first ID line) and the pick,
      or the exception that ends the loop (`int()` on a malformed ID, or
      `cur_id` read before any ID line). */
  datatype Scan = Scanning(curId: Option<int>, best: Option<Pick>) | Aborted

  /** The running maximum offered volume `n` of file `name`:
      `if not file_num or cur_num > file_num` (a pick numbered 0 counts as none),
      and `file_id = cur_id` fails while no ID line has been read. */
  function Offer(curId: Option<int>, best: Option<Pick>, n: nat, name: string): Scan {
    if best.None? || best.value.num == 0 || n > best.value.num then
      match curId
      case None => Aborted
      case Some(id) => Scanning(curId, Some(Pick(n, id, name)))
    else Scanning(curId, best)
  }

  /** One iteration of `for line in data.splitlines()`. */
  function Advance(st: Scan, kind: LineKind): Scan {
    if st.Aborted? then st
    else
      match kind
      case OtherLine => st
      case IdLine(v) => if v.None? then Aborted else Scanning(v, st.best)
      case NameLine(name, volume) => if volume.None? then st else Offer(st.curId, st.best, volume.value, name)
  }

  /** The response lines as the loop sees them. */
  function Kinds(lines: seq<string>): seq<LineKind> {
    seq(|lines|, k requires 0 <= k < |lines| => Classify(lines[k]))
  }

  /** The loop's state after lines of the given kinds. */
  function ScanKinds(kinds: seq<LineKind>): Scan {
    if kinds == [] then Scanning(None, None)
    else Advance(ScanKinds(kinds[..|kinds| - 1]), kinds[|kinds| - 1])
  }

  /** The loop's state after the given lines. */
  function ScanAll(lines: seq<string>): Scan {
    ScanKinds(Kinds(lines))
  }

  /** What the loop leaves for the caller. */
  datatype Selection = Unreadable | NoVolume | Volume(pick: Pick)

  function Outcome(st: Scan): Selection {
    match st
    case Aborted => Unreadable
    case Scanning(_, best) => if best.None? then NoVolume else Volume(best.value)
  }

  function Selected(lines: seq<string>): Selection {
    Outcome(ScanAll(lines))
  }

  lemma {:induction false} AbortedStays(kinds: seq<LineKind>, i: nat)
    requires i <= |kinds| && ScanKinds(kinds[..i]) == Aborted
    ensures ScanKinds(kinds) == Aborted
    decreases |kinds| - i
  {
    if i < |kinds| {
      assert kinds[..i + 1][..i] == kinds[..i];
      AbortedStays(kinds, i + 1);
    } else {
      assert kinds[..i] == kinds;
    }
  }

  /** The state after one more line is one `Advance` further. */
  lemma ScanStep(kinds: seq<LineKind>, i: nat)
    requires i < |kinds|
    ensures ScanKinds(kinds[..i + 1]) == Advance(ScanKinds(kinds[..i]), kinds[i])
  {
    assert kinds[..i + 1][..i] == kinds[..i];
  }

  /** The pick held by `file_num`, `file_id` and `file_name` (none while
      `file_num` is unset). */
  function PickOf(fileNum: Option<nat>, fileId: int, fileName: string): Option<Pick> {
    if fileNum.None? then None else Some(Pick(fileNum.value, fileId, fileName))
  }

  /** The body of the loop of `sort_inner_files` for one line: the ID branch,
      then the Filename branch. `ok` is false where the source raises. */
  method ReadLine(curId: Option<int>, fileNum: Option<nat>, fileId: int, fileName: string, line: string)
    returns (ok: bool, curId': Option<int>, fileNum': Option<nat>, fileId': int, fileName': string)
    ensures ok ==> Advance(Scanning(curId, PickOf(fileNum, fileId, fileName)), Classify(line))
                   == Scanning(curId', PickOf(fileNum', fileId', fileName'))
    ensures !ok ==> Advance(Scanning(curId, PickOf(fileNum, fileId, fileName)), Classify(line)) == Aborted
  {
    PrefixesExclusive(line);
    ok, curId', fileNum', fileId', fileName' := true, curId, fileNum, fileId, fileName;
    if IsIdLine(line) {
      var v := ParseInt(IdField(line));
      if v.None? {
        return false, curId, fileNum, fileId, fileName;
      }
      curId' := v;
    }
    if IsFilenameLine(line) {
      var curName := FilenameField(line);
      var m := VolumeNumber(curName);
      if m.Some? {
        var curNum := m.value;
        if fileNum.None? || fileNum.value == 0 || curNum > fileNum.value {
          if curId'.None? {
            return false, curId, fileNum, fileId, fileName;
          }
          fileNum', fileId', fileName' := Some(curNum), curId'.value, curName;
        }
      }
    }
  }

  /** The loop of `sort_inner_files` over the response lines, with the
      variables of the source. */
  method SortInnerFiles(lines: seq<string>) returns (sel: Selection)
    ensures sel == Selected(lines)
  {
    ghost var kinds := Kinds(lines);
    var curId: Option<int> := None;
    var fileNum: Option<nat> := None;
    var fileId: int := 0;
    var fileName: string := "";
    var i := 0;
    while i < |lines|
      invariant 0 <= i <= |lines|
      invariant ScanKinds(kinds[..i]) == Scanning(curId, PickOf(fileNum, fileId, fileName))
    {
      ScanStep(kinds, i);
      assert kinds[i] == Classify(lines[i]);
      var ok;
      ok, curId, fileNum, fileId, fileName := ReadLine(curId, fileNum, fileId, fileName, lines[i]);
      if !ok {
        AbortedStays(kinds, i + 1);
        return Unreadable;
      }
      i := i + 1;
    }
    assert kinds[..i] == kinds;
    sel := if fileNum.None? then NoVolume else Volume(Pick(fileNum.value, fileId, fileName));
  }

  // ---------------------------------------------------------------------------
  // What the loop computes, stated without the loop
  // ---------------------------------------------------------------------------

  /** `cur_id` after a line, given `cur_id` before it. */
  function NextId(cur: Option<int>, kind: LineKind): Option<int> {
    if kind.IdLine? then kind.id else cur
  }

  /** `cur_id` after lines of the given kinds: the value of the last ID line, if any. */
  function LastId(kinds: seq<LineKind>): Option<int> {
    if kinds == [] then None
    else NextId(LastId(kinds[..|kinds| - 1]), kinds[|kinds| - 1])
  }

  /** `cur_id` is the value of the most recent ID line, and unset before the
      first one. */
  lemma {:induction false} LastIdMeaning(kinds: seq<LineKind>)
    ensures (forall k :: 0 <= k < |kinds| ==> !kinds[k].IdLine?) ==> LastId(kinds) == None
    ensures forall k :: 0 <= k < |kinds| && kinds[k].IdLine? && (forall j :: k < j < |kinds| ==> !kinds[j].IdLine?)
                        ==> LastId(kinds) == kinds[k].id
  {
    if kinds != [] {
      var init := kinds[..|kinds| - 1];
      var last := kinds[|kinds| - 1];
      LastIdMeaning(init);
      assert LastId(kinds) == NextId(LastId(init), last);
      if forall k :: 0 <= k < |kinds| ==> !kinds[k].IdLine? {
        assert forall k :: 0 <= k < |init| ==> !init[k].IdLine? by {
          forall k | 0 <= k < |init| ensures !init[k].IdLine? {
            assert init[k] == kinds[k];
          }
        }
      }
      forall k | 0 <= k < |kinds| && kinds[k].IdLine? && (forall j :: k < j < |kinds| ==> !kinds[j].IdLine?)
        ensures LastId(kinds) == kinds[k].id
      {
        if k < |kinds| - 1 {
          assert !last.IdLine?;
          assert init[k] == kinds[k];
          forall j | k < j < |init| ensures !init[j].IdLine? {
            assert init[j] == kinds[j];
          }
        }
      }
    }
  }

  /** Every ID line holds a number `int()` accepts. */
  predicate IdsReadable(lines: seq<string>) {
    forall k :: 0 <= k < |lines| ==> Classify(lines[k]) != IdLine(None)
  }

  /** A Filename line whose name carries a volume number, with the ID of the
      most recent ID line before it (or none). */
  datatype Candidate = Candidate(id: Option<int>, name: string, num: nat)

  /** The candidate a line contributes, given `cur_id` after it. */
  function Contribution(kind: LineKind, cur: Option<int>): seq<Candidate> {
    match kind
    case NameLine(name, volume) => if volume.Some? then [Candidate(cur, name, volume.value)] else []
    case _ => []
  }

  /** The candidates among lines of the given kinds, in order. */
  function CandidatesOf(kinds: seq<LineKind>): seq<Candidate> {
    if kinds == [] then []
    else CandidatesOf(kinds[..|kinds| - 1]) + Contribution(kinds[|kinds| - 1], LastId(kinds))
  }

  /** The candidates of the listing, in order. */
  function Candidates(lines: seq<string>): seq<Candidate> {
    CandidatesOf(Kinds(lines))
  }

  /** The largest volume number among the candidates, 0 for none. */
  function MaxNum(cs: seq<Candidate>): nat {
    if cs == [] then 0
    else
      var m := MaxNum(cs[..|cs| - 1]);
      if cs[|cs| - 1].num > m then cs[|cs| - 1].num else m
  }

  /** Candidate `k` takes over the running maximum: nothing before it is
      numbered above 0, or it beats everything before it. */
  predicate Replaces(cs: seq<Candidate>, k: nat)
    requires k < |cs|
  {
    MaxNum(cs[..k]) == 0 || cs[k].num > MaxNum(cs[..k])
  }

  /** Some candidate takes over the maximum before any ID line was seen. */
  predicate Unbound(cs: seq<Candidate>) {
    exists k :: 0 <= k < |cs| && Replaces(cs, k) && cs[k].id.None?
  }

  /** `p` is the candidate the running maximum ends on: it has the largest
      number; it is the first with that number, unless that number is 0, in
      which case it is the last candidate. */
  predicate Chosen(cs: seq<Candidate>, p: Pick) {
    exists k :: 0 <= k < |cs| && cs[k] == Candidate(Some(p.id), p.name, p.num)
      && p.num == MaxNum(cs)
      && (p.num > 0 ==> forall j :: 0 <= j < k ==> cs[j].num < p.num)
      && (p.num == 0 ==> k == |cs| - 1)
  }

  lemma {:induction false} MaxNumBounds(cs: seq<Candidate>)
    ensures forall j :: 0 <= j < |cs| ==> cs[j].num <= MaxNum(cs)
  {
    if cs != [] {
      var init := cs[..|cs| - 1];
      MaxNumBounds(init);
      assert forall j :: 0 <= j < |init| ==> cs[j] == init[j];
    }
  }

  lemma ReplacesKept(cs: seq<Candidate>, c: Candidate, k: nat)
    requires k < |cs|
    ensures Replaces(cs + [c], k) == Replaces(cs, k)
  {
    assert (cs + [c])[..k] == cs[..k];
  }

  lemma UnboundSnoc(cs: seq<Candidate>, c: Candidate)
    ensures Unbound(cs + [c]) <==> Unbound(cs) || (Replaces(cs + [c], |cs|) && c.id.None?)
  {
    var cs' := cs + [c];
    forall k | 0 <= k < |cs| ensures Replaces(cs', k) == Replaces(cs, k) && cs'[k] == cs[k] {
      ReplacesKept(cs, c, k);
    }
    if Unbound(cs') {
      var k :| 0 <= k < |cs'| && Replaces(cs', k) && cs'[k].id.None?;
      if k < |cs| { assert Replaces(cs, k) && cs[k].id.None?; }
    }
  }

  /** What a loop state says about the lines read so far, given whether their
      ID lines are readable, the last ID read and the candidates met. */
  ghost predicate Summarises(st: Scan, readable: bool, cur: Option<int>, cs: seq<Candidate>) {
    && (st.Aborted? <==> !readable || Unbound(cs))
    && (st.Scanning? ==> st.curId == cur)
    && (st.Scanning? ==> (st.best.None? <==> cs == []))
    && (st.Scanning? && st.best.Some? ==> Chosen(cs, st.best.value))
  }

  /** No ID line among lines of the given kinds is malformed. */
  predicate Readable(kinds: seq<LineKind>) {
    forall k :: 0 <= k < |kinds| ==> kinds[k] != IdLine(None)
  }

  /** The loop's state after every prefix summarises that prefix. */
  lemma {:induction false} ScanSummarises(kinds: seq<LineKind>)
    ensures Summarises(ScanKinds(kinds), Readable(kinds), LastId(kinds), CandidatesOf(kinds))
  {
    if kinds != [] {
      var init := kinds[..|kinds| - 1];
      var kind := kinds[|kinds| - 1];
      ScanSummarises(init);
      assert Readable(kinds) == (Readable(init) && kind != IdLine(None)) by {
        assert forall k :: 0 <= k < |init| ==> kinds[k] == init[k];
      }
      assert LastId(kinds) == NextId(LastId(init), kind);
      assert CandidatesOf(kinds) == CandidatesOf(init) + Contribution(kind, NextId(LastId(init), kind));
      assert ScanKinds(kinds) == Advance(ScanKinds(init), kind);
      AdvanceSummarises(ScanKinds(init), kind, Readable(init), LastId(init), CandidatesOf(init));
    }
  }

  /** One iteration keeps the summary true. */
  lemma AdvanceSummarises(st: Scan, kind: LineKind, readable: bool, cur: Option<int>, cs: seq<Candidate>)
    requires Summarises(st, readable, cur, cs)
    ensures Summarises(Advance(st, kind), readable && kind != IdLine(None), NextId(cur, kind),
                       cs + Contribution(kind, NextId(cur, kind)))
  {
    var cur' := NextId(cur, kind);
    var extra := Contribution(kind, cur');
    if extra == [] {
      assert cs + extra == cs;
    } else {
      var c := extra[0];
      assert extra == [c];
      UnboundSnoc(cs, c);
      if st.Scanning? && kind != IdLine(None) {
        OfferSummarises(cur', st.best, cs, c);
      }
    }
  }

  /** Offering one more candidate keeps the pick the running maximum. */
  lemma OfferSummarises(curId: Option<int>, best: Option<Pick>, cs: seq<Candidate>, c: Candidate)
    requires c.id == curId
    requires best.None? <==> cs == []
    requires best.Some? ==> Chosen(cs, best.value)
    ensures Offer(curId, best, c.num, c.name).Aborted? <==> Replaces(cs + [c], |cs|) && c.id.None?
    ensures Offer(curId, best, c.num, c.name).Scanning? ==>
      Offer(curId, best, c.num, c.name).curId == curId
      && Offer(curId, best, c.num, c.name).best.Some?
      && Chosen(cs + [c], Offer(curId, best, c.num, c.name).best.value)
  {
    var cs' := cs + [c];
    assert cs'[..|cs|] == cs;
    assert forall j :: 0 <= j < |cs| ==> cs'[j] == cs[j];
    assert MaxNum(cs') == if c.num > MaxNum(cs) then c.num else MaxNum(cs);
    if best.Some? {
      var p := best.value;
      var k :| 0 <= k < |cs| && cs[k] == Candidate(Some(p.id), p.name, p.num)
        && p.num == MaxNum(cs)
        && (p.num > 0 ==> forall j :: 0 <= j < k ==> cs[j].num < p.num)
        && (p.num == 0 ==> k == |cs| - 1);
      if !(p.num == 0 || c.num > p.num) {
        assert cs'[k] == cs[k];
        assert Chosen(cs', p);
      }
    }
    var updates := best.None? || best.value.num == 0 || c.num > best.value.num;
    assert updates == Replaces(cs', |cs|);
    if updates && curId.Some? {
      var p := Pick(c.num, curId.value, c.name);
      MaxNumBounds(cs);
      assert cs'[|cs|] == Candidate(Some(p.id), p.name, p.num);
      assert Chosen(cs', p);
    }
  }

  /** The selection `sort_inner_files` ends with, against the listing:
      it fails exactly on a malformed ID line or on a volume that would be
      picked before any ID line; it finds nothing exactly when no Filename line
      carries a volume number; otherwise it picks the highest-numbered volume
      (the first of them, or the last candidate when all are numbered 0),
      together with the ID that precedes that same Filename line. */
  lemma SelectedVolume(lines: seq<string>)
    ensures Selected(lines) == Unreadable <==> !IdsReadable(lines) || Unbound(Candidates(lines))
    ensures Selected(lines) == NoVolume <==> IdsReadable(lines) && Candidates(lines) == []
    ensures Selected(lines).Volume? ==> Chosen(Candidates(lines), Selected(lines).pick)
    ensures Selected(lines).Volume? ==>
      forall k :: 0 <= k < |Candidates(lines)| ==> Candidates(lines)[k].num <= Selected(lines).pick.num
  {
    var kinds := Kinds(lines);
    ScanSummarises(kinds);
    assert IdsReadable(lines) == Readable(kinds) by {
      forall k | 0 <= k < |lines| ensures kinds[k] == Classify(lines[k]) { }
    }
    OutcomeOfSummary(ScanKinds(kinds), Readable(kinds), LastId(kinds), CandidatesOf(kinds));
  }

  /** What the caller sees of a state that summarises the listing. */
  lemma OutcomeOfSummary(st: Scan, readable: bool, cur: Option<int>, cs: seq<Candidate>)
    requires Summarises(st, readable, cur, cs)
    ensures Outcome(st) == Unreadable <==> !readable || Unbound(cs)
    ensures Outcome(st) == NoVolume <==> readable && cs == []
    ensures Outcome(st).Volume? ==> Chosen(cs, Outcome(st).pick)
    ensures Outcome(st).Volume? ==> forall k :: 0 <= k < |cs| ==> cs[k].num <= Outcome(st).pick.num
  {
    MaxNumBounds(cs);
    if Outcome(st).Volume? {
      var p := Outcome(st).pick;
      var k :| 0 <= k < |cs| && cs[k] == Candidate(Some(p.id), p.name, p.num) && p.num == MaxNum(cs);
    }
  }
}
