/**
  The banned-extension option and the directory scan (`detectBannedFile`).
 */
module BannedExtensions {
  import opened Wrappers
  import opened PyText
  import opened HostIo

  /** The extension list read from `NZBPO_BANNEDEXTENSIONS` (absent means the
      empty text): every space removed, then split on commas. */
  function ParseBannedExtensions(option: Option<string>): (r: seq<string>)
    ensures |r| >= 1
    ensures forall k :: 0 <= k < |r| ==> ' ' !in r[k] && ',' !in r[k]
    ensures Join(r, ',') == RemoveAll(option.GetOr(""), ' ')
  {
    var r := Split(RemoveAll(option.GetOr(""), ' '), ',');
    PiecesAvoid(r, ',', ' ');
    r
  }

  /** A character missing from a joined text is missing from every piece. */
  lemma {:induction false} PiecesAvoid(parts: seq<string>, sep: char, c: char)
    requires c !in Join(parts, sep)
    ensures forall k :: 0 <= k < |parts| ==> c !in parts[k]
  {
    if |parts| > 1 {
      var rest := Join(parts[1..], sep);
      assert Join(parts, sep) == parts[0] + ([sep] + rest);
      assert forall i :: 0 <= i < |parts[0]| ==> parts[0][i] == Join(parts, sep)[i];
      assert forall i :: 0 <= i < |rest| ==> rest[i] == Join(parts, sep)[|parts[0]| + 1 + i];
      PiecesAvoid(parts[1..], sep, c);
      assert forall k :: 1 <= k < |parts| ==> parts[k] == parts[1..][k - 1];
    }
  }

  /** Appending a piece to a join appends the separator and the piece. */
  lemma {:induction false} JoinSnoc(parts: seq<string>, sep: char, x: string)
    requires |parts| >= 1
    ensures Join(parts + [x], sep) == Join(parts, sep) + [sep] + x
  {
    if |parts| > 1 {
      JoinSnoc(parts[1..], sep, x);
      assert (parts + [x])[1..] == parts[1..] + [x];
    }
  }

  /** An unset or empty option bans exactly the empty extension. */
  lemma UnsetOptionBansEmptyExtension(option: Option<string>)
    requires option == None || option == Some("")
    ensures ParseBannedExtensions(option) == [""]
  {
    assert IndexOf("", ',') == -1;
  }

  /** The list is the comma-separated pieces of the option with spaces dropped;
      a trailing comma therefore adds the empty extension. */
  lemma {:induction false} ParsedPieces(option: string, pieces: seq<string>)
    requires |pieces| >= 1
    requires forall k :: 0 <= k < |pieces| ==> ',' !in pieces[k]
    requires RemoveAll(option, ' ') == Join(pieces, ',')
    ensures ParseBannedExtensions(Some(option)) == pieces
  {
    SplitJoin(pieces, ',');
  }

  /** A trailing comma adds the empty extension to the list. */
  lemma TrailingCommaBansEmptyExtension(option: string)
    ensures ParseBannedExtensions(Some(option + ",")) == ParseBannedExtensions(Some(option)) + [""]
  {
    var pieces := ParseBannedExtensions(Some(option));
    RemoveAllAppend(option, ",", ' ');
    assert RemoveAll(",", ' ') == ",";
    JoinSnoc(pieces, ',', "");
    ParsedPieces(option + ",", pieces + [""]);
  }

  /** `os.path.splitext(name)[-1]` */
  function Extension(name: string): string {
    Splitext(name).1
  }

  /** An entry the scan flags: a regular file whose extension is in the list,
      compared exactly (case-sensitively). */
  predicate IsBanned(e: DirEntry, banned: seq<string>) {
    e.isFile && Extension(e.name) in banned
  }

  /** The scan's answer: the first entry, in listing order, that is a banned
      regular file; `None` exactly when there is none. */
  function FirstBanned(entries: seq<DirEntry>, banned: seq<string>): (r: Option<string>)
    ensures r.None? <==> forall k :: 0 <= k < |entries| ==> !IsBanned(entries[k], banned)
    ensures r.Some? ==> exists k :: 0 <= k < |entries| && entries[k].name == r.value
                                 && IsBanned(entries[k], banned)
                                 && forall j :: 0 <= j < k ==> !IsBanned(entries[j], banned)
  {
    if entries == [] then None
    else if IsBanned(entries[0], banned) then Some(entries[0].name)
    else
      var r := FirstBanned(entries[1..], banned);
      FirstBannedSkip(entries, banned, r);
      r
  }

  /** The first banned entry after a non-banned head is the first of the list. */
  lemma FirstBannedSkip(entries: seq<DirEntry>, banned: seq<string>, r: Option<string>)
    requires entries != [] && !IsBanned(entries[0], banned)
    requires r.None? <==> forall k :: 0 <= k < |entries[1..]| ==> !IsBanned(entries[1..][k], banned)
    requires r.Some? ==> exists k :: 0 <= k < |entries[1..]| && entries[1..][k].name == r.value
                                  && IsBanned(entries[1..][k], banned)
                                  && forall j :: 0 <= j < k ==> !IsBanned(entries[1..][j], banned)
    ensures r.None? <==> forall k :: 0 <= k < |entries| ==> !IsBanned(entries[k], banned)
    ensures r.Some? ==> exists k :: 0 <= k < |entries| && entries[k].name == r.value
                                 && IsBanned(entries[k], banned)
                                 && forall j :: 0 <= j < k ==> !IsBanned(entries[j], banned)
  {
    var tail := entries[1..];
    assert forall k :: 1 <= k < |entries| ==> entries[k] == tail[k - 1];
    if r.Some? {
      var k :| 0 <= k < |tail| && tail[k].name == r.value && IsBanned(tail[k], banned)
             && forall j :: 0 <= j < k ==> !IsBanned(tail[j], banned);
      assert entries[k + 1] == tail[k];
      forall j | 0 <= j < k + 1 ensures !IsBanned(entries[j], banned) {
        if j > 0 { assert entries[j] == tail[j - 1]; }
      }
    } else {
      forall k | 0 <= k < |entries| ensures !IsBanned(entries[k], banned) {
        if k > 0 { assert entries[k] == tail[k - 1]; }
      }
    }
  }

  /** A banned entry with none before it is the one the scan answers. */
  lemma FirstBannedAt(entries: seq<DirEntry>, banned: seq<string>, i: nat)
    requires i < |entries| && IsBanned(entries[i], banned)
    requires forall j :: 0 <= j < i ==> !IsBanned(entries[j], banned)
    ensures FirstBanned(entries, banned) == Some(entries[i].name)
  {
    var r := FirstBanned(entries, banned);
    var k :| 0 <= k < |entries| && entries[k].name == r.value && IsBanned(entries[k], banned)
           && forall j :: 0 <= j < k ==> !IsBanned(entries[j], banned);
    assert k == i;
  }

  const FoundLine := InfoTag + "Found file with banned extension: "

  /** The two lines printed on a match. */
  function FoundLines(found: Option<string>): seq<string> {
    match found
    case None => []
    case Some(name) => [FoundLine + name,
                        "[NZB] NZBPR_PPSTATUS_BANNEDFILE=" + name]
  }

  /** `detectBannedFile`: walks the listing and returns at the first regular file
      whose extension is banned, printing its name. */
  method DetectBannedFile(entries: seq<DirEntry>, banned: seq<string>)
    returns (found: Option<string>, output: seq<string>)
    ensures found == FirstBanned(entries, banned)
    ensures output == FoundLines(found)
  {
    var i := 0;
    while i < |entries|
      invariant 0 <= i <= |entries|
      invariant forall j :: 0 <= j < i ==> !IsBanned(entries[j], banned)
    {
      var item := entries[i];
      if item.isFile && Extension(item.name) in banned {
        FirstBannedAt(entries, banned, i);
        found := Some(item.name);
        output := [FoundLine + item.name,
                   "[NZB] NZBPR_PPSTATUS_BANNEDFILE=" + item.name];
        return;
      }
      i := i + 1;
    }
    found, output := None, [];
  }

  /** With the empty extension in the list (the unset option), a regular file
      whose name has no dot is flagged. */
  lemma DotlessFileIsBanned(name: string, banned: seq<string>)
    requires '.' !in name && "" in banned
    ensures IsBanned(DirEntry(name, true), banned)
  {
  }

  /** A name made only of one leading dot and a dotless rest (such as `.nfo`) has
      no extension either, so it is flagged by the empty extension too, and not
      by `.nfo`. */
  lemma HiddenFileHasNoExtension(rest: string)
    requires '.' !in rest && '/' !in rest
    ensures Extension("." + rest) == ""
  {
  }

  /** Matching is exact: an upper-case extension is not caught by its lower-case
      spelling. */
  lemma MatchingIsCaseSensitive()
    ensures !IsBanned(DirEntry("README.NFO", true), [".nfo"])
  {
    assert "README"[0] != '.';
    assert ".NFO"[1..] == "NFO";
    ExtensionOf("README", ".NFO");
  }

  /** The extension of a stem followed by a dot suffix is that suffix. */
  lemma ExtensionOf(stem: string, ext: string)
    requires DotSuffix(ext) && '/' !in stem && exists j :: 0 <= j < |stem| && stem[j] != '.'
    ensures Extension(stem + ext) == ext
  {
    var p := stem + ext;
    var sep := LastIndexOf(p, '/');
    var dot := LastIndexOf(p, '.');
    assert '/' !in p by {
      forall i | 0 <= i < |p| ensures p[i] != '/' {
        if i >= |stem| { assert p[i] == ext[i - |stem|]; } else { assert p[i] == stem[i]; }
      }
    }
    assert sep == -1;
    assert p[|stem|] == '.';
    assert forall i :: |stem| < i < |p| ==> p[i] == ext[1..][i - |stem| - 1];
    assert dot == |stem|;
    var j :| 0 <= j < |stem| && stem[j] != '.';
    assert p[j] == stem[j];
    assert p[..dot] == stem && p[dot..] == ext;
  }
}
