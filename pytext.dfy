/**
  The few Python string and integer builtins the hook relies on, restricted to
  ASCII where Python would consult Unicode tables: `str.startswith`, slicing,
  `str.replace(c, '')`, `str.split(sep)`, `str.rfind`, `os.path.splitext`,
  `int(text)` and `str(n)`.
 */
module PyText {
  import opened Wrappers

  // ---------------------------------------------------------------------------
  // Prefixes, slices and single-character searches
  // ---------------------------------------------------------------------------

  /** `s.startswith(prefix)` */
  predicate StartsWith(s: string, prefix: string) {
    |prefix| <= |s| && s[..|prefix|] == prefix
  }

  /** A text starts with anything it is built from. */
  lemma StartsWithPrefix(prefix: string, rest: string)
    ensures StartsWith(prefix + rest, prefix)
  {
    assert (prefix + rest)[..|prefix|] == prefix;
  }

  /** A text that differs from `prefix` at some index inside both does not
      start with it. */
  lemma DiffersFrom(s: string, prefix: string, i: nat)
    requires i < |prefix| && i < |s| && s[i] != prefix[i]
    ensures !StartsWith(s, prefix)
  {
    if |prefix| <= |s| {
      assert s[..|prefix|][i] == s[i];
    }
  }

  /** `s[lo:hi]` for non-negative bounds: both are clamped to `len(s)` and the
      slice is empty when `lo >= hi`. */
  function Slice(s: string, lo: nat, hi: nat): (r: string)
    ensures lo <= hi <= |s| ==> r == s[lo..hi]
    ensures hi <= lo ==> r == ""
  {
    var a := if lo < |s| then lo else |s|;
    var b := if hi < |s| then hi else |s|;
    if a < b then s[a..b] else ""
  }

  /** `s.find(c)`: the first index holding `c`, or -1. */
  function IndexOf(s: string, c: char): (r: int)
    ensures -1 <= r < |s|
    ensures r >= 0 ==> s[r] == c && c !in s[..r]
    ensures r == -1 ==> c !in s
  {
    if s == [] then -1
    else if s[0] == c then 0
    else
      var k := IndexOf(s[1..], c);
      if k < 0 then -1 else k + 1
  }

  /** `s.rfind(c)`: the last index holding `c`, or -1. */
  function LastIndexOf(s: string, c: char): (r: int)
    ensures -1 <= r < |s|
    ensures r >= 0 ==> s[r] == c
    ensures forall j :: r < j < |s| ==> s[j] != c
  {
    if s == [] then -1
    else if s[|s| - 1] == c then |s| - 1
    else LastIndexOf(s[..|s| - 1], c)
  }

  /** `s.replace(c, '')` */
  function RemoveAll(s: string, c: char): (r: string)
    ensures c !in r
  {
    if s == [] then ""
    else
      assert s == [s[0]] + s[1..];
      (if s[0] == c then "" else [s[0]]) + RemoveAll(s[1..], c)
  }

  /** Every other character keeps its number of occurrences, so a text
      without `c` is left as it is. */
  lemma {:induction false} RemoveAllKeeps(s: string, c: char)
    ensures forall d :: d != c ==> multiset(RemoveAll(s, c))[d] == multiset(s)[d]
    ensures c !in s ==> RemoveAll(s, c) == s
  {
    if s != [] {
      RemoveAllKeeps(s[1..], c);
      assert s == [s[0]] + s[1..];
      assert RemoveAll(s, c) == (if s[0] == c then "" else [s[0]]) + RemoveAll(s[1..], c);
    }
  }

  /** Removing a character distributes over concatenation. */
  lemma {:induction false} RemoveAllAppend(a: string, b: string, c: char)
    ensures RemoveAll(a + b, c) == RemoveAll(a, c) + RemoveAll(b, c)
  {
    if a != [] {
      var head := if a[0] == c then "" else [a[0]];
      assert RemoveAll(a + b, c) == head + RemoveAll(a[1..] + b, c) by {
        assert (a + b)[0] == a[0] && (a + b)[1..] == a[1..] + b;
      }
      RemoveAllAppend(a[1..], b, c);
      assert head + (RemoveAll(a[1..], c) + RemoveAll(b, c)) == (head + RemoveAll(a[1..], c)) + RemoveAll(b, c);
    } else {
      assert a + b == b;
    }
  }

  // ---------------------------------------------------------------------------
  // str.split(sep) and its inverse, sep.join(parts)
  // ---------------------------------------------------------------------------

  /** `sep.join(parts)` for a one-character separator. */
  function Join(parts: seq<string>, sep: char): string {
    if |parts| == 0 then ""
    else if |parts| == 1 then parts[0]
    else parts[0] + [sep] + Join(parts[1..], sep)
  }

  /** `s.split(sep)` for a one-character separator: never empty, no piece holds
      the separator, and joining the pieces gives back `s`. */
  function Split(s: string, sep: char): (r: seq<string>)
    ensures |r| >= 1
    ensures forall k :: 0 <= k < |r| ==> sep !in r[k]
    ensures Join(r, sep) == s
    decreases |s|
  {
    var i := IndexOf(s, sep);
    if i < 0 then [s]
    else
      var rest := Split(s[i + 1..], sep);
      assert s == s[..i] + [sep] + s[i + 1..];
      [s[..i]] + rest
  }

  /** Splitting a join of separator-free pieces gives the pieces back. */
  lemma {:induction false} SplitJoin(parts: seq<string>, sep: char)
    requires |parts| >= 1
    requires forall k :: 0 <= k < |parts| ==> sep !in parts[k]
    ensures Split(Join(parts, sep), sep) == parts
  {
    if |parts| == 1 {
      assert IndexOf(parts[0], sep) == -1;
    } else {
      var s := Join(parts, sep);
      var tail := Join(parts[1..], sep);
      assert s == parts[0] + [sep] + tail;
      assert sep !in parts[0];
      assert s[|parts[0]|] == sep;
      assert s[..|parts[0]|] == parts[0];
      assert IndexOf(s, sep) == |parts[0]|;
      assert s[|parts[0]| + 1..] == tail;
      SplitJoin(parts[1..], sep);
      assert parts == [parts[0]] + parts[1..];
    }
  }

  // ---------------------------------------------------------------------------
  // os.path.splitext (posixpath: separator '/', extension separator '.')
  // ---------------------------------------------------------------------------

  /** A candidate extension: a dot followed by no further dot and no slash. */
  predicate DotSuffix(e: string) {
    |e| > 0 && e[0] == '.' && '.' !in e[1..] && '/' !in e
  }

  /** The last path component of `root` has some character other than a dot,
      so a dot after it really starts an extension. */
  ghost predicate HasStem(root: string) {
    exists j :: 0 <= j < |root| && root[j] != '.' && '/' !in root[j..]
  }

  /** `os.path.splitext(p)`: the extension starts at the last dot of the last
      path component, provided some non-dot character of that component comes
      before it; otherwise the extension is empty. */
  function Splitext(p: string): (r: (string, string))
    ensures r.0 + r.1 == p
    ensures r.1 != "" ==> DotSuffix(r.1) && HasStem(r.0)
    ensures r.1 == "" ==> forall k :: 0 <= k <= |p| && DotSuffix(p[k..]) ==> !HasStem(p[..k])
  {
    var sep := LastIndexOf(p, '/');
    var dot := LastIndexOf(p, '.');
    if dot > sep && exists j :: sep + 1 <= j < dot && p[j] != '.' then
      SplitextFound(p, sep, dot);
      (p[..dot], p[dot..])
    else
      SplitextEmpty(p, sep, dot);
      (p, "")
  }

  lemma SplitextFound(p: string, sep: int, dot: int)
    requires sep == LastIndexOf(p, '/') && dot == LastIndexOf(p, '.')
    requires dot > sep && exists j :: sep + 1 <= j < dot && p[j] != '.'
    ensures DotSuffix(p[dot..]) && HasStem(p[..dot])
  {
    var e := p[dot..];
    assert '.' !in e[1..] by {
      forall i | 0 <= i < |e[1..]| ensures e[1..][i] != '.' {
        assert e[1..][i] == p[dot + 1 + i];
      }
    }
    assert '/' !in e by {
      forall i | 0 <= i < |e| ensures e[i] != '/' {
        assert e[i] == p[dot + i];
      }
    }
    var j :| sep + 1 <= j < dot && p[j] != '.';
    var stem := p[..dot];
    assert stem[j] == p[j];
    assert '/' !in stem[j..] by {
      forall i | 0 <= i < |stem[j..]| ensures stem[j..][i] != '/' {
        assert stem[j..][i] == p[j + i];
      }
    }
  }

  lemma SplitextEmpty(p: string, sep: int, dot: int)
    requires sep == LastIndexOf(p, '/') && dot == LastIndexOf(p, '.')
    requires !(dot > sep && exists j :: sep + 1 <= j < dot && p[j] != '.')
    ensures forall k :: 0 <= k <= |p| && DotSuffix(p[k..]) ==> !HasStem(p[..k])
  {
    forall k | 0 <= k <= |p| && DotSuffix(p[k..])
      ensures !HasStem(p[..k])
    {
      assert p[k] == p[k..][0];
      assert forall i :: k < i < |p| ==> p[i] == p[k..][i - k];
      assert dot == k;
      assert '/' !in p[k..];
      assert sep < k;
      forall j | 0 <= j < k && p[..k][j] != '.'
        ensures '/' in p[..k][j..]
      {
        assert p[..k][j] == p[j];
        assert j <= sep;
        assert p[..k][j..][sep - j] == '/';
      }
    }
  }

  // ---------------------------------------------------------------------------
  // Decimal digits, int(text) and str(n)
  // ---------------------------------------------------------------------------

  /** ASCII decimal digits only; other Unicode decimals are not modelled. */
  predicate IsDigit(c: char) {
    '0' <= c <= '9'
  }

  predicate AllDigits(s: string) {
    forall i :: 0 <= i < |s| ==> IsDigit(s[i])
  }

  function DigitValue(c: char): nat
    requires IsDigit(c)
  {
    c as int - '0' as int
  }

  /** The value of a run of decimal digits, most significant first. */
  function DecimalValue(s: string): nat
    requires AllDigits(s)
  {
    if s == [] then 0 else DecimalValue(s[..|s| - 1]) * 10 + DigitValue(s[|s| - 1])
  }

  /** The longest run of digits of `s` that starts at index `i` (what a greedy
      `\d+` or `\d*` takes there). */
  function DigitRun(s: string, i: nat): (r: string)
    requires i <= |s|
    ensures i + |r| <= |s| && r == s[i..i + |r|]
    ensures AllDigits(r)
    ensures i + |r| == |s| || !IsDigit(s[i + |r|])
    decreases |s| - i
  {
    if i < |s| && IsDigit(s[i]) then [s[i]] + DigitRun(s, i + 1) else ""
  }

  function DigitChar(d: nat): (c: char)
    requires d < 10
    ensures IsDigit(c) && DigitValue(c) == d
  {
    ('0' as int + d) as char
  }

  /** `str(n)` for a natural number: its canonical decimal digits. */
  function NatToDecimal(n: nat): (r: string)
    ensures |r| > 0 && AllDigits(r)
    ensures r[0] != '0' || n == 0
    ensures DecimalValue(r) == n
  {
    if n < 10 then [DigitChar(n)]
    else
      var high := NatToDecimal(n / 10);
      var r := high + [DigitChar(n % 10)];
      assert r[..|r| - 1] == high;
      r
  }

  /** `str(n)` (and `'%i' % n`) for any integer. */
  function IntToDecimal(n: int): (r: string)
    ensures |r| > 0
  {
    if n < 0 then "-" + NatToDecimal(-n) else NatToDecimal(n)
  }

  /** The characters `int()` skips around its digits: ASCII whitespace, which for
      Python includes the separators U+001C to U+001F. */
  predicate IsSpace(c: char) {
    c == ' ' || '\t' <= c <= '\r' || '\U{1C}' <= c <= '\U{1F}'
  }

  function TrimStart(s: string): (r: string)
    ensures |r| <= |s| && r == s[|s| - |r|..]
    ensures r == [] || !IsSpace(r[0])
    ensures s != [] && !IsSpace(s[0]) ==> r == s
  {
    if s != [] && IsSpace(s[0]) then TrimStart(s[1..]) else s
  }

  function TrimEnd(s: string): (r: string)
    ensures |r| <= |s| && r == s[..|r|]
    ensures r == [] || !IsSpace(r[|r| - 1])
    ensures s != [] && !IsSpace(s[|s| - 1]) ==> r == s
  {
    if s != [] && IsSpace(s[|s| - 1]) then TrimEnd(s[..|s| - 1]) else s
  }

  /** `text.strip()` as `int()` applies it. */
  function Strip(s: string): string {
    TrimEnd(TrimStart(s))
  }

  /** `int(text)`: optional surrounding whitespace, an optional sign, then at
      least one digit; `None` where Python raises `ValueError`. */
  function ParseInt(s: string): Option<int> {
    var t := Strip(s);
    if t == [] then None
    else if t[0] == '-' || t[0] == '+' then
      var d := t[1..];
      if d != [] && AllDigits(d) then
        Some(if t[0] == '-' then -(DecimalValue(d) as int) else DecimalValue(d))
      else None
    else if AllDigits(t) then Some(DecimalValue(t))
    else None
  }

  /** `int(str(n)) == n`: the decimal text of a number reads back as that number. */
  lemma ParseIntOfDecimal(n: int)
    ensures ParseInt(IntToDecimal(n)) == Some(n)
  {
    var r := IntToDecimal(n);
    assert !IsSpace(r[0]) && !IsSpace(r[|r| - 1]);
    assert Strip(r) == r;
    if n < 0 {
      assert r[1..] == NatToDecimal(-n);
    }
  }

  // ---------------------------------------------------------------------------
  // ASCII case-insensitive comparison (re.IGNORECASE on the letters p, a, r, t)
  // ---------------------------------------------------------------------------

  function Lower(c: char): char {
    if 'A' <= c <= 'Z' then (c as int + 32) as char else c
  }

  /** `s[i:i+len(lit)]` equals the lower-case literal `lit`, ignoring case. */
  predicate MatchesAt(s: string, i: nat, lit: string) {
    i + |lit| <= |s| && forall k :: 0 <= k < |lit| ==> Lower(s[i + k]) == lit[k]
  }
}
