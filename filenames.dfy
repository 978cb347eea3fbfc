/**
  The string helpers of the data set readers: `file_basename` (on POSIX
  paths, as `os.path.split` and `os.path.join` treat them), `str.split` with
  a one-character separator, and `AWIOrbitThickness.parse_filename`, which
  reads the orbit number from the second `_`-separated token of a name such
  as `CS2_021093_20140401T003839_20140401T004237_B001_AWIPROC01.dat`.
*/
module Filenames {
  import opened Outcomes

  // ---------------------------------------------------------------------
  // str.split(c)

  /** The position of the first c in s, or |s| when there is none. */
  function Find(s: string, c: char): (i: nat)
    ensures i <= |s|
    ensures forall j :: 0 <= j < i ==> s[j] != c
    ensures i < |s| ==> s[i] == c
  {
    if |s| == 0 then 0
    else if s[0] == c then 0
    else 1 + Find(s[1..], c)
  }

  /** `s.split(c)`: the pieces between the occurrences of c, at least one. */
  function Split(s: string, c: char): (parts: seq<string>)
    ensures |parts| >= 1
    ensures forall k :: 0 <= k < |parts| ==> c !in parts[k]
    ensures |parts| == 1 <==> c !in s
    ensures parts[0] == s[..Find(s, c)]
    decreases |s|
  {
    var i := Find(s, c);
    if i == |s| then
      assert s[..i] == s;
      [s]
    else
      [s[..i]] + Split(s[i + 1..], c)
  }

  /** `c.join(parts)`. */
  function Join(parts: seq<string>, c: char): string
    requires |parts| >= 1
  {
    if |parts| == 1 then parts[0] else parts[0] + [c] + Join(parts[1..], c)
  }

  lemma {:induction false} JoinOfSplit(s: string, c: char)
    ensures Join(Split(s, c), c) == s
    decreases |s|
  {
    var i := Find(s, c);
    if i < |s| {
      var parts := Split(s, c);
      var rest := Split(s[i + 1..], c);
      assert parts == [s[..i]] + rest;
      assert parts[1..] == rest;
      JoinOfSplit(s[i + 1..], c);
      calc {
        Join(parts, c);
        parts[0] + [c] + Join(rest, c);
        s[..i] + [c] + s[i + 1..];
        { Around(s, i); }
        s;
      }
    } else {
      assert s[..i] == s;
    }
  }

  lemma Around(s: string, i: nat)
    requires i < |s|
    ensures s == s[..i] + [s[i]] + s[i + 1..]
  {
  }

  lemma {:induction false} SplitOfJoin(parts: seq<string>, c: char)
    requires |parts| >= 1
    requires forall k :: 0 <= k < |parts| ==> c !in parts[k]
    ensures Split(Join(parts, c), c) == parts
  {
    if |parts| > 1 {
      var s := Join(parts, c);
      var rest := Join(parts[1..], c);
      assert s == parts[0] + ([c] + rest);
      FindAfter(parts[0], c, rest);
      assert s[|parts[0]| + 1..] == rest;
      assert s[..|parts[0]|] == parts[0];
      SplitOfJoin(parts[1..], c);
    } else {
      assert parts[0][..Find(parts[0], c)] == parts[0];
    }
  }

  /** In a piece free of c followed by c, the first c is the one after the piece. */
  lemma {:induction false} FindAfter(piece: string, c: char, rest: string)
    requires c !in piece
    ensures Find(piece + ([c] + rest), c) == |piece|
  {
    if |piece| > 0 {
      assert (piece + ([c] + rest))[1..] == piece[1..] + ([c] + rest);
      FindAfter(piece[1..], c, rest);
    }
  }

  // ---------------------------------------------------------------------
  // os.path.split and os.path.join

  /** The start of the last path component: just after the last '/', or 0. */
  function TailStart(p: string): (i: nat)
    ensures i <= |p|
    ensures i == 0 || p[i - 1] == '/'
    ensures forall j :: i <= j < |p| ==> p[j] != '/'
  {
    if |p| == 0 then 0
    else if p[|p| - 1] == '/' then |p|
    else TailStart(p[..|p| - 1])
  }

  /** Below a directory part ending in '/', the last component starts right after it. */
  lemma {:induction false} TailStartAfterDirectory(dir: string, t: string)
    requires |dir| == 0 || dir[|dir| - 1] == '/'
    requires '/' !in t
    ensures TailStart(dir + t) == |dir|
  {
    if |t| > 0 {
      var p := dir + t;
      assert p[..|p| - 1] == dir + t[..|t| - 1];
      assert p[|p| - 1] == t[|t| - 1];
      TailStartAfterDirectory(dir, t[..|t| - 1]);
    } else {
      assert dir + t == dir;
    }
  }

  predicate AllSlashes(s: string) {
    forall j :: 0 <= j < |s| ==> s[j] == '/'
  }

  /** `s.rstrip('/')`. */
  function StripTrailingSlashes(s: string): (r: string)
    ensures r <= s && AllSlashes(s[|r|..])
    ensures |r| == 0 || r[|r| - 1] != '/'
  {
    if |s| == 0 || s[|s| - 1] != '/' then s
    else StripTrailingSlashes(s[..|s| - 1])
  }

  /** `os.path.split(p)`: the directory part (trailing slashes removed unless it is all slashes) and the last component. */
  function SplitPath(p: string): (r: (string, string))
    ensures r.1 == p[TailStart(p)..]
    ensures '/' !in r.1
  {
    var i := TailStart(p);
    var head := p[..i];
    (if |head| > 0 && !AllSlashes(head) then StripTrailingSlashes(head) else head, p[i..])
  }

  /** `os.path.join(a, b)` on POSIX paths: an absolute b replaces a. */
  function JoinPath(a: string, b: string): (r: string)
    ensures |b| > 0 && b[0] == '/' ==> r == b
    ensures !(|b| > 0 && b[0] == '/') ==>
      && |r| == |a| + |b| + (if |a| == 0 || a[|a| - 1] == '/' then 0 else 1)
      && a <= r && r[|r| - |b|..] == b
      && (|r| > |a| + |b| ==> r[|a|] == '/')
  {
    if |b| > 0 && b[0] == '/' then b
    else if |a| == 0 || a[|a| - 1] == '/' then a + b
    else a + "/" + b
  }

  /**
    `file_basename`: the last path component cut at its first '.', and with
    `fullpath` the directory put back in front of it.
  */
  function FileBasename(filename: string, fullpath: bool): (r: string)
    ensures !fullpath ==> var tail := filename[TailStart(filename)..];
      && r <= tail && '/' !in r && '.' !in r
      && (|r| == |tail| || tail[|r|] == '.')
  {
    var (head, tail) := SplitPath(filename);
    var basename := Split(tail, '.')[0];
    if fullpath then JoinPath(head, basename) else basename
  }

  /** Whatever directories and extensions surround a plain name, the base name is that name. */
  lemma FileBasenameOfPath(dir: string, name: string, ext: string)
    requires '/' !in name && '.' !in name && '/' !in ext
    requires |dir| == 0 || dir[|dir| - 1] == '/'
    ensures FileBasename(dir + (name + ("." + ext)), false) == name
  {
    var p := dir + (name + ("." + ext));
    assert '/' !in name + ("." + ext);
    TailStartAfterDirectory(dir, name + ("." + ext));
    assert p[|dir|..] == name + ("." + ext);
    FindAfter(name, '.', ext);
  }

  // ---------------------------------------------------------------------
  // int(token)

  predicate IsDigit(ch: char) {
    '0' <= ch <= '9'
  }

  predicate AllDigits(s: string) {
    forall j :: 0 <= j < |s| ==> IsDigit(s[j])
  }

  function Pow10(n: nat): (r: nat)
    ensures r >= 1
  {
    if n == 0 then 1 else 10 * Pow10(n - 1)
  }

  /** The value of a string of decimal digits, most significant first. */
  function DigitsValue(s: string): (r: nat)
    requires AllDigits(s)
    ensures r < Pow10(|s|)
  {
    if |s| == 0 then 0
    else DigitsValue(s[..|s| - 1]) * 10 + (s[|s| - 1] as int - '0' as int)
  }

  /** `int(token)` on a token of ASCII digits; anything else is a ValueError. */
  function DecimalValue(s: string): (r: Result<int>)
    ensures r.Ok? <==> |s| > 0 && AllDigits(s)
    ensures r.Err? ==> r.error == NotANumber(s)
    ensures r.Ok? ==> 0 <= r.value < Pow10(|s|)
  {
    if |s| > 0 && AllDigits(s) then Ok(DigitsValue(s)) else Err(NotANumber(s))
  }

  /** The shortest decimal spelling of n. */
  function DecimalString(n: nat): (s: string)
    ensures |s| > 0 && AllDigits(s)
  {
    var last := ['0' + (n % 10) as char];
    if n < 10 then last else DecimalString(n / 10) + last
  }

  lemma {:induction false} DecimalValueOfDecimalString(n: nat)
    ensures DecimalValue(DecimalString(n)) == Ok(n)
  {
    var s := DecimalString(n);
    if n >= 10 {
      DecimalValueOfDecimalString(n / 10);
      assert s[..|s| - 1] == DecimalString(n / 10);
    }
  }

  /** Leading zeros do not change the value, so an orbit token may be zero-padded. */
  lemma {:induction false} LeadingZeroIgnored(s: string)
    requires AllDigits(s)
    ensures AllDigits("0" + s) && DigitsValue("0" + s) == DigitsValue(s)
  {
    var z := "0" + s;
    if |s| > 0 {
      assert z[..|z| - 1] == "0" + s[..|s| - 1];
      LeadingZeroIgnored(s[..|s| - 1]);
    }
  }

  // ---------------------------------------------------------------------
  // AWIOrbitThickness.parse_filename

  /** The second '_'-separated token of the base name, read as a decimal orbit number. */
  function OrbitOfFilename(filename: string): (r: Result<int>)
    ensures var tokens := Split(FileBasename(filename, false), '_');
      && (|tokens| < 2 ==> r == Err(TooFewFilenameTokens))
      && (|tokens| >= 2 ==> r == DecimalValue(tokens[1]))
    ensures '_' !in FileBasename(filename, false) ==> r == Err(TooFewFilenameTokens)
  {
    var tokens := Split(FileBasename(filename, false), '_');
    if |tokens| < 2 then Err(TooFewFilenameTokens) else DecimalValue(tokens[1])
  }

  /** A name laid out as mission, orbit and further fields yields the orbit. */
  lemma OrbitOfStructuredName(dir: string, mission: string, orbit: nat, rest: string, ext: string)
    requires '/' !in mission && '.' !in mission && '_' !in mission
    requires '/' !in rest && '.' !in rest && '/' !in ext
    requires |dir| == 0 || dir[|dir| - 1] == '/'
    ensures var name := mission + ("_" + (DecimalString(orbit) + ("_" + rest)));
      OrbitOfFilename(dir + (name + ("." + ext))) == Ok(orbit)
  {
    var digits := DecimalString(orbit);
    var name := mission + ("_" + (digits + ("_" + rest)));
    assert '/' !in digits && '.' !in digits && '_' !in digits by {
      assert forall j :: 0 <= j < |digits| ==> IsDigit(digits[j]);
    }
    FileBasenameOfPath(dir, name, ext);
    SplitAfterPiece(mission, '_', digits + ("_" + rest));
    SplitAfterPiece(digits, '_', rest);
    DecimalValueOfDecimalString(orbit);
  }

  /** Splitting a piece free of c followed by c peels that piece off. */
  lemma SplitAfterPiece(piece: string, c: char, rest: string)
    requires c !in piece
    ensures Split(piece + ([c] + rest), c) == [piece] + Split(rest, c)
  {
    var s := piece + ([c] + rest);
    FindAfter(piece, c, rest);
    assert s[..|piece|] == piece;
    assert s[|piece| + 1..] == rest;
  }
}
