/** The "None or a value" shape the source uses for optional results. */
module Wrappers {

  datatype Option<+T> = None | Some(value: T) {

    /** The carried value, or `default` when there is none. */
    function GetOr(default: T): T {
      match this
      case Some(v) => v
      case None => default
    }
  }
}

/**
  The parts of Python's `str` the program relies on: case mapping (ASCII
  letters only), `strip()`, decimal formatting of a counter, and the
  code-point order that `sorted` uses on strings.
 */
module Text {

  predicate IsAsciiUpper(c: char) { 'A' <= c <= 'Z' }

  predicate IsAsciiLower(c: char) { 'a' <= c <= 'z' }

  function LowerChar(c: char): char {
    if IsAsciiUpper(c) then (c as int + 32) as char else c
  }

  function UpperChar(c: char): char {
    if IsAsciiLower(c) then (c as int - 32) as char else c
  }

  /** `s.lower()` */
  function Lower(s: string): (r: string)
    ensures |r| == |s|
    ensures forall i :: 0 <= i < |s| ==> r[i] == LowerChar(s[i])
  {
    seq(|s|, i requires 0 <= i < |s| => LowerChar(s[i]))
  }

  /** `s.upper()` */
  function Upper(s: string): (r: string)
    ensures |r| == |s|
    ensures forall i :: 0 <= i < |s| ==> r[i] == UpperChar(s[i])
  {
    seq(|s|, i requires 0 <= i < |s| => UpperChar(s[i]))
  }

  lemma UpperIdempotent(s: string)
    ensures Upper(Upper(s)) == Upper(s)
  {
  }

  /** Lower-casing a string lower-cases each of its suffixes. */
  lemma LowerSuffix(s: string, k: nat)
    requires k <= |s|
    ensures Lower(s[k..]) == Lower(s)[k..]
  {
  }

  /** The characters Python's `str.isspace()` accepts, which `strip()` removes. */
  predicate IsSpace(c: char) {
    || c == ' '
    || '\t' <= c <= '\r'
    || '\U{1C}' <= c <= '\U{1F}'
    || c == '\U{85}' || c == '\U{A0}' || c == '\U{1680}'
    || '\U{2000}' <= c <= '\U{200A}'
    || c == '\U{2028}' || c == '\U{2029}' || c == '\U{202F}' || c == '\U{205F}' || c == '\U{3000}'
  }

  function TrimStart(s: string): (r: string)
    ensures |r| <= |s| && r == s[|s| - |r|..]
    ensures forall i :: 0 <= i < |s| - |r| ==> IsSpace(s[i])
    ensures r != [] ==> !IsSpace(r[0])
  {
    if |s| > 0 && IsSpace(s[0]) then TrimStart(s[1..]) else s
  }

  function TrimEnd(s: string): (r: string)
    ensures |r| <= |s| && r == s[..|r|]
    ensures forall i :: |r| <= i < |s| ==> IsSpace(s[i])
    ensures r != [] ==> !IsSpace(r[|r| - 1])
  {
    if |s| > 0 && IsSpace(s[|s| - 1]) then TrimEnd(s[..|s| - 1]) else s
  }

  /** `s.strip()`: the longest middle part of `s` with no white space at either end. */
  function Strip(s: string): (r: string)
    ensures exists i, j :: 0 <= i <= j <= |s| && r == s[i..j]
    ensures r != [] ==> !IsSpace(r[0]) && !IsSpace(r[|r| - 1])
  {
    var t := TrimStart(s);
    var u := TrimEnd(t);
    assert u == s[|s| - |t|..|s| - |t| + |u|];
    u
  }

  predicate IsDigit(c: char) { '0' <= c <= '9' }

  predicate AllDigits(s: string) { forall i :: 0 <= i < |s| ==> IsDigit(s[i]) }

  function DigitChar(d: nat): (c: char)
    requires d < 10
    ensures IsDigit(c)
  {
    ('0' as int + d) as char
  }

  /** `str(n)` for a non-negative integer: its decimal digits, most significant first. */
  function Decimal(n: nat): (r: string)
    ensures |r| >= 1 && AllDigits(r)
    ensures |r| == 1 <==> n < 10
  {
    if n < 10 then [DigitChar(n)] else Decimal(n / 10) + [DigitChar(n % 10)]
  }

  /** Different numbers print differently. */
  lemma {:induction false} DecimalInjective(a: nat, b: nat)
    requires Decimal(a) == Decimal(b)
    ensures a == b
  {
    if a < 10 || b < 10 {
      assert Decimal(a)[0] == Decimal(b)[0];
    } else {
      var da, db := Decimal(a / 10), Decimal(b / 10);
      assert Decimal(a) == da + [DigitChar(a % 10)];
      assert Decimal(b) == db + [DigitChar(b % 10)];
      assert da == Decimal(a)[..|Decimal(a)| - 1];
      assert db == Decimal(b)[..|Decimal(b)| - 1];
      DecimalInjective(a / 10, b / 10);
      assert DigitChar(a % 10) == Decimal(a)[|Decimal(a)| - 1] == DigitChar(b % 10);
    }
  }

  /**
    A run of digits followed by a part that does not start with a digit can
    be split in one way only.
   */
  lemma DigitAt(a: string, x: string, b: string, y: string)
    requires AllDigits(b) && |a| < |b|
    requires a + x == b + y
    ensures x != [] && IsDigit(x[0])
  {
    assert (a + x)[|a|] == (b + y)[|a|] == b[|a|];
  }

  lemma DigitRunSplit(a: string, x: string, b: string, y: string)
    requires AllDigits(a) && AllDigits(b)
    requires x == [] || !IsDigit(x[0])
    requires y == [] || !IsDigit(y[0])
    requires a + x == b + y
    ensures a == b && x == y
  {
    if |a| < |b| {
      DigitAt(a, x, b, y);
      assert false;
    } else if |b| < |a| {
      DigitAt(b, y, a, x);
      assert false;
    }
    assert a == (a + x)[..|a|];
    assert b == (b + y)[..|b|];
    assert x == (a + x)[|a|..];
    assert y == (b + y)[|b|..];
  }

  /** `a <= b` on Python strings: code points compared left to right, a prefix first. */
  predicate LexLe(a: string, b: string)
    decreases |a|
  {
    |a| == 0 || (|b| > 0 && (a[0] < b[0] || (a[0] == b[0] && LexLe(a[1..], b[1..]))))
  }

  lemma {:induction false} LexLeReflexive(a: string)
    ensures LexLe(a, a)
    decreases |a|
  {
    if |a| > 0 {
      LexLeReflexive(a[1..]);
    }
  }

  lemma {:induction false} LexLeTotal(a: string, b: string)
    ensures LexLe(a, b) || LexLe(b, a)
    decreases |a|
  {
    if |a| > 0 && |b| > 0 && a[0] == b[0] {
      LexLeTotal(a[1..], b[1..]);
    }
  }

  lemma {:induction false} LexLeTransitive(a: string, b: string, c: string)
    requires LexLe(a, b) && LexLe(b, c)
    ensures LexLe(a, c)
    decreases |a|
  {
    if |a| > 0 && a[0] == b[0] && b[0] == c[0] {
      LexLeTransitive(a[1..], b[1..], c[1..]);
    }
  }
}

/** File names and the parts of `os.path` the program uses on them. */
module Paths {
  import opened Wrappers

  /**
    A file path as `os.path.join(dir, name)` forms it: `os.path.dirname`
    gives `dir` back and `os.path.basename` gives `name`, which holds no
    path separator.
   */
  datatype Path = Path(dir: string, name: string)

  function LastDot(s: string): (r: Option<nat>)
    ensures r.None? ==> forall i :: 0 <= i < |s| ==> s[i] != '.'
    ensures r.Some? ==> r.value < |s| && s[r.value] == '.'
    ensures r.Some? ==> forall i :: r.value < i < |s| ==> s[i] != '.'
  {
    if |s| == 0 then None
    else if s[|s| - 1] == '.' then Some(|s| - 1)
    else LastDot(s[..|s| - 1])
  }

  /** What `os.path.splitext` can return as the extension: empty, or a dot and no further dot. */
  predicate IsExtension(e: string) {
    e == [] || (e[0] == '.' && forall i :: 1 <= i < |e| ==> e[i] != '.')
  }

  /**
    `os.path.splitext(name)[1]`: the part from the last dot on, or empty
    when there is no dot or only dots come before it (".bashrc").
   */
  function Ext(name: string): (e: string)
    ensures IsExtension(e)
    ensures |e| <= |name| && e == name[|name| - |e|..]
  {
    match LastDot(name)
    case None => []
    case Some(k) => if forall i :: 0 <= i < k ==> name[i] == '.' then [] else name[k..]
  }

  /** A stem with no dot that does not start with one keeps any extension appended to it. */
  lemma ExtOfStemAndExt(stem: string, e: string)
    requires IsExtension(e)
    requires |stem| > 0 && forall i :: 0 <= i < |stem| ==> stem[i] != '.'
    ensures Ext(stem + e) == e
  {
    var s := stem + e;
    if e == [] {
      assert s == stem;
    } else {
      assert s[|stem|] == '.';
      var r := LastDot(s);
      assert r.Some?;
      assert forall i :: 0 <= i < |stem| ==> s[i] == stem[i];
      assert r.value == |stem|;
      assert s[0] == stem[0] != '.';
      assert s[|stem|..] == e;
    }
  }
}
