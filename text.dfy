/**
 * String helpers the components share: ECMAScript `String.prototype.trim`, case mapping,
 * `includes`, `split(' ')`, the avatar initials built from them, and the decimal rendering of a
 * non-negative integer inside a template literal.
 */
module Text {

  /**
   * The code points ECMAScript counts as WhiteSpace or LineTerminator, which `trim` removes:
   * TAB, LF, VT, FF, CR, the space separators (category Zs), ZWNBSP, LS and PS.
   */
  predicate IsTrimmable(c: char) {
    c == '\t' || c == '\n' || c == '\U{B}' || c == '\U{C}' || c == '\r' ||
    c == ' ' || c == '\U{A0}' || c == '\U{1680}' || ('\U{2000}' <= c <= '\U{200A}') ||
    c == '\U{2028}' || c == '\U{2029}' || c == '\U{202F}' || c == '\U{205F}' ||
    c == '\U{3000}' || c == '\U{FEFF}'
  }

  /** Every character of `s` is trimmable (this includes the empty string). */
  predicate IsBlank(s: string) {
    forall i :: 0 <= i < |s| ==> IsTrimmable(s[i])
  }

  /** `s` without its leading trimmable characters. */
  function TrimStart(s: string): (r: string)
    ensures |r| <= |s| && r == s[|s| - |r|..]
    ensures forall i :: 0 <= i < |s| - |r| ==> IsTrimmable(s[i])
    ensures r != [] ==> !IsTrimmable(r[0])
  {
    if s != [] && IsTrimmable(s[0]) then TrimStart(s[1..]) else s
  }

  /** `s` without its trailing trimmable characters. */
  function TrimEnd(s: string): (r: string)
    ensures |r| <= |s| && r == s[..|r|]
    ensures forall i :: |r| <= i < |s| ==> IsTrimmable(s[i])
    ensures r != [] ==> !IsTrimmable(r[|r| - 1])
  {
    if s != [] && IsTrimmable(s[|s| - 1]) then TrimEnd(s[..|s| - 1]) else s
  }

  /**
   * `s.trim()`: empty exactly for blank input, otherwise the slice of `s` left once the blank
   * run before it and the blank run after it are cut off, with untrimmable ends.
   */
  function Trim(s: string): (r: string)
    ensures r == [] <==> IsBlank(s)
    ensures r != [] ==> !IsTrimmable(r[0]) && !IsTrimmable(r[|r| - 1])
    ensures exists i :: TrimmedAt(s, r, i)
  {
    var t := TrimStart(s);
    var r := TrimEnd(t);
    var i := |s| - |t|;
    assert s[i..i + |r|] == r;
    assert IsBlank(s[..i]) by {
      forall k | 0 <= k < i ensures IsTrimmable(s[..i][k]) {
        assert s[..i][k] == s[k];
      }
    }
    assert s[i + |r|..] == t[|r|..];
    assert TrimmedAt(s, r, i);
    r
  }

  /** `r` occurs in `s` at index `i`, and everything before and after that occurrence is blank. */
  predicate TrimmedAt(s: string, r: string, i: int) {
    0 <= i <= |s| - |r| && s[i..i + |r|] == r && IsBlank(s[..i]) && IsBlank(s[i + |r|..])
  }


  /** `trim` is idempotent: a trimmed string has nothing left to remove. */
  lemma TrimIdempotent(s: string)
    ensures Trim(Trim(s)) == Trim(s)
  {
  }

  function LowerChar(c: char): char {
    if 'A' <= c <= 'Z' then (c as int + 32) as char else c
  }


  /** `toLowerCase()` over ASCII letters; every other character is kept. */
  function ToLower(s: string): (r: string)
    ensures |r| == |s|
  {
    seq(|s|, i requires 0 <= i < |s| => LowerChar(s[i]))
  }


  /** `t` occurs in `s` starting at index `i`. */
  predicate OccursAt(s: string, t: string, i: int) {
    0 <= i <= |s| - |t| && s[i..i + |t|] == t
  }

  /** `s.includes(t)`: `t` occurs in `s` at some position. */
  predicate Contains(s: string, t: string)
    ensures t == [] ==> Contains(s, t)
    ensures Contains(s, t) ==> |t| <= |s|
    ensures Contains(s, t) && t != [] ==> t[0] in s
    decreases |s|
  {
    t <= s || (s != [] && Contains(s[1..], t))
  }

  /** `Contains` means an occurrence at a position that can be named. */
  lemma {:induction false} ContainsAt(s: string, t: string)
    ensures Contains(s, t) <==> exists i :: OccursAt(s, t, i)
  {
    if s != [] {
      ContainsAt(s[1..], t);
      if exists i :: OccursAt(s, t, i) {
        var i :| OccursAt(s, t, i);
        if i > 0 {
          assert OccursAt(s[1..], t, i - 1);
        } else {
          assert t <= s;
        }
      }
      if Contains(s[1..], t) && !(t <= s) {
        var i :| OccursAt(s[1..], t, i);
        assert OccursAt(s, t, i + 1);
      }
      if t <= s {
        assert OccursAt(s, t, 0);
      }
    } else {
      if t == [] {
        assert OccursAt(s, t, 0);
      }
    }
  }

  /** Lower-casing both sides keeps a case-sensitive occurrence. */
  lemma {:induction false} ContainsToLower(s: string, t: string)
    ensures Contains(s, t) ==> Contains(ToLower(s), ToLower(t))
    decreases |s|
  {
    if t <= s {
      assert ToLower(t) <= ToLower(s);
    } else if s != [] {
      ContainsToLower(s[1..], t);
      assert ToLower(s)[1..] == ToLower(s[1..]);
    }
  }

  /**
   * A UTF-16 code unit. A JavaScript string is a sequence of these: `length`, indexing and
   * `substring` count code units, and a code point above U+FFFF takes two of them.
   */
  newtype CodeUnit = c: int | 0 <= c < 0x1_0000

  const Space: CodeUnit := 0x20

  predicate IsHighSurrogate(u: CodeUnit) {
    0xD800 <= u < 0xDC00
  }

  predicate IsLowSurrogate(u: CodeUnit) {
    0xDC00 <= u < 0xE000
  }

  /** The code units of one code point: itself below U+10000, otherwise a surrogate pair. */
  function EncodeChar(c: char): (units: seq<CodeUnit>)
    ensures |units| == 1 <==> c as int < 0x1_0000
    ensures |units| == 1 ==> units[0] as int == c as int && !IsHighSurrogate(units[0])
    ensures |units| == 2 ==> IsHighSurrogate(units[0]) && IsLowSurrogate(units[1])
    ensures 1 <= |units| <= 2
  {
    if c as int < 0x1_0000 then [c as int as CodeUnit]
    else
      var v := c as int - 0x1_0000;
      [(0xD800 + v / 0x400) as CodeUnit, (0xDC00 + v % 0x400) as CodeUnit]
  }

  /** The JavaScript string holding the text `s`. */
  function Utf16(s: string): (units: seq<CodeUnit>)
    ensures |s| <= |units| <= 2 * |s|
    ensures (forall i :: 0 <= i < |s| ==> s[i] as int < 0x1_0000) ==> |units| == |s|
  {
    if s == [] then [] else EncodeChar(s[0]) + Utf16(s[1..])
  }

  /** Encoding is compositional: the encoding of a concatenation is the concatenation of encodings. */
  lemma {:induction false} Utf16Append(a: string, b: string)
    ensures Utf16(a + b) == Utf16(a) + Utf16(b)
  {
    if a == [] {
      assert a + b == b;
    } else {
      assert (a + b)[0] == a[0];
      assert (a + b)[1..] == a[1..] + b;
      Utf16Append(a[1..], b);
    }
  }

  /** `toUpperCase()` of one code unit, over ASCII letters. */
  function UpperUnit(u: CodeUnit): (r: CodeUnit)
    ensures !(0x61 <= r <= 0x7A)
    ensures 0x61 <= u <= 0x7A ==> r == u - 0x20
  {
    if 0x61 <= u <= 0x7A then u - 0x20 else u
  }

  /** `toUpperCase()` over ASCII letters; every other code unit is kept. */
  function ToUpper(s: seq<CodeUnit>): (r: seq<CodeUnit>)
    ensures |r| == |s|
    ensures forall i :: 0 <= i < |s| ==> r[i] == UpperUnit(s[i])
  {
    seq(|s|, i requires 0 <= i < |s| => UpperUnit(s[i]))
  }

  /** `s.split(' ')`: the pieces between single spaces, empty pieces included. */
  function SplitOnSpace(s: seq<CodeUnit>): (parts: seq<seq<CodeUnit>>)
    ensures |parts| >= 1
    ensures forall k :: 0 <= k < |parts| ==> Space !in parts[k]
  {
    if s == [] then [[]]
    else
      var rest := SplitOnSpace(s[1..]);
      if s[0] == Space then [[]] + rest
      else [[s[0]] + rest[0]] + rest[1..]
  }

  /** `parts.join(' ')`. */
  function JoinWithSpace(parts: seq<seq<CodeUnit>>): seq<CodeUnit>
    requires |parts| >= 1
  {
    if |parts| == 1 then parts[0] else parts[0] + [Space] + JoinWithSpace(parts[1..])
  }

  /** Splitting on spaces loses nothing: joining the pieces with spaces gives the input back. */
  lemma {:induction false} SplitJoinRoundTrip(s: seq<CodeUnit>)
    ensures JoinWithSpace(SplitOnSpace(s)) == s
  {
    if s != [] {
      SplitJoinRoundTrip(s[1..]);
      var rest := SplitOnSpace(s[1..]);
      if s[0] == Space {
        assert ([[]] + rest)[1..] == rest;
      } else {
        var parts := [[s[0]] + rest[0]] + rest[1..];
        if |rest| > 1 {
          assert parts[1..] == rest[1..];
          assert JoinWithSpace(rest) == rest[0] + [Space] + JoinWithSpace(rest[1..]);
        }
      }
    }
  }

  /**
   * `parts.map(n => n[0]).join('')`: `n[0]` is the first code unit of a piece, and of an empty
   * piece it is `undefined`, which joins as "".
   */
  function FirstUnits(parts: seq<seq<CodeUnit>>): seq<CodeUnit> {
    if parts == [] then []
    else (if parts[0] == [] then [] else [parts[0][0]]) + FirstUnits(parts[1..])
  }

  /**
   * The code units of `s` that start a word: non-space units at the start of `s` (when
   * `afterSpace` holds) or right after a space.
   */
  function WordStarts(s: seq<CodeUnit>, afterSpace: bool): seq<CodeUnit> {
    if s == [] then []
    else (if afterSpace && s[0] != Space then [s[0]] else []) + WordStarts(s[1..], s[0] == Space)
  }

  /**
   * `getInitials(name)`: `name.split(' ').map(n => n[0]).join('').toUpperCase()`. At most one
   * code unit per piece, none of them a lower-case ASCII letter.
   */
  function Initials(name: seq<CodeUnit>): (r: seq<CodeUnit>)
    ensures |r| <= |SplitOnSpace(name)|
    ensures forall i :: 0 <= i < |r| ==> !(0x61 <= r[i] <= 0x7A)
  {
    FirstUnitsShorter(SplitOnSpace(name));
    ToUpper(FirstUnits(SplitOnSpace(name)))
  }

  lemma {:induction false} FirstUnitsOfSplit(s: seq<CodeUnit>)
    ensures FirstUnits(SplitOnSpace(s)) == WordStarts(s, true)
    ensures FirstUnits(SplitOnSpace(s)[1..]) == WordStarts(s, false)
  {
    if s != [] {
      FirstUnitsOfSplit(s[1..]);
      var rest := SplitOnSpace(s[1..]);
      if s[0] == Space {
        assert ([[]] + rest)[1..] == rest;
      } else {
        var parts := [[s[0]] + rest[0]] + rest[1..];
        assert parts[1..] == rest[1..];
      }
    }
  }

  /**
   * The initials are the upper-cased first code units of the space-separated words, in order:
   * empty pieces (leading, trailing or doubled spaces) contribute nothing.
   */
  lemma InitialsAreWordStarts(name: seq<CodeUnit>)
    ensures Initials(name) == ToUpper(WordStarts(name, true))
  {
    FirstUnitsOfSplit(name);
  }

  /**
   * A word that starts with a code point above U+FFFF contributes only the high surrogate of its
   * pair: the initial is half a character.
   */
  lemma {:induction false} InitialOfAstralWord(c: char, rest: string)
    requires c as int >= 0x1_0000
    ensures |Initials(Utf16([c] + rest))| >= 1
    ensures IsHighSurrogate(Initials(Utf16([c] + rest))[0])
  {
    var name := Utf16([c] + rest);
    assert ([c] + rest)[1..] == rest;
    assert name == EncodeChar(c) + Utf16(rest);
    InitialsAreWordStarts(name);
    assert name[0] == EncodeChar(c)[0];
    assert WordStarts(name, true) == [name[0]] + WordStarts(name[1..], false);
  }

  lemma {:induction false} FirstUnitsShorter(parts: seq<seq<CodeUnit>>)
    ensures |FirstUnits(parts)| <= |parts|
  {
    if parts != [] {
      FirstUnitsShorter(parts[1..]);
    }
  }


  predicate IsDigit(c: char) {
    '0' <= c <= '9'
  }

  function DigitChar(d: nat): (c: char)
    requires d < 10
    ensures IsDigit(c)
  {
    ('0' as int + d) as char
  }

  /** `${n}` for a non-negative integer: its decimal digits, without leading zeros. */
  function Decimal(n: nat): (r: string)
    ensures |r| >= 1
    ensures forall i :: 0 <= i < |r| ==> IsDigit(r[i])
    ensures r[0] == '0' ==> n == 0
  {
    if n < 10 then [DigitChar(n)] else Decimal(n / 10) + [DigitChar(n % 10)]
  }

  function DigitValue(c: char): nat
    requires IsDigit(c)
  {
    c as int - '0' as int
  }

  /** The number a string of decimal digits denotes. */
  function DecimalValue(s: string): nat
    requires forall i :: 0 <= i < |s| ==> IsDigit(s[i])
  {
    if s == [] then 0 else 10 * DecimalValue(s[..|s| - 1]) + DigitValue(s[|s| - 1])
  }

  /** Reading back the rendered digits gives the number: the rendering is exact and injective. */
  lemma {:induction false} DecimalRoundTrip(n: nat)
    ensures DecimalValue(Decimal(n)) == n
  {
    if n >= 10 {
      DecimalRoundTrip(n / 10);
      var r := Decimal(n);
      assert r[..|r| - 1] == Decimal(n / 10);
    }
  }
}
