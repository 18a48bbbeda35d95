/**
 * The few pieces of JavaScript string semantics the authentication code relies on:
 * the white-space class shared by regular expressions (`\s`) and `String.prototype.trim`,
 * the ASCII character ranges `[A-Z]`, `[a-z]`, `[0-9]`, `length` counted in UTF-16
 * code units, and `includes`.
 */
module JsText {
  import opened Types

  /** ECMAScript WhiteSpace and LineTerminator code points: the `\s` class and what `trim` removes. */
  predicate IsWs(c: char)
  {
    var n := c as int;
    n == 0x09 || n == 0x0A || n == 0x0B || n == 0x0C || n == 0x0D || n == 0x20
    || n == 0xA0 || n == 0x1680 || (0x2000 <= n <= 0x200A) || n == 0x2028 || n == 0x2029
    || n == 0x202F || n == 0x205F || n == 0x3000 || n == 0xFEFF
  }

  predicate IsAsciiUpper(c: char) { 'A' <= c <= 'Z' }

  predicate IsAsciiLower(c: char) { 'a' <= c <= 'z' }

  predicate IsAsciiDigit(c: char) { '0' <= c <= '9' }

  /** Every character of `s` is white space (vacuously true of the empty string). */
  predicate IsBlank(s: string)
  {
    forall k | 0 <= k < |s| :: IsWs(s[k])
  }

  /** How many white-space characters `s` starts with: what `trimStart` drops. */
  function LeadingWs(s: string): (n: nat)
    ensures n <= |s|
    ensures forall k | 0 <= k < n :: IsWs(s[k])
    ensures n < |s| ==> !IsWs(s[n])
  {
    if s != [] && IsWs(s[0]) then 1 + LeadingWs(s[1..]) else 0
  }

  /** How many white-space characters `s` ends with: what `trimEnd` drops. */
  function TrailingWs(s: string): (n: nat)
    ensures n <= |s|
    ensures forall k | |s| - n <= k < |s| :: IsWs(s[k])
    ensures n < |s| ==> !IsWs(s[|s| - 1 - n])
  {
    if s != [] && IsWs(s[|s| - 1]) then 1 + TrailingWs(s[..|s| - 1]) else 0
  }

  /**
   * `t` is what is left of `s` once a blank prefix and a blank suffix are cut off, and
   * (unless empty) it starts and ends with a character that is not white space.
   */
  ghost predicate IsTrimOf(s: string, t: string)
  {
    && (exists a | 0 <= a <= |s| - |t| :: OccursAt(s, t, a) && IsBlank(s[..a]) && IsBlank(s[a + |t|..]))
    && (t != [] ==> !IsWs(t[0]) && !IsWs(t[|t| - 1]))
  }

  /** `s.trim()`: white space removed from both ends, and nothing else. */
  function Trim(s: string): (t: string)
    ensures |t| <= |s|
    ensures forall k | 0 <= k < |s| :: IsWs(s[k]) || s[k] in t
    ensures t == [] <==> IsBlank(s)
    ensures t != [] ==> !IsWs(t[0]) && !IsWs(t[|t| - 1])
  {
    var a := LeadingWs(s);
    var e := |s| - TrailingWs(s);
    if e <= a then
      BlankWhenNoCore(s, a, e);
      []
    else
      CoreKeepsInnerChars(s, a, e);
      s[a..e]
  }

  /** The trimmed text is exactly the run between a blank prefix and a blank suffix. */
  lemma TrimIsBlankCut(s: string)
    ensures IsTrimOf(s, Trim(s))
  {
    var a := LeadingWs(s);
    var e := |s| - TrailingWs(s);
    if e <= a {
      BlankWhenNoCore(s, a, e);
      assert s[0..] == s;
      assert OccursAt(s, [], 0) && IsBlank(s[..0]) && IsBlank(s[0..]);
    } else {
      CoreCut(s, a, e);
      var t := s[a..e];
      assert OccursAt(s, t, a) && IsBlank(s[..a]) && IsBlank(s[a + |t|..]);
    }
  }

  /** When the blank prefix and the blank suffix overlap, the whole text is blank. */
  lemma BlankWhenNoCore(s: string, a: nat, e: nat)
    requires a <= |s| && e <= a
    requires forall k | 0 <= k < a :: IsWs(s[k])
    requires forall k | e <= k < |s| :: IsWs(s[k])
    ensures IsBlank(s)
  {
  }

  /** The run between a blank prefix and a blank suffix keeps every other character, and its ends are not white space. */
  lemma CoreKeepsInnerChars(s: string, a: nat, e: nat)
    requires a < e <= |s|
    requires forall k | 0 <= k < a :: IsWs(s[k])
    requires forall k | e <= k < |s| :: IsWs(s[k])
    requires !IsWs(s[a]) && !IsWs(s[e - 1])
    ensures forall k | 0 <= k < |s| :: IsWs(s[k]) || s[k] in s[a..e]
    ensures !IsWs(s[a..e][0]) && !IsWs(s[a..e][e - a - 1])
    ensures !IsBlank(s)
  {
    var t := s[a..e];
    forall k | 0 <= k < |s| && !IsWs(s[k])
      ensures s[k] in t
    {
      assert t[k - a] == s[k];
    }
  }

  /** The run between a blank prefix and a blank suffix, with non-space ends, is a cut of the text with blank ends. */
  lemma CoreCut(s: string, a: nat, e: nat)
    requires a < e <= |s|
    requires forall k | 0 <= k < a :: IsWs(s[k])
    requires forall k | e <= k < |s| :: IsWs(s[k])
    requires !IsWs(s[a]) && !IsWs(s[e - 1])
    ensures var t := s[a..e];
      && OccursAt(s, t, a) && IsBlank(s[..a]) && IsBlank(s[a + |t|..])
      && !IsWs(t[0]) && !IsWs(t[|t| - 1])
  {
    var head, tail := s[..a], s[e..];
    forall k | 0 <= k < |head|
      ensures IsWs(head[k])
    {
      assert head[k] == s[k];
    }
    forall k | 0 <= k < |tail|
      ensures IsWs(tail[k])
    {
      assert tail[k] == s[e + k];
    }
  }

  /** Any text cut from `s` as `trim` describes is the trimmed text: `IsTrimOf` pins the result down. */
  lemma TrimIsUnique(s: string, u: string)
    requires IsTrimOf(s, u)
    ensures u == Trim(s)
  {
    var t := Trim(s);
    TrimIsBlankCut(s);
    var a :| 0 <= a <= |s| - |u| && OccursAt(s, u, a) && IsBlank(s[..a]) && IsBlank(s[a + |u|..]);
    var b :| 0 <= b <= |s| - |t| && OccursAt(s, t, b) && IsBlank(s[..b]) && IsBlank(s[b + |t|..]);
    BlankCutsCoincide(s, u, a, t, b);
  }

  /** `CutsCoincide` with the surrounding white space given as blank slices. */
  lemma BlankCutsCoincide(s: string, u: string, a: nat, t: string, b: nat)
    requires OccursAt(s, u, a) && IsBlank(s[..a]) && IsBlank(s[a + |u|..])
    requires OccursAt(s, t, b) && IsBlank(s[..b]) && IsBlank(s[b + |t|..])
    requires u != [] ==> !IsWs(u[0]) && !IsWs(u[|u| - 1])
    requires t != [] ==> !IsWs(t[0]) && !IsWs(t[|t| - 1])
    ensures u == t
  {
    BlankSlices(s, a, a + |u|);
    BlankSlices(s, b, b + |t|);
    CutsCoincide(s, u, a, t, b);
  }

  /** Two runs of `s`, each with only white space around it and non-space ends, are the same run. */
  lemma CutsCoincide(s: string, u: string, a: nat, t: string, b: nat)
    requires OccursAt(s, u, a) && OccursAt(s, t, b)
    requires forall k | 0 <= k < a :: IsWs(s[k])
    requires forall k | a + |u| <= k < |s| :: IsWs(s[k])
    requires forall k | 0 <= k < b :: IsWs(s[k])
    requires forall k | b + |t| <= k < |s| :: IsWs(s[k])
    requires u != [] ==> !IsWs(u[0]) && !IsWs(u[|u| - 1])
    requires t != [] ==> !IsWs(t[0]) && !IsWs(t[|t| - 1])
    ensures u == t
  {
    if u != [] && t != [] {
      assert s[a] == u[0] && s[b] == t[0];
      FirstNonWsIsUnique(s, a, b);
      assert s[a + |u| - 1] == u[|u| - 1] && s[b + |t| - 1] == t[|t| - 1];
      LastNonWsIsUnique(s, a + |u|, b + |t|);
    }
  }

  /** A blank prefix ending at `a` and a blank suffix starting at `e`, read position by position. */
  lemma BlankSlices(s: string, a: nat, e: nat)
    requires a <= e <= |s|
    requires IsBlank(s[..a]) && IsBlank(s[e..])
    ensures forall k | 0 <= k < a :: IsWs(s[k])
    ensures forall k | e <= k < |s| :: IsWs(s[k])
  {
    forall k | 0 <= k < a
      ensures IsWs(s[k])
    {
      assert s[..a][k] == s[k];
    }
    forall k | e <= k < |s|
      ensures IsWs(s[k])
    {
      assert s[e..][k - e] == s[k];
    }
  }

  /** Two positions that each end a blank prefix and hold a non-space character coincide. */
  lemma FirstNonWsIsUnique(s: string, a: nat, b: nat)
    requires a < |s| && b < |s|
    requires forall k | 0 <= k < a :: IsWs(s[k])
    requires forall k | 0 <= k < b :: IsWs(s[k])
    requires !IsWs(s[a]) && !IsWs(s[b])
    ensures a == b
  {
  }

  /** Two positions that each start a blank suffix and follow a non-space character coincide. */
  lemma LastNonWsIsUnique(s: string, e: nat, f: nat)
    requires 0 < e <= |s| && 0 < f <= |s|
    requires forall k | e <= k < |s| :: IsWs(s[k])
    requires forall k | f <= k < |s| :: IsWs(s[k])
    requires !IsWs(s[e - 1]) && !IsWs(s[f - 1])
    ensures e == f
  {
  }

  /** The number of UTF-16 code units one character takes. */
  function CodeUnits(c: char): nat
  {
    if c as int < 0x1_0000 then 1 else 2
  }

  /** `s.length`: characters outside the Basic Multilingual Plane take two UTF-16 code units. */
  function Utf16Length(s: string): (n: nat)
    ensures |s| <= n <= 2 * |s|
    ensures (forall k | 0 <= k < |s| :: s[k] as int < 0x1_0000) ==> n == |s|
    ensures (forall k | 0 <= k < |s| :: s[k] as int >= 0x1_0000) ==> n == 2 * |s|
  {
    if s == [] then 0 else CodeUnits(s[0]) + Utf16Length(s[1..])
  }

  /** The length of joined text is the sum of the lengths. */
  lemma {:induction false} Utf16LengthAppend(a: string, b: string)
    ensures Utf16Length(a + b) == Utf16Length(a) + Utf16Length(b)
  {
    if a == [] {
      assert a + b == b;
    } else {
      assert (a + b)[1..] == a[1..] + b;
      Utf16LengthAppend(a[1..], b);
    }
  }

  /** Appending one character adds its own code units: one in the Basic Multilingual Plane, two outside it. */
  lemma Utf16LengthAddChar(a: string, c: char)
    ensures Utf16Length(a + [c]) == Utf16Length(a) + CodeUnits(c)
  {
    Utf16LengthAppend(a, [c]);
    assert [c][1..] == [];
  }

  /** Mixed text: `"a🔑b"` is four code units long, one each for the letters and two for the key. */
  lemma MixedTextLengthExample()
    ensures Utf16Length(['a', '\U{1F511}', 'b']) == 4
  {
    var s := ['a', '\U{1F511}', 'b'];
    assert s[1..] == ['\U{1F511}', 'b'];
    assert s[1..][1..] == ['b'];
  }

  /** `s.includes(part)`: `part` occurs in `s` as a contiguous run. */
  predicate Includes(s: string, part: string)
  {
    exists i | 0 <= i <= |s| - |part| :: OccursAt(s, part, i)
  }

  /** `part` starts at position `i` of `s`. */
  predicate OccursAt(s: string, part: string, i: int)
  {
    0 <= i <= |s| - |part| && s[i..i + |part|] == part
  }

  /** The position of the first `c` in `s`, if there is one. */
  function IndexOf(s: string, c: char): (r: Option<nat>)
    ensures r.None? <==> c !in s
    ensures r.Some? ==> r.value < |s| && s[r.value] == c && c !in s[..r.value]
  {
    if s == [] then None
    else if s[0] == c then Some(0)
    else match IndexOf(s[1..], c)
      case None => None
      case Some(i) => assert s[1..][..i] == s[1..i + 1]; Some(i + 1)
  }
}
