/**
 * The two pure validators of the sign-in form: the email shape accepted by the
 * pattern `^[^\s@]+@[^\s@]+\.[^\s@]+$` and the password complexity rule.
 */
module Credentials {
  import opened Types
  import opened JsText

  /** A non-empty run of characters that are neither white space nor `@`: one `[^\s@]+`. */
  predicate PlainRun(t: string)
  {
    |t| > 0 && forall k | 0 <= k < |t| :: !IsWs(t[k]) && t[k] != '@'
  }

  /**
   * The language of the email pattern, read piece by piece: a plain run, `@`, a plain
   * run, a literal `.`, a plain run, and nothing before or after. The middle run may
   * itself contain dots; the pattern only needs one dot with plain text on both sides.
   */
  ghost predicate MatchesEmailPattern(s: string)
  {
    exists at, dot | 0 <= at < dot < |s| :: SplitsAsEmail(s, at, dot)
  }

  /** `s` reads as local part, `@` at `at`, host, `.` at `dot`, suffix. */
  ghost predicate SplitsAsEmail(s: string, at: int, dot: int)
  {
    && 0 <= at < dot < |s|
    && s[at] == '@' && s[dot] == '.'
    && PlainRun(s[..at]) && PlainRun(s[at + 1..dot]) && PlainRun(s[dot + 1..])
  }

  /** The text contains no white space. */
  predicate NoWs(s: string)
  {
    forall k | 0 <= k < |s| :: !IsWs(s[k])
  }

  /** There is a `.` that is neither the first nor the last character. */
  predicate HasInnerDot(d: string)
  {
    exists j | 0 < j < |d| - 1 :: d[j] == '.'
  }

  /**
   * The email check read as a direct test: no white space, exactly one `@`, something
   * before it, and a dot strictly inside the part after it.
   */
  function ValidateEmail(s: string): (ok: bool)
    ensures ok ==> '@' in s && NoWs(s)
    ensures ok ==> 5 <= |s| && s[0] != '@' && s[|s| - 1] != '@'
  {
    match IndexOf(s, '@')
    case None => false
    case Some(at) => 0 < at && NoWs(s) && '@' !in s[at + 1..] && HasInnerDot(s[at + 1..])
  }

  /** The direct test accepts exactly the strings the pattern matches. */
  lemma ValidateEmailMatchesPattern(s: string)
    ensures ValidateEmail(s) <==> MatchesEmailPattern(s)
  {
    if ValidateEmail(s) {
      var at := IndexOf(s, '@').value;
      var d := s[at + 1..];
      var j :| 0 < j < |d| - 1 && d[j] == '.';
      var dot := at + 1 + j;
      assert s[..at] == s[..at];
      forall k | 0 <= k < at ensures s[..at][k] != '@' {
        assert s[k] in s[..at];
      }
      var host, suffix := s[at + 1..dot], s[dot + 1..];
      forall k | 0 <= k < |host| ensures host[k] != '@' {
        assert host[k] == d[k];
      }
      forall k | 0 <= k < |suffix| ensures suffix[k] != '@' {
        assert suffix[k] == d[j + 1 + k];
      }
      assert SplitsAsEmail(s, at, dot);
    }
    if MatchesEmailPattern(s) {
      var at, dot :| 0 <= at < dot < |s| && SplitsAsEmail(s, at, dot);
      PatternHasNoWs(s, at, dot);
      PatternHasOneAt(s, at, dot);
      assert IndexOf(s, '@') == Some(at);
      assert s[at + 1..][dot - at - 1] == '.';
      assert HasInnerDot(s[at + 1..]);
    }
  }

  lemma PatternHasNoWs(s: string, at: int, dot: int)
    requires SplitsAsEmail(s, at, dot)
    ensures NoWs(s)
  {
    forall k | 0 <= k < |s| ensures !IsWs(s[k]) {
      if k < at { assert s[..at][k] == s[k]; }
      else if at < k < dot { assert s[at + 1..dot][k - at - 1] == s[k]; }
      else if dot < k { assert s[dot + 1..][k - dot - 1] == s[k]; }
    }
  }

  lemma PatternHasOneAt(s: string, at: int, dot: int)
    requires SplitsAsEmail(s, at, dot)
    ensures '@' !in s[..at] && '@' !in s[at + 1..]
  {
    forall k | 0 <= k < |s| && k != at ensures s[k] != '@' {
      if k < at { assert s[..at][k] == s[k]; }
      else if at < k < dot { assert s[at + 1..dot][k - at - 1] == s[k]; }
      else if dot < k { assert s[dot + 1..][k - dot - 1] == s[k]; }
    }
  }

  /** Every address of the shape `x@y.z` with plain, non-empty `x`, `y`, `z` is accepted. */
  lemma ShapedAddressIsValid(x: string, y: string, z: string)
    requires PlainRun(x) && PlainRun(y) && PlainRun(z)
    ensures ValidateEmail(x + "@" + y + "." + z)
  {
    var s := x + "@" + y + "." + z;
    var at := |x|;
    var dot := |x| + 1 + |y|;
    assert s[..at] == x;
    assert s[at + 1..dot] == y;
    assert s[dot + 1..] == z;
    assert SplitsAsEmail(s, at, dot);
    ValidateEmailMatchesPattern(s);
  }

  predicate HasUpper(p: string) { exists k | 0 <= k < |p| :: IsAsciiUpper(p[k]) }

  predicate HasLower(p: string) { exists k | 0 <= k < |p| :: IsAsciiLower(p[k]) }

  predicate HasDigit(p: string) { exists k | 0 <= k < |p| :: IsAsciiDigit(p[k]) }

  /** Minimum password length, counted as JavaScript counts `length`. */
  const MinPasswordLength := 8

  /** At least eight UTF-16 code units, with an ASCII upper-case letter, lower-case letter and digit. */
  function ValidatePasswordComplexity(p: string): (ok: bool)
    ensures ok ==> |p| >= MinPasswordLength / 2 && HasUpper(p) && HasLower(p) && HasDigit(p)
    ensures |p| >= MinPasswordLength && HasUpper(p) && HasLower(p) && HasDigit(p) ==> ok
  {
    Utf16Length(p) >= MinPasswordLength && HasUpper(p) && HasLower(p) && HasDigit(p)
  }

  /** For passwords within the Basic Multilingual Plane the length rule is a plain character count. */
  lemma PasswordLengthIsCharacterCount(p: string)
    requires forall k | 0 <= k < |p| :: p[k] as int < 0x1_0000
    ensures ValidatePasswordComplexity(p) <==> |p| >= MinPasswordLength && HasUpper(p) && HasLower(p) && HasDigit(p)
  {
  }

  /** The rule's stock example of a strong password passes. */
  lemma StrongPasswordExample()
    ensures ValidatePasswordComplexity("Passw0rd")
  {
    var p := "Passw0rd";
    assert IsAsciiUpper(p[0]) && IsAsciiLower(p[1]) && IsAsciiDigit(p[5]);
    assert forall k | 0 <= k < |p| :: p[k] as int < 0x1_0000;
  }

  /** Passwords missing a class, or too short, fail: `password`, `PASS1234`, `Pw1`. */
  lemma WeakPasswordExamples()
    ensures !ValidatePasswordComplexity("password")
    ensures !ValidatePasswordComplexity("PASS1234")
    ensures !ValidatePasswordComplexity("Pw1")
  {
    var a, b := "password", "PASS1234";
    assert forall k | 0 <= k < |a| :: !IsAsciiUpper(a[k]);
    assert forall k | 0 <= k < |b| :: !IsAsciiLower(b[k]);
  }

  /** Length is counted in UTF-16 code units: six characters, three of them outside the Basic Multilingual Plane, are long enough. */
  lemma LengthCountsCodeUnits()
    ensures var p := "Aa1" + ['\U{1F511}', '\U{1F511}', '\U{1F511}'];
      |p| == 6 && ValidatePasswordComplexity(p)
  {
    var p := "Aa1" + ['\U{1F511}', '\U{1F511}', '\U{1F511}'];
    assert IsAsciiUpper(p[0]) && IsAsciiLower(p[1]) && IsAsciiDigit(p[2]);
    var tail := p[3..];
    assert forall k | 0 <= k < |tail| :: tail[k] as int >= 0x1_0000;
    assert Utf16Length(p) == 1 + Utf16Length(p[1..]);
    assert Utf16Length(p[1..]) == 1 + Utf16Length(p[2..]) by { assert p[1..][1..] == p[2..]; }
    assert Utf16Length(p[2..]) == 1 + Utf16Length(tail) by { assert p[2..][1..] == tail; }
    assert Utf16Length(tail) == 6;
  }
}
