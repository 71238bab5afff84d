/**
 * The pieces of Python's `str` and `int` behaviour that both stages rely on:
 * `str.strip()` with its default whitespace set, the `\w` class of `re`, and
 * `int()` applied to a string of decimal digits.
 */
module PyStr {
  import opened Wrappers

  /** The characters for which Python's `str.isspace()` holds; `strip()` removes exactly these. */
  predicate IsSpace(c: char) {
    var n := c as int;
    (9 <= n <= 13) || (28 <= n <= 32) || n == 0x85 || n == 0xA0 || n == 0x1680
    || (0x2000 <= n <= 0x200A) || n == 0x2028 || n == 0x2029 || n == 0x202F
    || n == 0x205F || n == 0x3000
  }

  predicate IsDigit(c: char) {
    '0' <= c <= '9'
  }

  /**
   * The `\w` class of a `str` pattern. ASCII characters follow Python exactly
   * (letters, digits, underscore); every other character that is not
   * whitespace is taken to be a word character.
   */
  predicate IsWordChar(c: char) {
    IsDigit(c) || ('a' <= c <= 'z') || ('A' <= c <= 'Z') || c == '_'
    || (c as int >= 0x80 && !IsSpace(c))
  }

  /** `s.lstrip()`: drops the leading whitespace. */
  function LStrip(s: string): (r: string)
    ensures |r| <= |s|
    decreases |s|
  {
    if |s| > 0 && IsSpace(s[0]) then LStrip(s[1..]) else s
  }

  /** `lstrip` keeps a suffix, removes only whitespace, and stops at the first other character. */
  lemma {:induction false} LStripSpec(s: string)
    ensures var r := LStrip(s);
      r == s[|s| - |r|..] && (r == [] || !IsSpace(r[0]))
      && forall i :: 0 <= i < |s| - |r| ==> IsSpace(s[i])
    decreases |s|
  {
    if |s| > 0 && IsSpace(s[0]) {
      LStripSpec(s[1..]);
    }
  }

  /** `s.rstrip()`: drops the trailing whitespace. */
  function RStrip(s: string): (r: string)
    ensures |r| <= |s|
    decreases |s|
  {
    if |s| > 0 && IsSpace(s[|s| - 1]) then RStrip(s[..|s| - 1]) else s
  }

  /** `rstrip` keeps a prefix, removes only whitespace, and stops at the last other character. */
  lemma {:induction false} RStripSpec(s: string)
    ensures var r := RStrip(s);
      r == s[..|r|] && (r == [] || !IsSpace(r[|r| - 1]))
      && forall i :: |r| <= i < |s| ==> IsSpace(s[i])
    decreases |s|
  {
    if |s| > 0 && IsSpace(s[|s| - 1]) {
      RStripSpec(s[..|s| - 1]);
    }
  }

  /** `s.strip()`. */
  function Strip(s: string): (r: string)
    ensures |r| <= |s|
  {
    RStrip(LStrip(s))
  }

  /**
   * `strip` keeps the piece of `s` between its leading and its trailing
   * whitespace: it removes whitespace only, and neither end of what it keeps
   * is whitespace. So it is empty exactly when `s` is all whitespace.
   */
  lemma StripSpec(s: string)
    ensures var r, a := Strip(s), |s| - |LStrip(s)|;
      a + |r| <= |s| && r == s[a..a + |r|]
      && (forall i :: 0 <= i < a ==> IsSpace(s[i]))
      && (forall i :: a + |r| <= i < |s| ==> IsSpace(s[i]))
      && (r == [] || (!IsSpace(r[0]) && !IsSpace(r[|r| - 1])))
    ensures Strip(s) == [] <==> forall i :: 0 <= i < |s| ==> IsSpace(s[i])
  {
    var l := LStrip(s);
    LStripSpec(s);
    RStripSpec(l);
    var r, a := RStrip(l), |s| - |l|;
    assert forall i :: a <= i < |s| ==> s[i] == l[i - a];
    assert r == s[a..a + |r|];
    if l != [] {
      assert !IsSpace(l[0]);
      assert r != [];
      assert r[0] == s[a];
    }
  }

  /** Stripping twice is stripping once. */
  lemma StripIdempotent(s: string)
    ensures Strip(Strip(s)) == Strip(s)
  {
    var r := Strip(s);
    StripSpec(s);
    if r != [] {
      assert LStrip(r) == r;
      assert RStrip(r) == r;
    }
  }

  /** A string that does not start with whitespace loses only its trailing whitespace to `strip`. */
  lemma StripSolidStart(s: string)
    requires |s| > 0 && !IsSpace(s[0])
    ensures Strip(s) == RStrip(s)
  {
    assert LStrip(s) == s;
  }

  /**
   * `rstrip` cannot reach past a non-whitespace character: with a prefix that
   * ends in one, only the whitespace at the end of the rest is removed.
   */
  lemma {:induction false} RStripAfterSolidPrefix(p: string, t: string)
    requires |p| > 0 && !IsSpace(p[|p| - 1])
    ensures RStrip(p + t) == p + RStrip(t)
    decreases |t|
  {
    if |t| == 0 {
      assert p + t == p;
    } else if IsSpace(t[|t| - 1]) {
      assert (p + t)[..|p + t| - 1] == p + t[..|t| - 1];
      RStripAfterSolidPrefix(p, t[..|t| - 1]);
    } else {
      assert RStrip(t) == t;
    }
  }

  /** `rstrip` only removes characters, so a character absent before is absent after. */
  lemma RStripKeepsAbsent(s: string, c: char)
    requires c !in s
    ensures c !in RStrip(s)
  {
    var r := RStrip(s);
    RStripSpec(s);
    assert s == r + s[|r|..];
  }

  /** The value of a string of decimal digits, most significant first. */
  function DigitsValue(s: string): nat
    requires forall i :: 0 <= i < |s| ==> IsDigit(s[i])
    decreases |s|
  {
    if |s| == 0 then 0
    else
      assert IsDigit(s[|s| - 1]);
      DigitsValue(s[..|s| - 1]) * 10 + (s[|s| - 1] as int - '0' as int)
  }

  /** `int(s)` on decimal digits: `None` stands for the `ValueError` that `int` raises. */
  function ParseInt(s: string): Option<nat> {
    if |s| > 0 && forall i :: 0 <= i < |s| ==> IsDigit(s[i]) then Some(DigitsValue(s)) else None
  }

  /** On one character, `int` succeeds exactly on a digit and gives its value, 0 to 9. */
  lemma ParseIntOneChar(s: string)
    requires |s| == 1
    ensures ParseInt(s).Some? <==> IsDigit(s[0])
    ensures ParseInt(s).Some? ==> ParseInt(s).value == s[0] as int - '0' as int <= 9
  {
    if IsDigit(s[0]) {
      assert s[..0] == [];
      assert DigitsValue(s) == DigitsValue(s[..0]) * 10 + (s[0] as int - '0' as int);
    }
  }
}
