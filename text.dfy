/** String operations the generator relies on, with Python's meaning. */
module Text {

  /** Python's str.isspace, which str.strip() with no argument uses. */
  predicate IsSpace(c: char) {
    || c == ' '
    || ('\t' <= c <= '\r')
    || ('\U{1c}' <= c <= '\U{1f}')
    || c == '\U{85}' || c == '\U{a0}' || c == '\U{1680}'
    || ('\U{2000}' <= c <= '\U{200a}')
    || c == '\U{2028}' || c == '\U{2029}' || c == '\U{202f}' || c == '\U{205f}' || c == '\U{3000}'
  }

  predicate IsUpper(c: char) { 'A' <= c <= 'Z' }

  function Lower(c: char): char {
    if IsUpper(c) then (c as int + 32) as char else c
  }

  function LowerString(s: string): string {
    seq(|s|, i requires 0 <= i < |s| => Lower(s[i]))
  }

  /** str.removesuffix: drop `suffix` once if `s` ends with it. */
  function RemoveSuffix(s: string, suffix: string): string {
    if |suffix| <= |s| && s[|s| - |suffix|..] == suffix then s[..|s| - |suffix|] else s
  }

  function TrimStart(s: string): string {
    if |s| > 0 && IsSpace(s[0]) then TrimStart(s[1..]) else s
  }

  function TrimEnd(s: string): string {
    if |s| > 0 && IsSpace(s[|s| - 1]) then TrimEnd(s[..|s| - 1]) else s
  }

  /** str.strip() */
  function Strip(s: string): string {
    TrimEnd(TrimStart(s))
  }

  lemma {:induction false} TrimStartSpec(s: string) returns (i: nat)
    ensures i <= |s| && TrimStart(s) == s[i..]
    ensures forall k :: 0 <= k < i ==> IsSpace(s[k])
    ensures i < |s| ==> !IsSpace(s[i])
    decreases |s|
  {
    if |s| > 0 && IsSpace(s[0]) {
      var i' := TrimStartSpec(s[1..]);
      i := i' + 1;
      assert s[1..][i'..] == s[i..];
      forall k | 0 <= k < i ensures IsSpace(s[k]) {
        if k > 0 { assert s[k] == s[1..][k - 1]; }
      }
    } else {
      i := 0;
    }
  }

  lemma {:induction false} TrimEndSpec(s: string) returns (j: nat)
    ensures j <= |s| && TrimEnd(s) == s[..j]
    ensures forall k :: j <= k < |s| ==> IsSpace(s[k])
    ensures 0 < j ==> !IsSpace(s[j - 1])
    decreases |s|
  {
    if |s| > 0 && IsSpace(s[|s| - 1]) {
      j := TrimEndSpec(s[..|s| - 1]);
      assert s[..|s| - 1][..j] == s[..j];
    } else {
      j := |s|;
    }
  }

  /**
   * strip() removes exactly the maximal runs of whitespace at both ends:
   * the result is the slice s[i..j], everything outside it is whitespace,
   * and a non-empty result starts and ends with a non-space character.
   */
  lemma StripSpec(s: string) returns (i: nat, j: nat)
    ensures i <= j <= |s| && Strip(s) == s[i..j]
    ensures forall k :: 0 <= k < i ==> IsSpace(s[k])
    ensures forall k :: j <= k < |s| ==> IsSpace(s[k])
    ensures i < j ==> !IsSpace(s[i]) && !IsSpace(s[j - 1])
  {
    i := TrimStartSpec(s);
    var t := s[i..];
    var j' := TrimEndSpec(t);
    j := i + j';
    assert t[..j'] == s[i..j];
    forall k | j <= k < |s| ensures IsSpace(s[k]) {
      assert s[k] == t[k - i];
    }
    if i < j {
      assert s[i] == t[0] && s[j - 1] == t[j' - 1];
      assert i < |s|;
    }
  }

  /**
   * A column header as the panel parser cleans it:
   * `column.removesuffix(".1").strip().lower()`.
   */
  function NormaliseHeader(h: string): string {
    LowerString(Strip(RemoveSuffix(h, ".1")))
  }

  /**
   * A cleaned header has no upper-case letter and no surrounding whitespace,
   * and is never longer than the raw header.
   */
  lemma NormaliseHeaderSpec(h: string)
    ensures var r := NormaliseHeader(h);
      && |r| <= |h|
      && (forall k :: 0 <= k < |r| ==> !IsUpper(r[k]))
      && (|r| > 0 ==> !IsSpace(r[0]) && !IsSpace(r[|r| - 1]))
  {
    var u := RemoveSuffix(h, ".1");
    var i, j := StripSpec(u);
    var t := Strip(u);
    var r := NormaliseHeader(h);
    assert |r| == |t|;
    if |r| > 0 {
      assert r[0] == Lower(t[0]) && t[0] == u[i];
      assert r[|r| - 1] == Lower(t[|t| - 1]) && t[|t| - 1] == u[j - 1];
    }
  }

  /** The suffix is removed before trimming, so a trailing space keeps ".1". */
  lemma NormaliseHeaderOrder()
    ensures NormaliseHeader(" Msec.1") == "msec"
    ensures NormaliseHeader("Msec.1 ") == "msec.1"
  {
    assert RemoveSuffix(" Msec.1", ".1") == " Msec";
    assert TrimStart(" Msec") == "Msec";
    assert TrimEnd("Msec") == "Msec";
    assert RemoveSuffix("Msec.1 ", ".1") == "Msec.1 ";
    assert TrimStart("Msec.1 ") == "Msec.1 ";
    assert TrimEnd("Msec.1 ") == TrimEnd("Msec.1");
    assert TrimEnd("Msec.1") == "Msec.1";
  }

  // ---------------------------------------------------------------- "blank" search

  /**
   * Whether text character c matches lower-case pattern letter p under
   * Python's re.IGNORECASE: the ASCII case pair, and for 'k' also KELVIN SIGN.
   */
  predicate FoldsTo(c: char, p: char) {
    Lower(c) == p || (p == 'k' && c == '\U{212a}')
  }

  const Blank: string := "blank"

  predicate BlankAt(s: string, i: nat)
    requires i + |Blank| <= |s|
  {
    forall k :: 0 <= k < |Blank| ==> FoldsTo(s[i + k], Blank[k])
  }

  /** `re.search("blank", s, re.IGNORECASE) is not None`, searched left to right. */
  predicate ContainsBlank(s: string)
    decreases |s|
  {
    |s| >= |Blank| && (BlankAt(s, 0) || ContainsBlank(s[1..]))
  }

  lemma {:induction false} ContainsBlankSpec(s: string)
    ensures ContainsBlank(s) <==> exists i: nat :: i + |Blank| <= |s| && BlankAt(s, i)
    decreases |s|
  {
    if |s| >= |Blank| {
      ContainsBlankSpec(s[1..]);
      if ContainsBlank(s[1..]) {
        var i: nat :| i + |Blank| <= |s[1..]| && BlankAt(s[1..], i);
        forall k | 0 <= k < |Blank| ensures FoldsTo(s[i + 1 + k], Blank[k]) {
          assert s[1..][i + k] == s[i + 1 + k];
        }
        assert BlankAt(s, i + 1);
      }
      if i: nat :| i + |Blank| <= |s| && BlankAt(s, i) {
        if i > 0 {
          forall k | 0 <= k < |Blank| ensures FoldsTo(s[1..][i - 1 + k], Blank[k]) {
            assert s[1..][i - 1 + k] == s[i + k];
          }
          assert BlankAt(s[1..], i - 1);
        }
      }
    }
  }

  // ---------------------------------------------------------------- decimal numbers

  predicate IsDigit(c: char) { '0' <= c <= '9' }

  predicate AllDigits(s: string) { forall k :: 0 <= k < |s| ==> IsDigit(s[k]) }

  function DigitChar(d: nat): char
    requires d < 10
  {
    ('0' as int + d) as char
  }

  /** Python's str() of a non-negative int: decimal, no leading zeros. */
  function NatToString(n: nat): string
    decreases n
  {
    if n < 10 then [DigitChar(n)] else NatToString(n / 10) + [DigitChar(n % 10)]
  }

  /** Python's str() of an int. */
  function IntToString(i: int): string {
    if i < 0 then "-" + NatToString(-i) else NatToString(i)
  }

  /** The value of a string of decimal digits (the inverse of NatToString). */
  function DigitsValue(s: string): nat
    requires AllDigits(s)
  {
    if s == [] then 0 else DigitsValue(s[..|s| - 1]) * 10 + (s[|s| - 1] as int - '0' as int)
  }

  /** Reading back a rendered number gives the number. */
  lemma {:induction false} DigitsRoundTrip(n: nat)
    ensures |NatToString(n)| >= 1
    ensures AllDigits(NatToString(n))
    ensures DigitsValue(NatToString(n)) == n
    decreases n
  {
    if n >= 10 {
      DigitsRoundTrip(n / 10);
      var s := NatToString(n);
      assert s[..|s| - 1] == NatToString(n / 10);
    }
  }
}
