/**
 * Decimal and hexadecimal text of integers, as Python's `str`, `hex`,
 * `int(s, 16)` and the `d`/`x` format specifications write and read them,
 * and the white space that `str.strip()`, `int()` and pydantic remove.
 */
module Text {
  import opened Wrappers

  predicate IsDigit(c: char) { '0' <= c <= '9' }

  predicate IsHexDigit(c: char) { '0' <= c <= '9' || 'a' <= c <= 'f' || 'A' <= c <= 'F' }

  predicate AllDigits(s: string) { forall i :: 0 <= i < |s| ==> IsDigit(s[i]) }

  predicate AllHexDigits(s: string) { forall i :: 0 <= i < |s| ==> IsHexDigit(s[i]) }

  function DigitChar(d: nat): (c: char)
    requires d < 10
    ensures IsDigit(c)
  {
    ('0' as int + d) as char
  }

  /** The lower-case hexadecimal digit of `d`. */
  function HexChar(d: nat): (c: char)
    requires d < 16
    ensures IsHexDigit(c) && !('A' <= c <= 'F')
  {
    if d < 10 then ('0' as int + d) as char else ('a' as int + d - 10) as char
  }

  function HexDigitValue(c: char): (d: nat)
    requires IsHexDigit(c)
    ensures d < 16
  {
    if '0' <= c <= '9' then c as int - '0' as int
    else if 'a' <= c <= 'f' then c as int - 'a' as int + 10
    else c as int - 'A' as int + 10
  }

  lemma HexCharValue(d: nat)
    requires d < 16
    ensures HexDigitValue(HexChar(d)) == d
  {
  }

  /** `str(n)` for a non-negative integer: no sign, no leading zero. */
  function NatToDecimal(n: nat): (s: string)
    ensures |s| >= 1 && AllDigits(s)
    ensures |s| > 1 ==> s[0] != '0'
  {
    if n < 10 then [DigitChar(n)] else NatToDecimal(n / 10) + [DigitChar(n % 10)]
  }

  /** `str(i)` for any integer. */
  function IntToDecimal(i: int): (s: string)
    ensures |s| >= 1
    ensures (i < 0) == (s[0] == '-')
  {
    if i < 0 then "-" + NatToDecimal(-i) else NatToDecimal(i)
  }

  /** The value of a string of decimal digits, most significant first. */
  function DecimalValue(s: string): nat
    requires AllDigits(s)
  {
    if |s| == 0 then 0 else 10 * DecimalValue(s[..|s| - 1]) + (s[|s| - 1] as int - '0' as int)
  }

  lemma {:induction false} DecimalRoundTrip(n: nat)
    ensures DecimalValue(NatToDecimal(n)) == n
  {
    if n >= 10 {
      DecimalRoundTrip(n / 10);
      var s := NatToDecimal(n);
      assert s[..|s| - 1] == NatToDecimal(n / 10);
    }
  }

  /** A number below `10^k` has at most `k` decimal digits. */
  lemma {:induction false} DecimalWidth(n: nat, k: nat, bound: nat)
    requires bound == Pow10(k) && n < bound && k >= 1
    ensures |NatToDecimal(n)| <= k
  {
    if n >= 10 {
      assert k >= 2;
      assert n / 10 < Pow10(k - 1);
      DecimalWidth(n / 10, k - 1, Pow10(k - 1));
    }
  }

  function Pow10(k: nat): (p: nat)
    ensures p >= 1
  {
    if k == 0 then 1 else 10 * Pow10(k - 1)
  }

  /** Leading zeros do not change a decimal value. */
  lemma {:induction false} DecimalValueLeadingZeros(k: nat, s: string)
    requires AllDigits(s)
    ensures AllDigits(Zeros(k) + s) && DecimalValue(Zeros(k) + s) == DecimalValue(s)
  {
    if |s| == 0 {
      ZerosDecimalValue(k);
      assert Zeros(k) + s == Zeros(k);
    } else {
      var t := Zeros(k) + s;
      assert t[..|t| - 1] == Zeros(k) + s[..|s| - 1];
      DecimalValueLeadingZeros(k, s[..|s| - 1]);
    }
  }

  lemma {:induction false} ZerosDecimalValue(k: nat)
    ensures AllDigits(Zeros(k)) && DecimalValue(Zeros(k)) == 0
  {
    if k > 0 {
      assert Zeros(k)[..k - 1] == Zeros(k - 1);
      ZerosDecimalValue(k - 1);
    }
  }

  /** Zero-padding a number's digits keeps them digits of the same value. */
  lemma ZeroPadDecimalValue(n: nat, width: nat)
    ensures AllDigits(ZeroPad(NatToDecimal(n), width)) && DecimalValue(ZeroPad(NatToDecimal(n), width)) == n
  {
    DecimalRoundTrip(n);
    var s := NatToDecimal(n);
    if |s| < width {
      DecimalValueLeadingZeros(width - |s|, s);
    }
  }

  function Zeros(k: nat): (s: string)
    ensures |s| == k && forall i :: 0 <= i < k ==> s[i] == '0'
  {
    if k == 0 then "" else Zeros(k - 1) + "0"
  }

  /** `s` left-padded with `'0'` up to `width` characters. */
  function ZeroPad(s: string, width: nat): (r: string)
    ensures |r| == if |s| >= width then |s| else width
    ensures r[|r| - |s|..] == s
    ensures forall i :: 0 <= i < |r| - |s| ==> r[i] == '0'
  {
    if |s| >= width then s else Zeros(width - |s|) + s
  }

  /** Python's `f"{i:0Wd}"`: the sign counts towards the width and the zeros follow it. */
  function FormatZeroPadded(i: int, width: nat): (s: string)
    ensures |s| >= width
    ensures i >= 0 ==> |s| >= |NatToDecimal(i)| && s[|s| - |NatToDecimal(i)|..] == NatToDecimal(i)
    ensures i < 0 ==> |s| > |NatToDecimal(-i)| && s[0] == '-' && s[|s| - |NatToDecimal(-i)|..] == NatToDecimal(-i)
  {
    if i < 0 then "-" + ZeroPad(NatToDecimal(-i), if width == 0 then 0 else width - 1)
    else ZeroPad(NatToDecimal(i), width)
  }

  /** Lower-case hexadecimal digits of `n` without prefix or leading zero, as in `hex(n)[2:]`. */
  function NatToHex(n: nat): (s: string)
    ensures |s| >= 1 && AllHexDigits(s)
    ensures forall i :: 0 <= i < |s| ==> !('A' <= s[i] <= 'F')
    ensures |s| > 1 ==> s[0] != '0'
  {
    if n < 16 then [HexChar(n)] else NatToHex(n / 16) + [HexChar(n % 16)]
  }

  /** The value of a string of hexadecimal digits of either case. */
  function HexValue(s: string): nat
    requires AllHexDigits(s)
  {
    if |s| == 0 then 0 else 16 * HexValue(s[..|s| - 1]) + HexDigitValue(s[|s| - 1])
  }

  lemma {:induction false} HexRoundTrip(n: nat)
    ensures HexValue(NatToHex(n)) == n
  {
    if n >= 16 {
      HexRoundTrip(n / 16);
      var s := NatToHex(n);
      assert s[..|s| - 1] == NatToHex(n / 16);
    }
    HexCharValue(n % 16);
  }

  lemma {:induction false} HexValueLeadingZeros(k: nat, s: string)
    requires AllHexDigits(s)
    ensures AllHexDigits(Zeros(k) + s) && HexValue(Zeros(k) + s) == HexValue(s)
  {
    if |s| == 0 {
      ZerosValue(k);
      assert Zeros(k) + s == Zeros(k);
    } else {
      var t := Zeros(k) + s;
      assert t[..|t| - 1] == Zeros(k) + s[..|s| - 1];
      HexValueLeadingZeros(k, s[..|s| - 1]);
    }
  }

  lemma {:induction false} ZerosValue(k: nat)
    ensures AllHexDigits(Zeros(k)) && HexValue(Zeros(k)) == 0
  {
    if k > 0 {
      assert Zeros(k)[..k - 1] == Zeros(k - 1);
      ZerosValue(k - 1);
    }
  }

  /**
   * The characters with the Unicode White_Space property: what Rust's
   * `str::trim` removes, and so what pydantic's `str_strip_whitespace` does.
   */
  predicate IsUnicodeWhiteSpace(c: char)
  {
    '\t' <= c <= '\r' || c == ' ' || c == '\U{85}' || c == '\U{A0}' || c == '\U{1680}' ||
    '\U{2000}' <= c <= '\U{200A}' || c == '\U{2028}' || c == '\U{2029}' || c == '\U{202F}' ||
    c == '\U{205F}' || c == '\U{3000}'
  }

  /**
   * Python's `str.isspace()`, which is also what `int()` ignores around its
   * argument and what `\s` matches in a pattern on text: the Unicode white
   * space and the four separators U+001C to U+001F.
   */
  predicate IsPythonSpace(c: char)
  {
    IsUnicodeWhiteSpace(c) || '\U{1C}' <= c <= '\U{1F}'
  }

  /** Leading characters of the class `space` removed. */
  function StripLeft(s: string, space: char -> bool): (r: string)
    ensures |r| <= |s| && r == s[|s| - |r|..]
    ensures r == [] || !space(r[0])
    ensures forall i :: 0 <= i < |s| - |r| ==> space(s[i])
  {
    if s != [] && space(s[0]) then StripLeft(s[1..], space) else s
  }

  /** Trailing characters of the class `space` removed. */
  function StripRight(s: string, space: char -> bool): (r: string)
    ensures |r| <= |s| && r == s[..|r|]
    ensures r == [] || !space(r[|r| - 1])
    ensures forall i :: |r| <= i < |s| ==> space(s[i])
  {
    if s != [] && space(s[|s| - 1]) then StripRight(s[..|s| - 1], space) else s
  }

  /** Characters of the class `space` removed at both ends. */
  function Strip(s: string, space: char -> bool): string
  {
    StripRight(StripLeft(s, space), space)
  }

  /** The stripped string has no space at either end. */
  lemma StripEnds(s: string, space: char -> bool)
    ensures var r := Strip(s, space); r == [] || (!space(r[0]) && !space(r[|r| - 1]))
  {
    var l := StripLeft(s, space);
    var r := StripRight(l, space);
    if r != [] {
      assert r[0] == l[0];
    }
  }

  /** The stripped string is the slice of the input starting at `k`, and only space was cut on either side. */
  lemma StripSlice(s: string, space: char -> bool) returns (k: nat)
    ensures var r := Strip(s, space);
      k + |r| <= |s| && r == s[k..k + |r|] &&
      (forall j :: 0 <= j < k ==> space(s[j])) &&
      (forall j :: k + |r| <= j < |s| ==> space(s[j]))
  {
    var l := StripLeft(s, space);
    k := |s| - |l|;
    SliceOfStripped(s, l, StripRight(l, space), k, space);
  }

  /** What was cut off the front of `s` to give `l`, and off the back of `l` to give `r`, was all space. */
  lemma SliceOfStripped(s: string, l: string, r: string, k: nat, space: char -> bool)
    requires k + |l| == |s| && l == s[k..] && forall j :: 0 <= j < k ==> space(s[j])
    requires |r| <= |l| && r == l[..|r|] && forall j :: |r| <= j < |l| ==> space(l[j])
    ensures k + |r| <= |s| && r == s[k..k + |r|]
    ensures forall j :: k + |r| <= j < |s| ==> space(s[j])
  {
    PrefixOfSuffix(s, l, r, k);
    forall j | k + |r| <= j < |s|
      ensures space(s[j])
    {
      assert space(l[j - k]);
    }
  }

  /** A prefix of the suffix from `k` is the slice from `k`. */
  lemma PrefixOfSuffix(s: string, l: string, r: string, k: nat)
    requires k <= |s| && l == s[k..] && |r| <= |l| && r == l[..|r|]
    ensures k + |r| <= |s| && r == s[k..k + |r|]
    ensures forall j :: k <= j < |s| ==> s[j] == l[j - k]
  {
    assert s[k..][..|r|] == s[k..k + |r|];
  }

  /** A string that neither starts nor ends with space is its own stripped form, so stripping twice strips nothing more. */
  lemma StripUnpadded(s: string, space: char -> bool)
    requires s == [] || (!space(s[0]) && !space(s[|s| - 1]))
    ensures Strip(s, space) == s
  {
    if s != [] {
      assert StripLeft(s, space) == s;
    }
  }

  /** Stripping twice strips nothing more. */
  lemma StripIdempotent(s: string, space: char -> bool)
    ensures Strip(Strip(s, space), space) == Strip(s, space)
  {
    StripEnds(s, space);
    StripUnpadded(Strip(s, space), space);
  }

  /** Leading space before a text is stripped with the text's own. */
  lemma {:induction false} StripLeftPadding(a: string, x: string, space: char -> bool)
    requires forall i :: 0 <= i < |a| ==> space(a[i])
    ensures StripLeft(a + x, space) == StripLeft(x, space)
  {
    if a == [] {
      assert a + x == x;
    } else {
      assert space(a[0]) && (a + x)[0] == a[0];
      assert (a + x)[1..] == a[1..] + x;
      StripLeftPadding(a[1..], x, space);
    }
  }

  /** Trailing space after a text is stripped with the text's own. */
  lemma {:induction false} StripRightPadding(x: string, b: string, space: char -> bool)
    requires forall i :: 0 <= i < |b| ==> space(b[i])
    ensures StripRight(x + b, space) == StripRight(x, space)
  {
    if b == [] {
      assert x + b == x;
    } else {
      assert space(b[|b| - 1]) && (x + b)[|x + b| - 1] == b[|b| - 1];
      assert (x + b)[..|x + b| - 1] == x + b[..|b| - 1];
      StripRightPadding(x, b[..|b| - 1], space);
    }
  }

  /** Stripping the front of a padded text keeps the padding unless the text was all space. */
  lemma {:induction false} StripLeftBeforePadding(x: string, b: string, space: char -> bool)
    requires forall i :: 0 <= i < |b| ==> space(b[i])
    ensures StripRight(StripLeft(x + b, space), space) == StripRight(StripLeft(x, space), space)
  {
    if x == [] {
      assert x + b == b;
      StripLeftPadding(b, [], space);
      assert b + [] == b;
    } else if space(x[0]) {
      assert (x + b)[0] == x[0];
      assert (x + b)[1..] == x[1..] + b;
      StripLeftBeforePadding(x[1..], b, space);
    } else {
      assert (x + b)[0] == x[0];
      StripRightPadding(x, b, space);
    }
  }

  /** Space around a text does not change what it strips to. */
  lemma StripIgnoresPadding(a: string, x: string, b: string, space: char -> bool)
    requires forall i :: 0 <= i < |a| ==> space(a[i])
    requires forall i :: 0 <= i < |b| ==> space(b[i])
    ensures Strip(a + x + b, space) == Strip(x, space)
  {
    assert a + x + b == a + (x + b);
    StripLeftPadding(a, x + b, space);
    StripLeftBeforePadding(x, b, space);
  }

  /**
   * The digits of an integer literal: hexadecimal digits, with single
   * underscores allowed between two of them.
   */
  predicate HexDigitGroups(s: string)
    decreases |s|
  {
    |s| >= 1 && IsHexDigit(s[|s| - 1]) &&
    (|s| == 1 ||
     if s[|s| - 2] == '_' then |s| >= 3 && HexDigitGroups(s[..|s| - 2]) else HexDigitGroups(s[..|s| - 1]))
  }

  /** The value of a literal's digits, its underscores skipped. */
  function GroupsValue(s: string): nat
    requires HexDigitGroups(s)
    decreases |s|
  {
    var d := HexDigitValue(s[|s| - 1]);
    if |s| == 1 then d
    else if s[|s| - 2] == '_' then 16 * GroupsValue(s[..|s| - 2]) + d
    else 16 * GroupsValue(s[..|s| - 1]) + d
  }

  /** The digits part of a text without surrounding space: the text after its sign and its prefix. */
  function HexBody(t: string): string
  {
    var unsigned := if |t| >= 1 && (t[0] == '+' || t[0] == '-') then t[1..] else t;
    if |unsigned| >= 2 && unsigned[0] == '0' && (unsigned[1] == 'x' || unsigned[1] == 'X') then
      if |unsigned| >= 3 && unsigned[2] == '_' then unsigned[3..] else unsigned[2..]
    else unsigned
  }

  /** `int(t, 16)` of a text without surrounding space. */
  function ParseUnpaddedHex(t: string): (r: Option<int>)
    ensures r.Some? <==> HexDigitGroups(HexBody(t))
    ensures r.Some? ==> r.value == GroupsValue(HexBody(t)) as int || r.value == -(GroupsValue(HexBody(t)) as int)
    ensures r.Some? && r.value < 0 ==> t[0] == '-'
    ensures r.Some? && r.value > 0 ==> t[0] != '-'
  {
    if HexDigitGroups(HexBody(t)) then
      var n: int := GroupsValue(HexBody(t));
      Some(if |t| >= 1 && t[0] == '-' then -n else n)
    else None
  }

  /**
   * Python's `int(s, 16)`: white space around the text is ignored; then come
   * an optional sign, an optional `0x`/`0X` prefix that one underscore may
   * follow, and hexadecimal digits of either case with single underscores
   * between them. Anything else raises `ValueError`.
   */
  function ParseHex(s: string): (r: Option<int>)
    ensures r.Some? ==> |s| >= 1
  {
    ParseUnpaddedHex(Strip(s, IsPythonSpace))
  }

  /** A hexadecimal digit is neither space nor sign nor underscore nor the `x` of a prefix. */
  lemma HexDigitIsPlain(c: char)
    requires IsHexDigit(c)
    ensures !IsPythonSpace(c) && c != '+' && c != '-' && c != '_' && c != 'x' && c != 'X'
  {
  }

  /** Digits without underscores form a valid literal body, worth their plain value. */
  lemma {:induction false} HexDigitsAreGroups(s: string)
    requires |s| >= 1 && AllHexDigits(s)
    ensures HexDigitGroups(s) && GroupsValue(s) == HexValue(s)
  {
    if |s| >= 2 {
      HexDigitIsPlain(s[|s| - 2]);
      HexDigitsAreGroups(s[..|s| - 1]);
    } else {
      assert s[..0] == [];
    }
  }

  /** A text that neither starts nor ends with space is read as it stands. */
  lemma ParseHexUnpadded(p: string)
    requires |p| >= 1 && !IsPythonSpace(p[0]) && !IsPythonSpace(p[|p| - 1])
    ensures ParseHex(p) == ParseUnpaddedHex(p)
  {
    StripUnpadded(p, IsPythonSpace);
  }

  /** An unsigned text whose digits part is plain digits is worth their value. */
  lemma ParseUnpaddedOfBody(p: string, body: string)
    requires |p| >= 1 && p[0] != '-'
    requires HexBody(p) == body && |body| >= 1 && AllHexDigits(body)
    ensures ParseUnpaddedHex(p) == Some(HexValue(body))
  {
    HexDigitsAreGroups(body);
  }

  /** A text of hexadecimal digits alone is read as their value. */
  lemma ParseHexOfDigits(s: string)
    requires |s| >= 1 && AllHexDigits(s)
    ensures ParseHex(s) == Some(HexValue(s))
  {
    HexDigitIsPlain(s[0]);
    HexDigitIsPlain(s[|s| - 1]);
    if |s| >= 2 {
      HexDigitIsPlain(s[1]);
    }
    assert HexBody(s) == s;
    ParseHexUnpadded(s);
    ParseUnpaddedOfBody(s, s);
  }

  /** A text of hexadecimal digits behind a `0x` prefix is read as their value. */
  lemma ParseHexOfPrefixed(s: string)
    requires |s| >= 1 && AllHexDigits(s)
    ensures ParseHex("0x" + s) == Some(HexValue(s))
  {
    HexBodyOfPrefixed(s);
    ParseHexUnpadded("0x" + s);
    ParseUnpaddedOfBody("0x" + s, s);
  }

  lemma HexBodyOfPrefixed(s: string)
    requires |s| >= 1 && AllHexDigits(s)
    ensures var p := "0x" + s; p[0] == '0' && !IsPythonSpace(p[0]) && !IsPythonSpace(p[|p| - 1])
    ensures HexBody("0x" + s) == s
  {
    var p := "0x" + s;
    assert p[0] == '0' && p[1] == 'x' && p[2] == s[0] && p[|p| - 1] == s[|s| - 1];
    HexDigitIsPlain(s[0]);
    HexDigitIsPlain(s[|s| - 1]);
    assert p[2..] == s;
  }

  /** `int()` ignores white space around its argument. */
  lemma ParseHexIgnoresPadding(a: string, x: string, b: string)
    requires forall i :: 0 <= i < |a| ==> IsPythonSpace(a[i])
    requires forall i :: 0 <= i < |b| ==> IsPythonSpace(b[i])
    ensures ParseHex(a + x + b) == ParseHex(x)
  {
    StripIgnoresPadding(a, x, b, IsPythonSpace);
  }

  /** A sign in front of plain digits gives their value, negated for `-`. */
  lemma ParseHexOfSigned(sign: char, s: string)
    requires sign == '+' || sign == '-'
    requires |s| >= 1 && AllHexDigits(s)
    ensures ParseHex([sign] + s) == Some(if sign == '-' then -(HexValue(s) as int) else HexValue(s) as int)
  {
    SignedBody(sign, s);
    ParseHexUnpadded([sign] + s);
    ParseUnpaddedOfSigned([sign] + s, s);
  }

  lemma ParseUnpaddedOfSigned(p: string, body: string)
    requires |p| >= 1 && (p[0] == '+' || p[0] == '-')
    requires HexBody(p) == body && |body| >= 1 && AllHexDigits(body)
    ensures ParseUnpaddedHex(p) == Some(if p[0] == '-' then -(HexValue(body) as int) else HexValue(body) as int)
  {
    HexDigitsAreGroups(body);
  }

  lemma SignedBody(sign: char, s: string)
    requires sign == '+' || sign == '-'
    requires |s| >= 1 && AllHexDigits(s)
    ensures var p := [sign] + s; p[0] == sign && !IsPythonSpace(p[0]) && !IsPythonSpace(p[|p| - 1])
    ensures HexBody([sign] + s) == s
  {
    var p := [sign] + s;
    assert p[0] == sign && p[1..] == s && p[|p| - 1] == s[|s| - 1];
    HexDigitIsPlain(s[0]);
    HexDigitIsPlain(s[|s| - 1]);
    if |s| >= 2 {
      HexDigitIsPlain(s[1]);
    }
  }

  /** Single underscores between digits and after the prefix are skipped; others are refused. */
  lemma UnderscoreExamples()
    ensures ParseUnpaddedHex("4_4") == Some(0x44)
    ensures ParseUnpaddedHex("0x_44") == Some(0x44)
    ensures ParseUnpaddedHex("4__4") == None
    ensures ParseUnpaddedHex("_44") == None
    ensures ParseUnpaddedHex("44_") == None
    ensures ParseUnpaddedHex("0x") == None
  {
    assert HexBody("4_4") == "4_4";
    assert "4_4"[..1] == "4";
    assert HexBody("0x_44") == "44" by {
      assert "0x_44"[3..] == "44";
    }
    assert "44"[..1] == "4";
    assert HexBody("4__4") == "4__4";
    assert "4__4"[..2] == "4_";
    assert HexBody("_44") == "_44";
    assert "_44"[..2] == "_4";
    assert "_4"[..1] == "_";
    assert HexBody("0x") == "";
  }

  /** Python's `f"{n:02x}"`. */
  function Hex2(n: nat): (s: string)
    ensures |s| >= 2 && AllHexDigits(s)
  {
    ZeroPad(NatToHex(n), 2)
  }

  lemma Hex2Value(n: nat)
    ensures HexValue(Hex2(n)) == n
  {
    HexRoundTrip(n);
    var h := NatToHex(n);
    if |h| < 2 {
      HexValueLeadingZeros(2 - |h|, h);
    }
  }

  /** Reading back what `hex(n)` writes gives `n`. */
  lemma ParseHexOfHex(n: nat)
    ensures ParseHex("0x" + NatToHex(n)) == Some(n)
  {
    ParseHexOfPrefixed(NatToHex(n));
    HexRoundTrip(n);
  }

  /** Reading back what `f"0x{n:02x}"` writes gives `n`. */
  lemma ParseHexOfHex2(n: nat)
    ensures ParseHex("0x" + Hex2(n)) == Some(n)
  {
    ParseHexOfPrefixed(Hex2(n));
    Hex2Value(n);
  }
}
