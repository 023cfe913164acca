/** `hexToRGB`: the colour string of a light, read with `parseInt(_, 16)` and
    cut into three bytes with 32-bit shifts and masks. */
module HexColor {
  import opened Wrappers

  datatype Rgb = Rgb(red: int, green: int, blue: int)

  predicate IsByte(n: int) { 0 <= n <= 255 }

  predicate IsByteColor(c: Rgb) { IsByte(c.red) && IsByte(c.green) && IsByte(c.blue) }

  predicate IsHexDigit(ch: char) {
    '0' <= ch <= '9' || 'a' <= ch <= 'f' || 'A' <= ch <= 'F'
  }

  predicate AllHexDigits(s: string) {
    forall i :: 0 <= i < |s| ==> IsHexDigit(s[i])
  }

  /** The value of a hex digit; a character that is not one is never read
      as a digit by the parser, and counts as 0 here. */
  function DigitValue(ch: char): (v: nat)
    ensures v < 16
    ensures !IsHexDigit(ch) ==> v == 0
  {
    if '0' <= ch <= '9' then ch as int - '0' as int
    else if 'a' <= ch <= 'f' then ch as int - 'a' as int + 10
    else if 'A' <= ch <= 'F' then ch as int - 'A' as int + 10
    else 0
  }

  function Pow16(n: nat): (p: nat)
    ensures p >= 1
  {
    if n == 0 then 1 else 16 * Pow16(n - 1)
  }

  /** The number written by a string of hex digits, most significant first. */
  function HexValue(s: string): (v: nat)
    ensures v < Pow16(|s|)
  {
    if s == [] then 0 else HexValue(s[..|s| - 1]) * 16 + DigitValue(s[|s| - 1])
  }

  /** The length of the longest prefix of `s` made of hex digits. */
  function DigitRun(s: string): (n: nat)
    ensures n <= |s|
    ensures AllHexDigits(s[..n])
    ensures n < |s| ==> !IsHexDigit(s[n])
  {
    if s != [] && IsHexDigit(s[0]) then
      var n := 1 + DigitRun(s[1..]);
      assert s[..n] == [s[0]] + s[1..][..n - 1];
      n
    else 0
  }

  /** `parseInt(s, 16)`: an optional sign, an optional `0x`/`0X`, then the
      longest run of hex digits. `None` stands for `NaN` (no digit at all). */
  function ParseIntHex(s: string): (r: Option<int>)
    ensures r.None? <==> DigitRun(StripPrefix(StripSign(s))) == 0
  {
    var negative := |s| > 0 && s[0] == '-';
    var u := StripPrefix(StripSign(s));
    var n := DigitRun(u);
    if n == 0 then None
    else
      var magnitude: int := HexValue(u[..n]);
      Some(if negative then -magnitude else magnitude)
  }

  function StripSign(s: string): string {
    if |s| > 0 && (s[0] == '+' || s[0] == '-') then s[1..] else s
  }

  function StripPrefix(s: string): string {
    if |s| >= 2 && s[0] == '0' && (s[1] == 'x' || s[1] == 'X') then s[2..] else s
  }

  /** The 32-bit pattern `ToInt32` gives a whole number, read as unsigned. */
  function Bits32(v: int): (w: int)
    ensures 0 <= w < 0x1_0000_0000
  {
    v % 0x1_0000_0000
  }

  /** `(bigint >> 16) & 255`, `(bigint >> 8) & 255` and `bigint & 255`, where
      `NaN` behaves as 0. Every channel is a byte whatever the string. */
  function HexToRGB(hex: string): (c: Rgb)
    ensures IsByteColor(c)
    ensures ParseIntHex(if |hex| == 0 then "" else hex[1..]).None? ==> c == Rgb(0, 0, 0)
  {
    Unpack(ParseIntHex(if |hex| == 0 then "" else hex[1..]).GetOr(0))
  }

  /** The three low bytes of the 32-bit pattern of `big`, high byte first. */
  function Unpack(big: int): (c: Rgb)
    ensures IsByteColor(c)
  {
    Rgb(Bits32(big) / 0x1_0000 % 256, Bits32(big) / 0x100 % 256, Bits32(big) % 256)
  }

  /** The lower-case hex digit of `n`. */
  function HexChar(n: nat): (ch: char)
    requires n < 16
    ensures IsHexDigit(ch) && DigitValue(ch) == n
  {
    if n < 10 then ('0' as int + n) as char else ('a' as int + n - 10) as char
  }

  function Hex2(n: int): (s: string)
    requires IsByte(n)
    ensures |s| == 2 && AllHexDigits(s)
  {
    [HexChar(n / 16), HexChar(n % 16)]
  }

  /** The `#rrggbb` string a colour input produces for a colour. */
  function ToHex(c: Rgb): (s: string)
    requires IsByteColor(c)
    ensures |s| == 7 && s[0] == '#' && AllHexDigits(s[1..])
  {
    "#" + Hex2(c.red) + Hex2(c.green) + Hex2(c.blue)
  }

  // ---------------------------------------------------------------------
  // Properties

  lemma {:induction false} DigitRunAll(s: string)
    requires AllHexDigits(s)
    ensures DigitRun(s) == |s|
  {
    if s != [] {
      DigitRunAll(s[1..]);
    }
  }

  /** The digits of `a + b` denote `a` shifted left by `|b|` digits, plus `b`. */
  lemma {:induction false} HexValueConcat(a: string, b: string)
    ensures HexValue(a + b) == HexValue(a) * Pow16(|b|) + HexValue(b)
  {
    var ab := a + b;
    if b == [] {
      assert ab == a;
    } else {
      var b' := b[..|b| - 1];
      assert ab[..|ab| - 1] == a + b';
      assert ab[|ab| - 1] == b[|b| - 1];
      HexValueConcat(a, b');
      var x, p, y, d := HexValue(a), Pow16(|b'|), HexValue(b'), DigitValue(b[|b| - 1]);
      assert HexValue(ab) == HexValue(a + b') * 16 + d;
      assert HexValue(b) == y * 16 + d;
      assert Pow16(|b|) == p * 16;
      ShiftDigit(x, p, y, d);
    }
  }

  lemma ShiftDigit(x: int, p: int, y: int, d: int)
    ensures (x * p + y) * 16 + d == x * (p * 16) + (y * 16 + d)
  {
  }

  /** For `#rrggbb`, hexToRGB returns the three two-digit hex values. */
  lemma HexToRGBDigits(s: string)
    requires |s| == 6 && AllHexDigits(s)
    ensures HexToRGB("#" + s) == Rgb(HexValue(s[0..2]), HexValue(s[2..4]), HexValue(s[4..6]))
  {
    var hex := "#" + s;
    assert hex[1..] == s;
    ParseDigits(s);
    assert HexToRGB(hex) == Unpack(HexValue(s));
    SixDigits(s);
    var x, y, z := HexValue(s[0..2]), HexValue(s[2..4]), HexValue(s[4..6]);
    assert Pow16(2) == 256;
    assert IsByte(x) && IsByte(y) && IsByte(z);
    ByteSplit(HexValue(s), x, y, z);
  }

  /** A non-empty string of hex digits has no sign and no `0x` (a digit is
      neither a sign nor `x`), so parseInt reads all of its digits. */
  lemma ParseDigits(s: string)
    requires |s| >= 1 && AllHexDigits(s)
    ensures ParseIntHex(s) == Some(HexValue(s))
  {
    NoSignNoPrefix(s);
    DigitRunAll(s);
    assert s[..|s|] == s;
  }

  lemma NoSignNoPrefix(s: string)
    requires |s| >= 1 && AllHexDigits(s)
    ensures s[0] != '-' && StripPrefix(StripSign(s)) == s
  {
    assert IsHexDigit(s[0]);
    if |s| >= 2 {
      assert IsHexDigit(s[1]);
    }
  }

  lemma SixDigits(s: string)
    requires |s| == 6
    ensures HexValue(s) == (HexValue(s[0..2]) * 256 + HexValue(s[2..4])) * 256 + HexValue(s[4..6])
  {
    var h := s[..4];
    assert h[..2] == s[0..2] && h[2..] == s[2..4] && s[4..] == s[4..6];
    SplitAt(s, 4);
    SplitAt(h, 2);
  }

  /** Cutting the digits after the first `i` multiplies their value by 256. */
  lemma SplitAt(s: string, i: int)
    requires 0 <= i && |s| == i + 2
    ensures HexValue(s) == HexValue(s[..i]) * 256 + HexValue(s[i..])
  {
    assert s == s[..i] + s[i..];
    TwoMore(s[..i], s[i..]);
  }

  /** Appending two digits multiplies by 256 and adds their value. */
  lemma TwoMore(a: string, b: string)
    requires |b| == 2
    ensures HexValue(a + b) == HexValue(a) * 256 + HexValue(b)
  {
    HexValueConcat(a, b);
    assert Pow16(2) == 256;
  }

  /** The bytes of a 24-bit number, as the shifts and masks extract them. */
  lemma ByteSplit(v: int, r: int, g: int, b: int)
    requires IsByte(r) && IsByte(g) && IsByte(b) && v == (r * 256 + g) * 256 + b
    ensures Unpack(v) == Rgb(r, g, b)
  {
    assert 0 <= v < 0x1_0000_0000;
    assert Bits32(v) == v;
    assert v / 0x1_0000 == r;
    assert v / 0x100 == r * 256 + g;
    assert v % 256 == b;
  }

  /** The two lower-case digits of a byte denote that byte. */
  lemma Hex2Value(n: int)
    requires IsByte(n)
    ensures HexValue(Hex2(n)) == n
  {
    var s := Hex2(n);
    assert s[..1][..0] == [];
    assert HexValue(s[..1]) == n / 16;
  }

  /** Encoding three bytes as `#rrggbb` and parsing them back gives the bytes. */
  lemma HexRoundTrip(c: Rgb)
    requires IsByteColor(c)
    ensures HexToRGB(ToHex(c)) == c
  {
    var s := Hex2(c.red) + Hex2(c.green) + Hex2(c.blue);
    assert ToHex(c) == "#" + s;
    assert s[0..2] == Hex2(c.red) && s[2..4] == Hex2(c.green) && s[4..6] == Hex2(c.blue);
    HexToRGBDigits(s);
    Hex2Value(c.red);
    Hex2Value(c.green);
    Hex2Value(c.blue);
  }

  /** A lower-case `#rrggbb` string is the encoding of the colour read from it. */
  lemma HexCanonical(s: string)
    requires |s| == 6 && forall i :: 0 <= i < 6 ==> IsLowerHexDigit(s[i])
    ensures IsByteColor(HexToRGB("#" + s)) && ToHex(HexToRGB("#" + s)) == "#" + s
  {
    HexToRGBDigits(s);
    Hex2Canonical(s[0..2]);
    Hex2Canonical(s[2..4]);
    Hex2Canonical(s[4..6]);
    assert s == s[0..2] + s[2..4] + s[4..6];
  }

  predicate IsLowerHexDigit(ch: char) {
    '0' <= ch <= '9' || 'a' <= ch <= 'f'
  }

  lemma Hex2Canonical(d: string)
    requires |d| == 2 && IsLowerHexDigit(d[0]) && IsLowerHexDigit(d[1])
    ensures IsByte(HexValue(d)) && Hex2(HexValue(d)) == d
  {
    var hi, lo := DigitValue(d[0]), DigitValue(d[1]);
    TwoDigits(d);
    LowerDigit(d[0]);
    LowerDigit(d[1]);
    assert (hi * 16 + lo) / 16 == hi && (hi * 16 + lo) % 16 == lo;
  }

  lemma TwoDigits(d: string)
    requires |d| == 2
    ensures HexValue(d) == DigitValue(d[0]) * 16 + DigitValue(d[1])
  {
    assert d[..1][..0] == [];
  }

  lemma LowerDigit(ch: char)
    requires IsLowerHexDigit(ch)
    ensures HexChar(DigitValue(ch)) == ch
  {
  }
}
