/** `shadeColor` (apps/client/src/features/avatar/components/AvatarRenderer.tsx):
    read a `#rrggbb` colour, add `percent` to each channel, clamp each to
    0..255 and print the result as `#` and six lower-case hex digits.
    The bit operations of the source are written as the arithmetic they
    amount to on 24-bit values: `n >> 16` is `n / 65536`,
    `(n >> 8) & 0xff` is `(n / 256) % 256`, `n & 0xff` is `n % 256`, and
    `(r << 16) | (g << 8) | b` is `r * 65536 + g * 256 + b` for channels
    below 256. */
module ShadeColor {
  import opened Common

  predicate IsHexDigit(c: char) {
    ('0' <= c <= '9') || ('a' <= c <= 'f') || ('A' <= c <= 'F')
  }

  predicate IsLowerHexDigit(c: char) {
    ('0' <= c <= '9') || ('a' <= c <= 'f')
  }

  predicate AllHex(s: string) {
    forall i :: 0 <= i < |s| ==> IsHexDigit(s[i])
  }

  /** A colour as the avatar manifest writes them: `#` and six hex digits. */
  predicate IsHexColor(s: string) {
    |s| == 7 && s[0] == '#' && AllHex(s[1..])
  }

  function DigitValue(c: char): (v: nat)
    requires IsHexDigit(c)
    ensures v < 16
  {
    if '0' <= c <= '9' then (c - '0') as nat
    else if 'a' <= c <= 'f' then (c - 'a') as nat + 10
    else (c - 'A') as nat + 10
  }

  /** The digit `Number.prototype.toString(16)` writes for `v`. */
  function LowerDigit(v: nat): (c: char)
    requires v < 16
    ensures IsLowerHexDigit(c) && DigitValue(c) == v
  {
    "0123456789abcdef"[v]
  }

  function Pow16(n: nat): (p: nat)
    ensures p >= 1
  {
    if n == 0 then 1 else 16 * Pow16(n - 1)
  }

  lemma Pow16Values()
    ensures Pow16(2) == 0x100 && Pow16(4) == 0x1_0000 && Pow16(6) == 0x100_0000
  {
    assert Pow16(1) == 16;
    assert Pow16(3) == 0x1000;
    assert Pow16(5) == 0x10_0000;
  }

  /** `parseInt(s, 16)` on a string of hex digits. */
  function ParseHex(s: string): nat
    requires AllHex(s)
  {
    ParseDigits(s, |s|)
  }

  /** The value of the first `k` digits of `s`. */
  function ParseDigits(s: string, k: nat): nat
    requires AllHex(s) && k <= |s|
  {
    if k == 0 then 0 else ParseDigits(s, k - 1) * 16 + DigitValue(s[k - 1])
  }

  /** Two digits: the high one counts sixteen times. */
  lemma ParseTwo(s: string)
    requires |s| == 2 && AllHex(s)
    ensures ParseHex(s) == DigitValue(s[0]) * 16 + DigitValue(s[1])
  {
    assert ParseDigits(s, 1) == DigitValue(s[0]);
  }

  /** Six digits, written out by place value. */
  lemma ParseSix(s: string)
    requires |s| == 6 && AllHex(s)
    ensures ParseHex(s) ==
      DigitValue(s[0]) * 0x10_0000 + DigitValue(s[1]) * 0x1_0000 + DigitValue(s[2]) * 0x1000 +
      DigitValue(s[3]) * 0x100 + DigitValue(s[4]) * 0x10 + DigitValue(s[5])
  {
    assert ParseDigits(s, 1) == DigitValue(s[0]);
    assert ParseDigits(s, 3) == ParseDigits(s, 1) * 256 + DigitValue(s[1]) * 16 + DigitValue(s[2]);
    assert ParseDigits(s, 5) == ParseDigits(s, 3) * 256 + DigitValue(s[3]) * 16 + DigitValue(s[4]);
  }

  /** `s` as exactly `width` lower-case hex digits, leading zeros included. */
  function HexDigits(n: nat, width: nat): (s: string)
    ensures |s| == width
  {
    if width == 0 then [] else HexDigits(n / 16, width - 1) + [LowerDigit(n % 16)]
  }

  /** `n.toString(16)`: lower-case digits, no leading zeros, `"0"` for 0. */
  function ToHexString(n: nat): (s: string)
    ensures |s| >= 1
  {
    if n < 16 then [LowerDigit(n)] else ToHexString(n / 16) + [LowerDigit(n % 16)]
  }

  function Zeros(k: nat): (s: string)
    ensures |s| == k && forall i :: 0 <= i < k ==> s[i] == '0'
  {
    if k == 0 then [] else Zeros(k - 1) + ['0']
  }

  /** `s.padStart(width, "0")` */
  function PadStart(s: string, width: nat): (r: string)
    ensures |r| == if |s| >= width then |s| else width
  {
    if |s| >= width then s else Zeros(width - |s|) + s
  }

  /** Zero digits are zeros. */
  lemma {:induction false} HexDigitsOfZero(width: nat)
    ensures HexDigits(0, width) == Zeros(width)
  {
    if width > 0 {
      HexDigitsOfZero(width - 1);
    }
  }

  /** A number that fits in `width` digits prints, padded, as its
      fixed-width digits. */
  lemma {:induction false} PaddedIsFixedWidth(n: nat, width: nat)
    requires width >= 1 && n < Pow16(width)
    ensures |ToHexString(n)| <= width
    ensures PadStart(ToHexString(n), width) == HexDigits(n, width)
    decreases width
  {
    var q, m := n / 16, n % 16;
    assert HexDigits(n, width) == HexDigits(q, width - 1) + [LowerDigit(m)];
    if n < 16 {
      assert q == 0 && m == n;
      HexDigitsOfZero(width - 1);
      assert ToHexString(n) == [LowerDigit(m)];
    } else {
      assert width >= 2;
      assert q < Pow16(width - 1);
      PaddedIsFixedWidth(q, width - 1);
      var h := ToHexString(q);
      assert ToHexString(n) == h + [LowerDigit(m)];
      var z := Zeros(width - |h| - 1);
      assert HexDigits(q, width - 1) == z + h;
      assert z + h + [LowerDigit(m)] == z + (h + [LowerDigit(m)]);
    }
  }

  /** The last two of `k + 2` digits are the value's low byte, the rest
      its high part. */
  lemma HexDigitsSplit8(x: nat, k: nat)
    ensures HexDigits(x, k + 2) == HexDigits(x / 256, k) + HexDigits(x % 256, 2)
  {
    var lo := x % 256;
    DivMod16(x, x / 256, lo);
    assert HexDigits(x, k + 2) == HexDigits(x / 256, k) + [LowerDigit(lo / 16)] + [LowerDigit(lo % 16)];
    assert HexDigits(lo, 2) == [] + [LowerDigit(lo / 16)] + [LowerDigit(lo % 16)];
  }

  /** Dividing a byte-shifted value by sixteen, twice. */
  lemma DivMod16(x: nat, q: nat, m: nat)
    requires m < 256 && x == q * 256 + m
    ensures x / 16 / 16 == q && (x / 16) % 16 == m / 16 && x % 16 == m % 16
    ensures m / 16 / 16 == 0 && (m / 16) % 16 == m / 16
  {
    assert x == (q * 16 + m / 16) * 16 + m % 16;
    assert x / 16 == q * 16 + m / 16;
  }

  /** `parseInt` followed by fixed-width printing gives back a lower-case
      digit string, prefix by prefix. */
  lemma {:induction false} HexDigitsOfParse(s: string, k: nat)
    requires AllHex(s) && k <= |s|
    requires forall i :: 0 <= i < |s| ==> IsLowerHexDigit(s[i])
    ensures HexDigits(ParseDigits(s, k), k) == s[..k]
  {
    if k > 0 {
      HexDigitsOfParse(s, k - 1);
      var v := DigitValue(s[k - 1]);
      var x := ParseDigits(s, k);
      Split16(x, ParseDigits(s, k - 1), v);
      LowerDigitOfValue(s[k - 1]);
      assert HexDigits(x, k) == s[..k - 1] + [s[k - 1]];
      assert s[..k] == s[..k - 1] + [s[k - 1]];
    }
  }

  /** Division and remainder by 16 undo a shift by one digit. */
  lemma Split16(x: nat, q: nat, m: nat)
    requires m < 16 && x == q * 16 + m
    ensures x / 16 == q && x % 16 == m
  {
  }

  /** A lower-case digit is printed as itself. */
  lemma LowerDigitOfValue(c: char)
    requires IsLowerHexDigit(c)
    ensures IsHexDigit(c) && LowerDigit(DigitValue(c)) == c
  {
  }

  /** The three channels of a 24-bit colour. */
  function Red(num: nat): nat { num / 65536 }
  function Green(num: nat): nat { (num / 256) % 256 }
  function Blue(num: nat): nat { num % 256 }

  /** Putting the channels back together gives the colour again. */
  lemma ChannelsRecombine(num: nat)
    requires num < 0x100_0000
    ensures Red(num) < 256
    ensures Red(num) * 65536 + Green(num) * 256 + Blue(num) == num
  {
  }

  /** The channels are the three digit pairs. */
  lemma ChannelsAreDigitPairs(digits: string)
    requires |digits| == 6 && AllHex(digits)
    ensures AllHex(digits[..2]) && AllHex(digits[2..4]) && AllHex(digits[4..])
    ensures Red(ParseHex(digits)) == ParseHex(digits[..2])
    ensures Green(ParseHex(digits)) == ParseHex(digits[2..4])
    ensures Blue(ParseHex(digits)) == ParseHex(digits[4..])
  {
    var r, g, b := digits[..2], digits[2..4], digits[4..];
    assert AllHex(r) && AllHex(g) && AllHex(b);
    ParseSix(digits);
    ParseTwo(r);
    ParseTwo(g);
    ParseTwo(b);
    assert r[0] == digits[0] && r[1] == digits[1];
    assert g[0] == digits[2] && g[1] == digits[3];
    assert b[0] == digits[4] && b[1] == digits[5];
    var num := ParseHex(digits);
    var rv, gv, bv := ParseHex(r), ParseHex(g), ParseHex(b);
    assert num == (rv * 256 + gv) * 256 + bv;
    Split256(num, rv * 256 + gv, bv);
    Split256(rv * 256 + gv, rv, gv);
    Split65536(rv, gv * 256 + bv);
  }

  /** Division and remainder by 256 undo a shift by eight bits. */
  lemma Split256(x: nat, q: nat, r: nat)
    requires r < 256 && x == q * 256 + r
    ensures x / 256 == q && x % 256 == r
  {
  }

  /** Division by 65536 undoes a shift by sixteen bits. */
  lemma Split65536(q: nat, r: nat)
    requires r < 65536
    ensures (q * 65536 + r) / 65536 == q
  {
  }

  /** A three-channel colour printed through one packed number comes out
      as the three channels printed two digits each. */
  lemma PackedDigits(r: nat, g: nat, b: nat)
    requires r < 256 && g < 256 && b < 256
    ensures PadStart(ToHexString(r * 65536 + g * 256 + b), 6) ==
      HexDigits(r, 2) + HexDigits(g, 2) + HexDigits(b, 2)
  {
    PackBound(r, g, b);
    Pow16Values();
    PaddedIsFixedWidth(r * 65536 + g * 256 + b, 6);
    SixDigits(r, g, b, r * 65536 + g * 256 + b);
  }

  /** Six digits of a packed colour are its channels' digit pairs. */
  lemma SixDigits(r: nat, g: nat, b: nat, packed: nat)
    requires r < 256 && g < 256 && b < 256 && packed == r * 65536 + g * 256 + b
    ensures HexDigits(packed, 6) == HexDigits(r, 2) + HexDigits(g, 2) + HexDigits(b, 2)
  {
    var hi := r * 256 + g;
    PackBound(r, g, b);
    Split256(packed, hi, b);
    Split256(hi, r, g);
    HexDigitsSplit8(packed, 4);
    HexDigitsSplit8(hi, 2);
  }

  /** The packed colour is the two high channels shifted past the low one,
      and fits in six digits. */
  lemma PackBound(r: nat, g: nat, b: nat)
    requires r < 256 && g < 256 && b < 256
    ensures r * 65536 + g * 256 + b == (r * 256 + g) * 256 + b
    ensures (r * 256 + g) * 256 + b < 0x100_0000
  {
    assert r * 65536 <= 255 * 65536;
  }

  /** The shaded value of one channel. */
  function Shaded(channel: nat, percent: int): (v: nat)
    ensures v < 256
  {
    Clamp(channel + percent, 0, 255)
  }

  /** `shadeColor(hex, percent)`: the packed result, printed and padded,
      is the three shaded channels as two digits each. */
  function Shade(hex: string, percent: int): (out: string)
    requires IsHexColor(hex)
    ensures out == "#" + (
      HexDigits(Shaded(Red(ParseHex(hex[1..])), percent), 2) +
      HexDigits(Shaded(Green(ParseHex(hex[1..])), percent), 2) +
      HexDigits(Shaded(Blue(ParseHex(hex[1..])), percent), 2))
  {
    var num := ParseHex(hex[1..]);
    var r := Shaded(Red(num), percent);
    var g := Shaded(Green(num), percent);
    var b := Shaded(Blue(num), percent);
    PackedDigits(r, g, b);
    "#" + PadStart(ToHexString(r * 65536 + g * 256 + b), 6)
  }

  /** Where the three pairs of a `#` colour sit. */
  lemma ColorLayout(s: string, a: string, b: string, c: string)
    requires |a| == 2 && |b| == 2 && |c| == 2 && s == "#" + (a + b + c)
    ensures |s| == 7 && s[0] == '#'
    ensures s[1..3] == a && s[3..5] == b && s[5..] == c
    ensures forall i :: 1 <= i < 3 ==> s[i] == a[i - 1]
    ensures forall i :: 3 <= i < 5 ==> s[i] == b[i - 3]
    ensures forall i :: 5 <= i < 7 ==> s[i] == c[i - 5]
  {
  }

  /** Fixed-width digits are lower-case hex digits. */
  lemma {:induction false} HexDigitsLower(n: nat, width: nat)
    ensures forall i :: 0 <= i < width ==> IsLowerHexDigit(HexDigits(n, width)[i])
  {
    if width > 0 {
      HexDigitsLower(n / 16, width - 1);
    }
  }

  /** Two printed digits read back as the channel. */
  lemma ParseHexDigits2(v: nat)
    requires v < 256
    ensures AllHex(HexDigits(v, 2)) && ParseHex(HexDigits(v, 2)) == v
  {
    var d := HexDigits(v, 2);
    HexDigitsLower(v, 2);
    assert HexDigits(v / 16, 1) == [LowerDigit(v / 16 % 16)];
    assert d == [LowerDigit(v / 16 % 16), LowerDigit(v % 16)];
    ParseTwo(d);
  }

  /** The output is `#` followed by six lower-case hex digits. */
  lemma ShadeFormat(hex: string, percent: int)
    requires IsHexColor(hex)
    ensures |Shade(hex, percent)| == 7 && Shade(hex, percent)[0] == '#'
    ensures forall i :: 1 <= i < 7 ==> IsLowerHexDigit(Shade(hex, percent)[i])
  {
    var num := ParseHex(hex[1..]);
    var r, g, b := Shaded(Red(num), percent), Shaded(Green(num), percent), Shaded(Blue(num), percent);
    HexDigitsLower(r, 2);
    HexDigitsLower(g, 2);
    HexDigitsLower(b, 2);
    ColorLayout(Shade(hex, percent), HexDigits(r, 2), HexDigits(g, 2), HexDigits(b, 2));
  }

  /** The input's channels are its three digit pairs. */
  lemma ColorChannels(hex: string)
    requires IsHexColor(hex)
    ensures AllHex(hex[1..3]) && AllHex(hex[3..5]) && AllHex(hex[5..])
    ensures Red(ParseHex(hex[1..])) == ParseHex(hex[1..3])
    ensures Green(ParseHex(hex[1..])) == ParseHex(hex[3..5])
    ensures Blue(ParseHex(hex[1..])) == ParseHex(hex[5..])
  {
    var d := hex[1..];
    ChannelsAreDigitPairs(d);
    assert d[..2] == hex[1..3] && d[2..4] == hex[3..5] && d[4..] == hex[5..];
  }

  /** Each output channel is the input channel plus `percent`, clamped to
      0..255. */
  lemma ShadeChannels(hex: string, percent: int)
    requires IsHexColor(hex)
    ensures AllHex(hex[1..3]) && AllHex(hex[3..5]) && AllHex(hex[5..])
    ensures |Shade(hex, percent)| == 7
    ensures AllHex(Shade(hex, percent)[1..3]) && AllHex(Shade(hex, percent)[3..5]) && AllHex(Shade(hex, percent)[5..])
    ensures ParseHex(Shade(hex, percent)[1..3]) == Clamp(ParseHex(hex[1..3]) + percent, 0, 255)
    ensures ParseHex(Shade(hex, percent)[3..5]) == Clamp(ParseHex(hex[3..5]) + percent, 0, 255)
    ensures ParseHex(Shade(hex, percent)[5..]) == Clamp(ParseHex(hex[5..]) + percent, 0, 255)
  {
    ColorChannels(hex);
    var num := ParseHex(hex[1..]);
    var r, g, b := Shaded(Red(num), percent), Shaded(Green(num), percent), Shaded(Blue(num), percent);
    ColorLayout(Shade(hex, percent), HexDigits(r, 2), HexDigits(g, 2), HexDigits(b, 2));
    ParseHexDigits2(r);
    ParseHexDigits2(g);
    ParseHexDigits2(b);
  }

  /** With `percent` 0 a lower-case `#rrggbb` colour comes back unchanged. */
  lemma ShadeByZero(hex: string)
    requires |hex| == 7 && hex[0] == '#'
    requires forall i :: 1 <= i < 7 ==> IsLowerHexDigit(hex[i])
    ensures IsHexColor(hex) && Shade(hex, 0) == hex
  {
    var d := hex[1..];
    assert forall i :: 0 <= i < |d| ==> IsLowerHexDigit(d[i]) && IsHexDigit(d[i]);
    ReprintedDigits(d);
    var num := ParseHex(d);
    assert Shaded(Red(num), 0) == Red(num);
    assert Shaded(Green(num), 0) == Green(num);
    assert Shaded(Blue(num), 0) == Blue(num);
    assert hex == "#" + d;
  }

  /** Six lower-case digits, parsed and split into channels, print back as
      themselves. */
  lemma ReprintedDigits(d: string)
    requires |d| == 6 && forall i :: 0 <= i < 6 ==> IsLowerHexDigit(d[i]) && IsHexDigit(d[i])
    ensures AllHex(d)
    ensures ParseHex(d) < 0x100_0000
    ensures HexDigits(Red(ParseHex(d)), 2) + HexDigits(Green(ParseHex(d)), 2) + HexDigits(Blue(ParseHex(d)), 2) == d
  {
    HexDigitsOfParse(d, 6);
    assert d[..6] == d;
    var num := ParseHex(d);
    ParseSix(d);
    ChannelsRecombine(num);
    PackedDigits(Red(num), Green(num), Blue(num));
    Pow16Values();
    PaddedIsFixedWidth(num, 6);
  }
}
