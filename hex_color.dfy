/**
 * `UIColor(hex:)`: every `#` is removed, the rest is read with
 * `Int(_, radix: 16)`, and the red, green and blue components are bits
 * 16-23, 8-15 and 0-7 of that 64-bit integer.  The components are kept
 * as the integer bytes 0-255 that the source divides by 255.
 */
module HexColor {
  import opened Wrappers
  import opened Strings
  import opened SwiftInt

  /** A colour with byte components; alpha is always 1 where the chat code builds one. */
  datatype Rgb = Rgb(red: int, green: int, blue: int)

  predicate IsByte(x: int) { 0 <= x < 256 }

  predicate ValidRgb(c: Rgb) { IsByte(c.red) && IsByte(c.green) && IsByte(c.blue) }

  /** `UIColor(red: 0, green: 1, blue: 0, alpha: 1)`, the fallback colour of a chat name. */
  const GREEN: Rgb := Rgb(0, 255, 0)

  /**
   * `(v & mask) >> shift` for a mask of eight one bits at `shift` on a
   * two's-complement integer: the quotient by `unit` = 2^shift, rounded down,
   * taken modulo 256.  Dafny's `/` and `%` with a positive divisor round
   * down and never give a negative remainder, which is that bit pattern
   * also for negative `v`.
   */
  function ByteAt(v: int, unit: int): (b: int)
    requires unit > 0
    ensures IsByte(b)
  {
    (v / unit) % 256
  }

  /** The text `Int(_, radix: 16)` reads: the input with every `#` removed. */
  function WithoutHashes(hex: string): (r: string)
    ensures '#' !in r
    ensures '#' !in hex ==> r == hex
    decreases |hex|
  {
    ReplaceAllNone(hex);
    ReplaceAll(hex, "#", "")
  }

  /** Removing the empty replacement never leaves a `#` behind. */
  lemma {:induction false} ReplaceAllNone(s: string)
    ensures '#' !in ReplaceAll(s, "#", "")
    decreases |s|
  {
    if |s| >= 1 {
      if s[..1] == "#" {
        ReplaceAllNone(s[1..]);
      } else {
        ReplaceAllNone(s[1..]);
        assert s[0] != '#';
      }
    }
  }

  /** `UIColor(hex:)`; nil when the text left after removing `#` is not a 64-bit hexadecimal integer. */
  function FromHex(hex: string): (r: Option<Rgb>)
    ensures r.Some? <==> ParseInt(WithoutHashes(hex), 16).Some?
    ensures r.Some? ==> ValidRgb(r.value)
  {
    match ParseInt(WithoutHashes(hex), 16)
    case None => None
    case Some(v) => Some(Rgb(ByteAt(v, 65536), ByteAt(v, 256), ByteAt(v, 1)))
  }

  /** The colour a chat message gets for a hex text: the decoded colour, or green. */
  function ColorOr(hex: Option<string>): (c: Rgb)
    ensures ValidRgb(c)
    ensures hex.None? ==> c == GREEN
  {
    if hex.Some? && FromHex(hex.value).Some? then FromHex(hex.value).value else GREEN
  }

  // ---------------------------------------------------------------------
  // Writing a colour as `#rrggbb` and reading it back

  function HexDigit(d: int): char
    requires 0 <= d < 16
  {
    if d < 10 then ('0' as int + d) as char else ('a' as int + d - 10) as char
  }

  /** Two lower-case hexadecimal digits, high nibble first. */
  function HexByte(x: int): string
    requires IsByte(x)
  {
    [HexDigit(x / 16), HexDigit(x % 16)]
  }

  /** The `#rrggbb` text the chat server sends in the `color` tag. */
  function ToHex(c: Rgb): (s: string)
    requires ValidRgb(c)
  {
    "#" + (HexByte(c.red) + HexByte(c.green) + HexByte(c.blue))
  }

  lemma HexDigitValue(d: int)
    requires 0 <= d < 16
    ensures DigitValue(HexDigit(d), 16) == Some(d)
  {
  }

  lemma HexByteValue(x: int)
    requires IsByte(x)
    ensures IsDigits(HexByte(x), 16) && DigitsValue(HexByte(x), 16) == x
  {
    var s := HexByte(x);
    HexDigitValue(x / 16);
    HexDigitValue(x % 16);
    assert s[..1] == [HexDigit(x / 16)];
    assert s[..1][..0] == [];
    assert DigitsValue(s[..1], 16) == x / 16;
    assert DigitsValue(s, 16) == x / 16 * 16 + x % 16;
  }

  /** Six digits denote red * 65536 + green * 256 + blue. */
  lemma DigitsOfHex(c: Rgb)
    requires ValidRgb(c)
    ensures var digits := HexByte(c.red) + HexByte(c.green) + HexByte(c.blue);
      && IsDigits(digits, 16) && DigitsValue(digits, 16) == c.red * 65536 + c.green * 256 + c.blue
  {
    var r, g, b := HexByte(c.red), HexByte(c.green), HexByte(c.blue);
    HexByteValue(c.red);
    HexByteValue(c.green);
    HexByteValue(c.blue);
    assert |g| == 2 && |b| == 2;
    assert Pow(16, 2) == 256;
    DigitsValueAppend(r, g, 16);
    assert DigitsValue(r + g, 16) == c.red * 256 + c.green;
    DigitsValueAppend(r + g, b, 16);
    assert DigitsValue(r + g + b, 16) == (c.red * 256 + c.green) * 256 + c.blue;
  }

  /** The bytes of a 24-bit value written as red * 65536 + green * 256 + blue. */
  lemma BytesOfValue(c: Rgb)
    requires ValidRgb(c)
    ensures var v := c.red * 65536 + c.green * 256 + c.blue;
      ByteAt(v, 65536) == c.red && ByteAt(v, 256) == c.green && ByteAt(v, 1) == c.blue
  {
    var v := c.red * 65536 + c.green * 256 + c.blue;
    assert v / 65536 == c.red;
    assert v / 256 == c.red * 256 + c.green;
  }

  /** Reading back the `#rrggbb` text of a colour gives that colour. */
  lemma FromToHex(c: Rgb)
    requires ValidRgb(c)
    ensures FromHex(ToHex(c)) == Some(c)
  {
    TextOfHex(c);
    ParseOfHex(c);
    var v := c.red * 65536 + c.green * 256 + c.blue;
    assert ParseInt(WithoutHashes(ToHex(c)), 16) == Some(v);
    BytesOfValue(c);
  }

  lemma TextOfHex(c: Rgb)
    requires ValidRgb(c)
    ensures WithoutHashes(ToHex(c)) == HexByte(c.red) + HexByte(c.green) + HexByte(c.blue)
  {
    var digits := HexByte(c.red) + HexByte(c.green) + HexByte(c.blue);
    DigitsOfHex(c);
    assert '#' !in digits by {
      assert forall i :: 0 <= i < |digits| ==> DigitValue(digits[i], 16).Some?;
    }
    ReplaceAllAtFront(digits, "#", "");
  }

  lemma ParseOfHex(c: Rgb)
    requires ValidRgb(c)
    ensures ParseInt(HexByte(c.red) + HexByte(c.green) + HexByte(c.blue), 16) == Some(c.red * 65536 + c.green * 256 + c.blue)
  {
    var digits := HexByte(c.red) + HexByte(c.green) + HexByte(c.blue);
    DigitsOfHex(c);
    assert DigitValue(digits[0], 16).Some?;
  }

  /** The `#` marks are ignored wherever they are: `#a#bc` reads as `abc`. */
  lemma HashesIgnored(a: string, b: string)
    ensures FromHex(a + "#" + b) == FromHex(a + b)
  {
    HashesDropped(a, b);
  }

  lemma {:induction false} HashesDropped(a: string, b: string)
    ensures WithoutHashes(a + "#" + b) == WithoutHashes(a + b)
    decreases |a|
  {
    if a == [] {
      assert a + "#" + b == "#" + b;
      ReplaceAllAtFront(b, "#", "");
      assert a + b == b;
    } else {
      HashesDropped(a[1..], b);
      assert (a + "#" + b)[1..] == a[1..] + "#" + b;
      assert (a + b)[1..] == a[1..] + b;
      if a[0] == '#' {
        assert (a + "#" + b)[..1] == "#";
        assert (a + b)[..1] == "#";
      } else {
        assert (a + "#" + b)[..1] != "#";
        assert (a + b)[..1] != "#";
      }
    }
  }

  /** An empty tag, or one that is only `#` marks, gives no colour. */
  lemma EmptyHexFails(hashes: nat)
    ensures FromHex(seq(hashes, _ => '#')) == None
  {
    OnlyHashes(hashes);
  }

  lemma {:induction false} OnlyHashes(hashes: nat)
    ensures WithoutHashes(seq(hashes, _ => '#')) == []
    decreases hashes
  {
    var s := seq(hashes, _ => '#');
    if hashes > 0 {
      OnlyHashes(hashes - 1);
      assert s[..1] == "#";
      assert s[1..] == seq(hashes - 1, _ => '#');
    }
  }

  /** A sign is read as part of the integer: `-1` is all ones in two's complement, so white. */
  lemma MinusOneIsWhite()
    ensures FromHex("-1") == Some(Rgb(255, 255, 255))
  {
    assert WithoutHashes("-1") == "-1";
    assert "-1"[1..] == "1";
    assert IsDigits("1", 16);
    assert "1"[..0] == [];
    assert DigitsValue("1", 16) == 1;
  }
}
