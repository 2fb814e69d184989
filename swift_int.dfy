/**
 * Swift's integer parsing, `Int(_:)` and `Int(_:radix:)`, on a 64-bit
 * platform: an optional `+` or `-`, then one or more digits of the radix
 * (letters in either case above 9), and a value that fits in `Int`.
 */
module SwiftInt {
  import opened Wrappers

  const INT_MIN: int := -0x8000_0000_0000_0000
  const INT_MAX: int := 0x7FFF_FFFF_FFFF_FFFF

  type Radix = r: nat | 2 <= r <= 36 witness 10

  /** The value of `c` as a digit, when it is one in `radix`. */
  function DigitValue(c: char, radix: Radix): (d: Option<nat>)
    ensures d.Some? ==> d.value < radix
  {
    var v: int :=
      if '0' <= c <= '9' then c as int - '0' as int
      else if 'a' <= c <= 'z' then c as int - 'a' as int + 10
      else if 'A' <= c <= 'Z' then c as int - 'A' as int + 10
      else radix;
    if v < radix then Some(v) else None
  }

  predicate IsDigits(s: string, radix: Radix) {
    forall i :: 0 <= i < |s| ==> DigitValue(s[i], radix).Some?
  }

  /** The number a run of digits denotes, most significant digit first. */
  function DigitsValue(s: string, radix: Radix): nat
    requires IsDigits(s, radix)
  {
    if s == [] then 0
    else DigitsValue(s[..|s| - 1], radix) * radix + DigitValue(s[|s| - 1], radix).value
  }

  /** `Int(text, radix: radix)`. */
  function ParseInt(text: string, radix: Radix): (r: Option<int>)
  {
    var signed := |text| > 0 && (text[0] == '-' || text[0] == '+');
    var digits := if signed then text[1..] else text;
    if digits == [] || !IsDigits(digits, radix) then None
    else
      var magnitude: int := DigitsValue(digits, radix);
      var v: int := if signed && text[0] == '-' then -magnitude else magnitude;
      if INT_MIN <= v <= INT_MAX then Some(v) else None
  }

  /** Without a minus sign the parsed value is never negative; every accepted text is non-empty and in range. */
  lemma ParseIntRange(text: string, radix: Radix)
    ensures ParseInt(text, radix).Some? ==> |text| > 0 && INT_MIN <= ParseInt(text, radix).value <= INT_MAX
    ensures ParseInt(text, radix).Some? && '-' !in text ==> ParseInt(text, radix).value >= 0
  {
    if |text| > 0 && text[0] == '-' {
      assert '-' in text;
    }
  }

  /** Appending digits shifts the value left by one radix position per digit. */
  lemma {:induction false} DigitsValueAppend(a: string, b: string, radix: Radix)
    requires IsDigits(a, radix) && IsDigits(b, radix)
    ensures IsDigits(a + b, radix)
    ensures DigitsValue(a + b, radix) == DigitsValue(a, radix) * Pow(radix, |b|) + DigitsValue(b, radix)
    decreases |b|
  {
    var s := a + b;
    assert forall i :: 0 <= i < |s| ==> s[i] == if i < |a| then a[i] else b[i - |a|];
    if b == [] {
      assert s == a;
    } else {
      var b' := b[..|b| - 1];
      assert s[..|s| - 1] == a + b';
      assert s[|s| - 1] == b[|b| - 1];
      DigitsValueAppend(a, b', radix);
      var d := DigitValue(b[|b| - 1], radix).value;
      var x, p, y := DigitsValue(a, radix), Pow(radix, |b'|), DigitsValue(b', radix);
      assert DigitsValue(s, radix) == (x * p + y) * radix + d;
      Distribute(x, p, y, radix, d);
      assert Pow(radix, |b|) == p * radix;
      assert DigitsValue(b, radix) == y * radix + d;
    }
  }

  lemma Distribute(x: int, p: int, y: int, r: int, d: int)
    ensures (x * p + y) * r + d == x * (p * r) + (y * r + d)
  {
  }

  function Pow(base: nat, e: nat): (r: nat)
  {
    if e == 0 then 1 else Pow(base, e - 1) * base
  }
}
