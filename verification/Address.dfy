/** `rfcomm::Address`: the 48-bit device address, its text form and its numeric form. */
module Addresses {
  import opened Prelude
  import opened Numerals

  type Bytes6 = b: seq<byte> | |b| == 6 witness [0, 0, 0, 0, 0, 0]
  datatype Address = Address(bytes: Bytes6)

  const TWO48: nat := 281474976710656
  const TWO64: nat := 18446744073709551616

  // ---- the language and its meaning ----

  predicate IsSeparator(c: char) {
    c == ':' || c == '-'
  }

  /** Six pairs of hex digits with a `:` or `-` (freely mixed) between them. */
  predicate Accepted(str: string) {
    |str| == 17 && forall i :: 0 <= i < 17 ==> if i % 3 == 2 then IsSeparator(str[i]) else IsHex(str[i])
  }

  function Decode(str: string): Bytes6
    requires Accepted(str)
  {
    seq(6, k requires 0 <= k < 6 => HexByte(str[3 * k], str[3 * k + 1]))
  }

  function RenderAt(b: Bytes6, i: nat): char
    requires i < 17
  {
    if i % 3 == 2 then ':'
    else if i % 3 == 0 then UpperDigit(b[i / 3] / 16)
    else UpperDigit(b[i / 3] % 16)
  }

  function Render(b: Bytes6): (s: string)
    ensures |s| == 17
  {
    seq(17, i requires 0 <= i < 17 => RenderAt(b, i))
  }

  /** The same text in upper case with colons. */
  function Canonical(str: string): (s: string)
    ensures |s| == |str|
  {
    seq(|str|, i requires 0 <= i < |str| => if i % 3 == 2 then ':' else ToUpper(str[i]))
  }

  // ---- the scanner and the printer ----

  method TryParse(str: string) returns (r: Option<Address>)
    ensures r.Some? <==> Accepted(str)
    ensures r.Some? ==> r.value.bytes == Decode(str)
  {
    var parsed := new byte[6](_ => 0);
    var byteIdx, currentVal, digits := 0, 0, 0;
    for i := 0 to |str|
      invariant 0 <= byteIdx <= 5 && 0 <= digits <= 2 && i == 3 * byteIdx + digits
      invariant forall j :: 0 <= j < i ==> if j % 3 == 2 then IsSeparator(str[j]) else IsHex(str[j])
      invariant currentVal ==
          (if digits == 0 then 0
           else if digits == 1 then HexVal(str[i - 1])
           else 16 * HexVal(str[i - 2]) + HexVal(str[i - 1]))
      invariant forall k :: 0 <= k < byteIdx ==> parsed[k] == HexByte(str[3 * k], str[3 * k + 1])
    {
      var c := str[i];
      var hexVal := HexVal(c);
      if hexVal >= 0 {
        currentVal := currentVal * 16 + hexVal;
        digits := digits + 1;
        if digits > 2 {
          return None;
        }
      } else if c == ':' || c == '-' {
        if digits != 2 || byteIdx >= 5 {
          return None;
        }
        parsed[byteIdx] := currentVal;
        byteIdx := byteIdx + 1;
        currentVal := 0;
        digits := 0;
      } else {
        return None;
      }
    }
    if digits != 2 || byteIdx != 5 {
      return None;
    }
    parsed[byteIdx] := currentVal;
    return Some(Address(parsed[..]));
  }

  method ToString(a: Address) returns (s: string)
    ensures s == Render(a.bytes)
  {
    s := "";
    for i := 0 to 6
      invariant |s| == Min(3 * i, 17) && s == Render(a.bytes)[..|s|]
    {
      s := s + [UpperDigit(a.bytes[i] / 16), UpperDigit(a.bytes[i] % 16)];
      if i + 1 < 6 {
        s := s + ":";
      }
    }
  }

  /** `str` is a way to write the address `b`. */
  predicate Writes(str: string, b: Bytes6) {
    && |str| == 17
    && (forall k :: 0 <= k < 6 ==> Spells(str[3 * k], str[3 * k + 1], b[k]))
    && (forall k :: 0 <= k < 5 ==> str[3 * k + 2] == ':' || str[3 * k + 2] == '-')
  }

  /** What is accepted, character by character, and as what. */
  lemma AcceptedExact(str: string, b: Bytes6)
    ensures Accepted(str) && Decode(str) == b <==> Writes(str, b)
  {
    hide HexVal, HexByte, Spells;
    if |str| == 17 {
      forall k | 0 <= k < 6
        ensures Spells(str[3 * k], str[3 * k + 1], b[k]) <==>
                IsHex(str[3 * k]) && IsHex(str[3 * k + 1]) && HexByte(str[3 * k], str[3 * k + 1]) == b[k]
      {
        SpellsExact(str[3 * k], str[3 * k + 1], b[k]);
      }
      if Writes(str, b) {
        WritesAccepted(str, b);
      }
      if Accepted(str) && Decode(str) == b {
        forall k | 0 <= k < 6 ensures Spells(str[3 * k], str[3 * k + 1], b[k]) {
          assert (3 * k) % 3 == 0 && (3 * k + 1) % 3 == 1;
        }
      }
    }
  }

  lemma WritesAccepted(str: string, b: Bytes6)
    requires Writes(str, b)
    ensures Accepted(str) && Decode(str) == b
  {
    hide HexVal, HexByte, Spells;
    forall i | 0 <= i < 17 ensures if i % 3 == 2 then IsSeparator(str[i]) else IsHex(str[i]) {
      var k := i / 3;
      assert Spells(str[3 * k], str[3 * k + 1], b[k]);
      SpellsExact(str[3 * k], str[3 * k + 1], b[k]);
      assert i == 3 * k || i == 3 * k + 1 || i == 3 * k + 2;
    }
    forall k | 0 <= k < 6 ensures Decode(str)[k] == b[k] {
      SpellsExact(str[3 * k], str[3 * k + 1], b[k]);
    }
  }

  /** The printed form: two upper-case digits for each byte and colons between them. */
  lemma RenderExact(b: Bytes6)
    ensures |Render(b)| == 17
    ensures forall k :: 0 <= k < 6 ==> Render(b)[3 * k] == UPPER[b[k] / 16] && Render(b)[3 * k + 1] == UPPER[b[k] % 16]
    ensures forall k :: 0 <= k < 5 ==> Render(b)[3 * k + 2] == ':'
  {
    hide Render;
    forall k | 0 <= k < 6
      ensures Render(b)[3 * k] == UPPER[b[k] / 16] && Render(b)[3 * k + 1] == UPPER[b[k] % 16]
      ensures k < 5 ==> Render(b)[3 * k + 2] == ':'
    {
      RenderByte(b, k);
    }
  }

  lemma RenderByte(b: Bytes6, k: nat)
    requires k < 6
    ensures Render(b)[3 * k] == UPPER[b[k] / 16] && Render(b)[3 * k + 1] == UPPER[b[k] % 16]
    ensures k < 5 ==> Render(b)[3 * k + 2] == ':'
  {
    hide UpperDigit;
    DigitTable('0', b[k] / 16);
    DigitTable('0', b[k] % 16);
    assert RenderAt(b, 3 * k) == UpperDigit(b[k] / 16) && RenderAt(b, 3 * k + 1) == UpperDigit(b[k] % 16) by {
      assert (3 * k) / 3 == k && (3 * k + 1) / 3 == k && (3 * k) % 3 == 0 && (3 * k + 1) % 3 == 1;
    }
  }

  /** Printing inverts: every address is read back from its text. */
  lemma ParseInvertsPrint(b: Bytes6)
    ensures Accepted(Render(b)) && Decode(Render(b)) == b
  {
  }

  /** An accepted text prints as its own upper-case colon form. */
  lemma PrintCanonicalizes(str: string)
    requires Accepted(str)
    ensures Render(Decode(str)) == Canonical(str)
  {
    forall i | 0 <= i < 17 ensures Render(Decode(str))[i] == Canonical(str)[i] {
      PrintsCanonically(str, i);
    }
  }

  lemma PrintsCanonically(str: string, i: nat)
    requires Accepted(str) && i < 17
    ensures Render(Decode(str))[i] == Canonical(str)[i]
  {
    hide HexVal, UpperDigit, ToUpper, HexByte;
    var k := i / 3;
    if i % 3 != 2 {
      var hi, lo := str[3 * k], str[3 * k + 1];
      assert IsHex(hi) && IsHex(lo) && Decode(str)[k] == HexByte(hi, lo);
      HexHalves(hi, lo);
      assert str[i] == if i % 3 == 0 then hi else lo;
      CanonicalDigit(str[i]);
    }
  }

  lemma HexHalves(hi: char, lo: char)
    requires IsHex(hi) && IsHex(lo)
    ensures HexByte(hi, lo) / 16 == HexVal(hi) && HexByte(hi, lo) % 16 == HexVal(lo)
  {
  }

  lemma CanonicalDigit(c: char)
    requires IsHex(c)
    ensures UpperDigit(HexVal(c)) == ToUpper(c)
  {
  }

  // ---- the numeric form ----

  method ToUint64(a: Address) returns (val: nat)
    ensures val == Num(a.bytes) < TWO48
    ensures val == 1099511627776 * a.bytes[0] as int + 4294967296 * a.bytes[1] as int + 16777216 * a.bytes[2] as int
                   + 65536 * a.bytes[3] as int + 256 * a.bytes[4] as int + a.bytes[5] as int
  {
    NumOf6(a.bytes);
    val := 0;
    for i := 0 to 6
      invariant val == Num(a.bytes[..i]) < Pow256(i)
    {
      assert a.bytes[..i + 1][..i] == a.bytes[..i];
      assert Pow256(i) <= 1099511627776 by {
        PowUpTo6(i);
      }
      val := (val * 256) % TWO64 + a.bytes[i];
    }
    assert a.bytes[..6] == a.bytes;
    PowUpTo6(6);
  }

  lemma NumOf6(b: Bytes6)
    ensures Num(b) == 1099511627776 * b[0] as int + 4294967296 * b[1] as int + 16777216 * b[2] as int
                      + 65536 * b[3] as int + 256 * b[4] as int + b[5] as int
  {
    var b5, b4, b3, b2, b1 := b[..5], b[..4], b[..3], b[..2], b[..1];
    assert b5[..4] == b4 && b4[..3] == b3 && b3[..2] == b2 && b2[..1] == b1 && b1[..0] == [];
    assert Num(b1) == b[0] as int;
    assert Num(b2) == 256 * Num(b1) + b[1];
    assert Num(b3) == 256 * Num(b2) + b[2];
    assert Num(b4) == 256 * Num(b3) + b[3];
    assert Num(b5) == 256 * Num(b4) + b[4];
  }

  lemma PowUpTo6(i: nat)
    requires i <= 6
    ensures Pow256(6) == TWO48 && (i < 6 ==> Pow256(i) <= 1099511627776)
  {
  }

  method FromUint64(v: nat) returns (a: Address)
    requires v < TWO64
    ensures a.bytes == Digits(v, 6)
  {
    var bytes := new byte[6](_ => 0);
    var val, i := v, 5;
    while i >= 0
      invariant -1 <= i <= 5
      invariant Digits(v, 6) == Digits(val, i + 1) + bytes[i + 1..]
    {
      bytes[i] := val % 256;
      val := val / 256;
      i := i - 1;
    }
    a := Address(bytes[..]);
  }

  /** The two conversions invert each other, up to the 48 bits an address has. */
  lemma NumericRoundTrip(b: Bytes6, v: nat)
    ensures Digits(Num(b), 6) == b
    ensures Num(Digits(v, 6)) == v % TWO48
  {
    hide Num, Digits, Pow256;
    DigitsOfNum(b);
    var q := NumOfDigits(v, 6);
    PowUpTo6(6);
    ModOf(v, q, Num(Digits(v, 6)));
  }

  lemma ModOf(v: nat, q: nat, x: nat)
    requires v == q * TWO48 + x && x < TWO48
    ensures v % TWO48 == x
  {
  }

  /** The default ordering of addresses is the ordering of their 64-bit forms. */
  lemma OrderIsNumeric(a: Address, b: Address)
    ensures Compare(a.bytes, b.bytes) < 0 <==> Num(a.bytes) < Num(b.bytes)
    ensures Compare(a.bytes, b.bytes) == 0 <==> a == b
    ensures a == b <==> Num(a.bytes) == Num(b.bytes)
  {
    CompareIsNumeric(a.bytes, b.bytes);
  }
}
