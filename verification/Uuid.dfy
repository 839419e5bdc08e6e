/** `rfcomm::Uuid`: the 128-bit service UUID, its two text forms and the 16-bit short form. */
module Uuids {
  import opened Prelude
  import opened Numerals

  type Bytes16 = b: seq<byte> | |b| == 16 witness [0, 0, 0, 0, 0, 0, 0, 0, 0, 0, 0, 0, 0, 0, 0, 0]
  datatype Uuid = Uuid(bytes: Bytes16)

  /** The Base UUID 00000000-0000-1000-8000-00805F9B34FB with a 16-bit value put in. */
  function From16Bit(v: nat): Uuid
    requires v < 65536
  {
    Uuid([0x00, 0x00, v / 256, v % 256, 0x00, 0x00, 0x10, 0x00,
          0x80, 0x00, 0x00, 0x80, 0x5F, 0x9B, 0x34, 0xFB])
  }

  // ---- the language and its meaning ----

  predicate AllHex(s: string) {
    forall i :: 0 <= i < |s| ==> IsHex(s[i])
  }

  function Dashless(str: string): string {
    if str == "" then ""
    else Dashless(str[..|str| - 1]) + if str[|str| - 1] == '-' then "" else [str[|str| - 1]]
  }

  /** Four hex digits, or any other text with exactly 32 hex digits and dashes anywhere. */
  predicate Accepted(str: string) {
    if |str| == 4 then AllHex(str) else |Dashless(str)| == 32 && AllHex(Dashless(str))
  }

  function HexValue(s: string): nat
    requires AllHex(s)
  {
    if s == "" then 0 else 16 * HexValue(s[..|s| - 1]) + HexVal(s[|s| - 1])
  }

  function Pairs(d: string): Bytes16
    requires |d| == 32 && AllHex(d)
  {
    seq(16, k requires 0 <= k < 16 => HexByte(d[2 * k], d[2 * k + 1]))
  }

  lemma FourDigits(s: string)
    requires |s| == 4 && AllHex(s)
    ensures HexValue(s) == 256 * HexByte(s[0], s[1]) + HexByte(s[2], s[3]) < 65536
  {
    var a := s[..3];
    var b := a[..2];
    var c := b[..1];
    assert HexValue(c) == HexVal(s[0]) by {
      assert c[..0] == "";
    }
    assert HexValue(b) == 16 * HexVal(s[0]) + HexVal(s[1]);
    assert HexValue(a) == 16 * HexValue(b) + HexVal(s[2]);
  }

  function Value(str: string): Uuid
    requires Accepted(str)
  {
    if |str| == 4 then
      FourDigits(str);
      From16Bit(HexValue(str))
    else Uuid(Pairs(Dashless(str)))
  }

  predicate IsDash(i: nat) {
    i == 8 || i == 13 || i == 18 || i == 23
  }

  /** The character at position `i` of the printed form: five groups of lower-case digits. */
  function RenderAt(b: Bytes16, i: nat): char
    requires i < 36
  {
    if IsDash(i) then '-'
    else Nibble(b, i - Dashes(i))
  }

  /** Dashes before position `i` of the printed form. */
  function Dashes(i: nat): (n: nat)
    ensures n <= i
  {
    (if i > 8 then 1 else 0) + (if i > 13 then 1 else 0) + (if i > 18 then 1 else 0) + (if i > 23 then 1 else 0)
  }

  function Nibble(b: Bytes16, n: nat): char
    requires n < 32
  {
    LowerDigit(if n % 2 == 0 then b[n / 2] / 16 else b[n / 2] % 16)
  }

  function Render(b: Bytes16): (s: string)
    ensures |s| == 36
  {
    seq(36, i requires 0 <= i < 36 => RenderAt(b, i))
  }

  function HexText(b: Bytes16): string {
    seq(32, n requires 0 <= n < 32 => Nibble(b, n))
  }

  // ---- the scanner and the printer ----

  lemma {:induction false} DashlessPrefix(str: string, i: nat)
    requires i <= |str|
    ensures Dashless(str[..i]) <= Dashless(str)
    decreases |str| - i
  {
    if i < |str| {
      assert str[..i + 1][..i] == str[..i];
      DashlessPrefix(str, i + 1);
    } else {
      assert str[..i] == str;
    }
  }

  method TryParseShort(str: string) returns (r: Option<Uuid>)
    requires |str| == 4
    ensures r.Some? <==> AllHex(str)
    ensures r.Some? ==> r.value == From16Bit((FourDigits(str); HexValue(str)))
  {
    var val := 0;
    for i := 0 to 4
      invariant AllHex(str[..i]) && val == HexValue(str[..i])
    {
      var hexVal := HexVal(str[i]);
      assert str[..i + 1][..i] == str[..i];
      if hexVal < 0 {
        return None;
      }
      val := val * 16 + hexVal;
    }
    hide From16Bit, HexByte;
    assert str[..4] == str;
    FourDigits(str);
    assert val == HexValue(str) == val % 65536;
    return Some(From16Bit(val % 65536));
  }

  method TryParse(str: string) returns (r: Option<Uuid>)
    ensures r.Some? <==> Accepted(str)
    ensures r.Some? ==> r.value == Value(str)
  {
    if |str| == 4 {
      r := TryParseShort(str);
      return;
    }
    var parsed := new byte[16](_ => 0);
    var byteIdx, currentVal, digits := 0, 0, 0;
    for i := 0 to |str|
      invariant 0 <= byteIdx <= 16 && 0 <= digits <= 1
      invariant AllHex(Dashless(str[..i])) && |Dashless(str[..i])| == 2 * byteIdx + digits
      invariant currentVal == if digits == 0 then 0 else HexVal(Dashless(str[..i])[2 * byteIdx])
      invariant forall k :: 0 <= k < byteIdx ==>
          parsed[k] == HexByte(Dashless(str[..i])[2 * k], Dashless(str[..i])[2 * k + 1])
    {
      var c := str[i];
      ghost var d := Dashless(str[..i]);
      assert str[..i + 1][..i] == str[..i];
      DashlessPrefix(str, i + 1);
      if c == '-' {
        assert Dashless(str[..i + 1]) == d;
        continue;
      }
      assert Dashless(str[..i + 1]) == d + [c];
      var hexVal := HexVal(c);
      if hexVal < 0 {
        assert Dashless(str)[|d|] == c;
        return None;
      }
      currentVal := currentVal * 16 + hexVal;
      digits := digits + 1;
      if digits == 2 {
        if byteIdx >= 16 {
          return None;
        }
        parsed[byteIdx] := currentVal;
        byteIdx := byteIdx + 1;
        currentVal := 0;
        digits := 0;
      }
    }
    assert str[..|str|] == str;
    if digits != 0 || byteIdx != 16 {
      return None;
    }
    assert parsed[..] == Pairs(Dashless(str));
    return Some(Uuid(parsed[..]));
  }

  method ToString(u: Uuid) returns (s: string)
    ensures s == Render(u.bytes)
  {
    s := "";
    for i := 0 to 16
      invariant |s| == 2 * i + (if i > 4 then 1 else 0) + (if i > 6 then 1 else 0)
                     + (if i > 8 then 1 else 0) + (if i > 10 then 1 else 0)
      invariant forall j :: 0 <= j < |s| ==> s[j] == RenderAt(u.bytes, j)
    {
      if i == 4 || i == 6 || i == 8 || i == 10 {
        s := s + "-";
      }
      s := s + [LowerDigit(u.bytes[i] / 16), LowerDigit(u.bytes[i] % 16)];
    }
  }

  // ---- the laws ----

  lemma DashesStep(i: nat)
    requires i < 36
    ensures Dashes(i + 1) == Dashes(i) + if IsDash(i) then 1 else 0
    ensures i + 1 - Dashes(i + 1) <= 32 && (!IsDash(i) ==> i - Dashes(i) < 32)
  {
  }

  lemma RenderStep(b: Bytes16, i: nat)
    requires i < 36
    ensures !IsDash(i) ==> i - Dashes(i) < 32
    ensures Dashless(Render(b)[..i + 1])
         == Dashless(Render(b)[..i]) + if IsDash(i) then "" else [Nibble(b, i - Dashes(i))]
  {
    DashesStep(i);
    hide Nibble, Dashes;
    var s := Render(b)[..i + 1];
    assert s[..i] == Render(b)[..i] && s[i] == RenderAt(b, i);
    if !IsDash(i) {
      assert s[i] != '-' by {
        NoDashDigit(b, i - Dashes(i));
      }
    }
  }

  lemma NoDashDigit(b: Bytes16, n: nat)
    requires n < 32
    ensures Nibble(b, n) != '-'
  {
  }

  lemma {:induction false} DashlessRender(b: Bytes16, i: nat)
    requires i <= 36
    ensures i - Dashes(i) <= 32 && Dashless(Render(b)[..i]) == HexText(b)[..i - Dashes(i)]
  {
    if i > 0 {
      DashlessRender(b, i - 1);
      DashesStep(i - 1);
      RenderStep(b, i - 1);
      hide Nibble, Dashes, Dashless, Render;
      var n := i - 1 - Dashes(i - 1);
      if !IsDash(i - 1) {
        assert HexText(b)[..n + 1] == HexText(b)[..n] + [Nibble(b, n)];
      }
    } else {
      assert Render(b)[..0] == "";
    }
  }

  // ---- accepted and printed forms, character by character ----

  /** `str` is a way to write the UUID `b`: the two middle bytes of the first group of the Base
      UUID, or all of it with dashes anywhere. */
  predicate Writes(str: string, b: Bytes16) {
    if |str| == 4 then
      && Spells(str[0], str[1], b[2]) && Spells(str[2], str[3], b[3])
      && b[..2] == [0, 0] && b[4..] == [0x00, 0x00, 0x10, 0x00, 0x80, 0x00, 0x00, 0x80, 0x5F, 0x9B, 0x34, 0xFB]
    else
      && |Dashless(str)| == 32
      && forall k :: 0 <= k < 16 ==> Spells(Dashless(str)[2 * k], Dashless(str)[2 * k + 1], b[k])
  }

  /** What is accepted, and as what. */
  lemma AcceptedExact(str: string, b: Bytes16)
    ensures Accepted(str) && Value(str) == Uuid(b) <==> Writes(str, b)
  {
    if |str| == 4 {
      ShortExact(str, b);
    } else if |Dashless(str)| == 32 {
      LongExact(Dashless(str), b);
    }
  }

  lemma ShortExact(str: string, b: Bytes16)
    requires |str| == 4
    ensures Accepted(str) && Value(str) == Uuid(b) <==> Writes(str, b)
  {
    hide HexVal, HexByte, HexValue, Spells;
    SpellsExact(str[0], str[1], b[2]);
    SpellsExact(str[2], str[3], b[3]);
    if AllHex(str) {
      FourDigits(str);
      var hi, lo := HexByte(str[0], str[1]), HexByte(str[2], str[3]);
      var v := From16Bit(HexValue(str)).bytes;
      assert v[2] == hi && v[3] == lo && v[..2] == [0, 0];
      assert v[4..] == [0x00, 0x00, 0x10, 0x00, 0x80, 0x00, 0x00, 0x80, 0x5F, 0x9B, 0x34, 0xFB];
      SameBytes(v, b);
    }
  }

  lemma SameBytes(a: Bytes16, b: Bytes16)
    ensures a == b <==> a[..2] == b[..2] && a[2] == b[2] && a[3] == b[3] && a[4..] == b[4..]
  {
    assert a == a[..2] + [a[2], a[3]] + a[4..] && b == b[..2] + [b[2], b[3]] + b[4..];
  }

  lemma LongExact(d: string, b: Bytes16)
    requires |d| == 32
    ensures AllHex(d) && Pairs(d) == b <==> forall k :: 0 <= k < 16 ==> Spells(d[2 * k], d[2 * k + 1], b[k])
  {
    hide HexVal, HexByte, Spells;
    forall k | 0 <= k < 16
      ensures Spells(d[2 * k], d[2 * k + 1], b[k]) <==>
              IsHex(d[2 * k]) && IsHex(d[2 * k + 1]) && HexByte(d[2 * k], d[2 * k + 1]) == b[k]
    {
      SpellsExact(d[2 * k], d[2 * k + 1], b[k]);
    }
    if forall k :: 0 <= k < 16 ==> Spells(d[2 * k], d[2 * k + 1], b[k]) {
      forall i | 0 <= i < 32 ensures IsHex(d[i]) {
        var k := i / 2;
        assert Spells(d[2 * k], d[2 * k + 1], b[k]);
        assert i == 2 * k || i == 2 * k + 1;
      }
      forall k | 0 <= k < 16 ensures Pairs(d)[k] == b[k] {
        assert Spells(d[2 * k], d[2 * k + 1], b[k]);
      }
    }
    if AllHex(d) && Pairs(d) == b {
      forall k | 0 <= k < 16 ensures Spells(d[2 * k], d[2 * k + 1], b[k]) {
        assert Pairs(d)[k] == HexByte(d[2 * k], d[2 * k + 1]);
      }
    }
  }

  /** Bytes as lower-case digits. */
  function HexOf(b: seq<byte>): (s: string)
    ensures |s| == 2 * |b|
    ensures forall j :: 0 <= j < |s| ==> s[j] == LOWER[if j % 2 == 0 then b[j / 2] / 16 else b[j / 2] % 16]
  {
    if b == [] then ""
    else HexOf(b[..|b| - 1]) + [LOWER[b[|b| - 1] / 16], LOWER[b[|b| - 1] % 16]]
  }

  lemma GroupDigit(b: Bytes16, from: nat, to: nat, j: nat)
    requires from <= to <= 16 && j < 2 * (to - from)
    ensures HexOf(b[from..to])[j] == Nibble(b, 2 * from + j)
  {
    hide LowerDigit;
    var n := 2 * from + j;
    DigitTable('0', b[n / 2] / 16);
    DigitTable('0', b[n / 2] % 16);
    assert n / 2 == from + j / 2 && n % 2 == j % 2;
    assert b[from..to][j / 2] == b[n / 2];
  }

  /** One group of the printed form: `at` is where its text begins. */
  lemma Group(b: Bytes16, from: nat, to: nat, at: nat)
    requires (from, to, at) in {(0, 4, 0), (4, 6, 9), (6, 8, 14), (8, 10, 19), (10, 16, 24)}
    ensures at + 2 * (to - from) <= 36 && Render(b)[at..at + 2 * (to - from)] == HexOf(b[from..to])
  {
    hide Nibble, HexOf;
    forall j | 0 <= j < 2 * (to - from) ensures Render(b)[at + j] == HexOf(b[from..to])[j] {
      GroupDigit(b, from, to, j);
      assert !IsDash(at + j) && at + j - Dashes(at + j) == 2 * from + j;
      assert Render(b)[at + j] == RenderAt(b, at + j);
    }
  }

  /** The printed form of section 3 of RFC 4122: groups of 4, 2, 2, 2 and 6 bytes. */
  lemma RenderExact(b: Bytes16)
    ensures Render(b) ==
            HexOf(b[..4]) + "-" + HexOf(b[4..6]) + "-" + HexOf(b[6..8]) + "-" + HexOf(b[8..10]) + "-" + HexOf(b[10..])
  {
    hide Render, HexOf;
    Group(b, 0, 4, 0);
    Group(b, 4, 6, 9);
    Group(b, 6, 8, 14);
    Group(b, 8, 10, 19);
    Group(b, 10, 16, 24);
    DashesAt(b);
    Grouped(Render(b));
    assert b[0..4] == b[..4] && b[10..16] == b[10..];
  }

  lemma DashesAt(b: Bytes16)
    ensures Render(b)[8] == Render(b)[13] == Render(b)[18] == Render(b)[23] == '-'
  {
    hide Nibble;
  }

  lemma Grouped(s: string)
    requires |s| == 36 && s[8] == s[13] == s[18] == s[23] == '-'
    ensures s == s[0..8] + "-" + s[9..13] + "-" + s[14..18] + "-" + s[19..23] + "-" + s[24..36]
  {
  }

  /** Printing inverts: every UUID is read back from its text. */
  lemma ParseInvertsPrint(u: Uuid)
    ensures Accepted(Render(u.bytes)) && Value(Render(u.bytes)) == u
  {
    var b := u.bytes;
    DashlessRender(b, 36);
    assert Render(b)[..36] == Render(b) && HexText(b)[..32] == HexText(b);
    forall k | 0 <= k < 16 ensures Pairs(HexText(b))[k] == b[k] {
      assert HexText(b)[2 * k] == Nibble(b, 2 * k) && HexText(b)[2 * k + 1] == Nibble(b, 2 * k + 1);
      assert (2 * k) / 2 == k && (2 * k + 1) / 2 == k && (2 * k) % 2 == 0 && (2 * k + 1) % 2 == 1;
    }
  }

  /** Dash placement and letter case change neither acceptance nor the value. */
  lemma OnlyDigitsMatter(s: string, t: string)
    requires |s| != 4 && |t| != 4
    requires |Dashless(s)| == |Dashless(t)|
    requires forall k :: 0 <= k < |Dashless(s)| ==> HexVal(Dashless(s)[k]) == HexVal(Dashless(t)[k])
    ensures Accepted(s) <==> Accepted(t)
    ensures Accepted(s) ==> Value(s) == Value(t)
  {
    var d, e := Dashless(s), Dashless(t);
    assert AllHex(d) <==> AllHex(e) by {
      assert forall k :: 0 <= k < |d| ==> (IsHex(d[k]) <==> IsHex(e[k]));
    }
    if Accepted(s) {
      forall k | 0 <= k < 16 ensures Pairs(d)[k] == Pairs(e)[k] {
        assert HexVal(d[2 * k]) == HexVal(e[2 * k]) && HexVal(d[2 * k + 1]) == HexVal(e[2 * k + 1]);
      }
      assert Pairs(d) == Pairs(e);
    }
  }

  lemma {:induction false} NoDash(s: string)
    requires '-' !in s
    ensures Dashless(s) == s
  {
    if s != "" {
      NoDash(s[..|s| - 1]);
    }
  }

  lemma {:induction false} DashlessJoin(a: string, b: string)
    ensures Dashless(a + b) == Dashless(a) + Dashless(b)
  {
    if b == "" {
      assert a + b == a;
    } else {
      assert (a + b)[..|a + b| - 1] == a + b[..|b| - 1];
      DashlessJoin(a, b[..|b| - 1]);
    }
  }

  /** The long form of a short UUID. */
  function Expand(short: string): string {
    "0000" + short + "-" + "0000" + "-" + "1000" + "-" + "8000" + "-" + ("0080" + "5F9B" + "34FB")
  }

  /** A four-digit UUID names the same value as its expansion in the Base UUID. */
  lemma ShortFormIsBaseUuid(short: string)
    requires |short| == 4 && Accepted(short)
    ensures Accepted(Expand(short)) && Value(Expand(short)) == Value(short)
  {
    FourDigits(short);
    DashlessExpand(short);
    ExpandedPairs(short, BaseDigits(short));
  }

  function BaseDigits(short: string): string {
    "0000" + short + "0000" + "1000" + "8000" + ("0080" + "5F9B" + "34FB")
  }

  /** Four digits as two bytes. */
  function Quad(g: string): (b: seq<byte>)
    requires |g| == 4 && AllHex(g)
    ensures |b| == 2
  {
    [HexByte(g[0], g[1]), HexByte(g[2], g[3])]
  }

  lemma BaseQuads()
    ensures AllHex("0000") && AllHex("1000") && AllHex("8000") && AllHex("0080") && AllHex("5F9B") && AllHex("34FB")
    ensures Quad("0000") == [0x00, 0x00] && Quad("1000") == [0x10, 0x00] && Quad("8000") == [0x80, 0x00]
    ensures Quad("0080") == [0x00, 0x80] && Quad("5F9B") == [0x5F, 0x9B] && Quad("34FB") == [0x34, 0xFB]
  {
  }

  lemma QuadAt(d: string, i: nat, g: string)
    requires |d| == 32 && AllHex(d) && i < 8 && |g| == 4 && AllHex(g)
    requires d[4 * i..4 * i + 4] == g
    ensures Pairs(d)[2 * i] == Quad(g)[0] && Pairs(d)[2 * i + 1] == Quad(g)[1]
  {
  }

  lemma ExpandedPairs(short: string, d: string)
    requires |short| == 4 && AllHex(short) && d == BaseDigits(short)
    ensures AllHex(d) && |d| == 32
    ensures HexValue(short) < 65536 && Pairs(d) == From16Bit(HexValue(short)).bytes
  {
    hide Quad, AllHex, HexByte, BaseDigits, Pairs, From16Bit, HexValue;
    BaseQuads();
    FourDigits(short);
    ExpandedIsHex(short);
    ExpandedGroups(short, d);
    QuadAt(d, 0, "0000");
    QuadAt(d, 1, short);
    QuadAt(d, 2, "0000");
    QuadAt(d, 3, "1000");
    QuadAt(d, 4, "8000");
    QuadAt(d, 5, "0080");
    QuadAt(d, 6, "5F9B");
    QuadAt(d, 7, "34FB");
    ShortQuad(short);
    BaseBytes(Pairs(d), HexValue(short));
  }

  lemma BaseBytes(p: Bytes16, v: nat)
    requires v < 65536
    requires p[0] == p[1] == 0x00 && [p[2], p[3]] == [v / 256, v % 256] && p[4] == p[5] == 0x00
    requires p[6] == 0x10 && p[7] == 0x00 && p[8] == 0x80 && p[9] == p[10] == 0x00
    requires p[11] == 0x80 && p[12] == 0x5F && p[13] == 0x9B && p[14] == 0x34 && p[15] == 0xFB
    ensures p == From16Bit(v).bytes
  {
  }

  lemma ExpandedIsHex(short: string)
    requires |short| == 4 && AllHex(short)
    ensures AllHex(BaseDigits(short))
  {
  }

  lemma ShortQuad(short: string)
    requires |short| == 4 && AllHex(short)
    ensures HexValue(short) < 65536 && Quad(short) == [HexValue(short) / 256, HexValue(short) % 256]
  {
    FourDigits(short);
  }

  lemma ExpandedGroups(short: string, d: string)
    requires |short| == 4 && d == BaseDigits(short)
    ensures |d| == 32
    ensures d[0..4] == "0000" && d[4..8] == short && d[8..12] == "0000" && d[12..16] == "1000"
    ensures d[16..20] == "8000" && d[20..24] == "0080" && d[24..28] == "5F9B" && d[28..32] == "34FB"
  {
  }

  lemma DashThen(a: string, group: string)
    requires '-' !in group
    ensures Dashless(a + "-" + group) == Dashless(a) + group
  {
    hide Dashless;
    DashlessJoin(a + "-", group);
    DashlessJoin(a, "-");
    NoDash(group);
    OnlyDash();
  }

  lemma OnlyDash()
    ensures Dashless("-") == ""
  {
  }

  lemma DashlessExpand(short: string)
    requires |short| == 4 && AllHex(short)
    ensures Dashless(Expand(short)) == BaseDigits(short)
  {
    hide Dashless;
    var p1 := "0000" + short;
    var p2 := p1 + "-" + "0000";
    var p3 := p2 + "-" + "1000";
    var p4 := p3 + "-" + "8000";
    var last := "0080" + "5F9B" + "34FB";
    NoDash(p1);
    DashThen(p1, "0000");
    DashThen(p2, "1000");
    DashThen(p3, "8000");
    DashThen(p4, last);
  }
}
