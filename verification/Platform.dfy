/** Conversions between the library's big-endian byte arrays and what BlueZ and Winsock use. */
module Platform {
  import opened Prelude
  import opened Numerals
  import opened Addresses
  import opened Uuids

  /** BlueZ: least significant byte first. */
  method AddressToBdaddr(a: Address) returns (b: array<byte>)
    ensures fresh(b) && b[..] == Reverse(a.bytes)
  {
    b := new byte[6](_ => 0);
    for i := 0 to 6
      invariant forall j :: 0 <= j < i ==> b[j] == a.bytes[5 - j]
    {
      b[i] := a.bytes[5 - i];
    }
  }

  method BdaddrToAddress(b: array<byte>) returns (a: Address)
    requires b.Length == 6
    ensures a.bytes == Reverse(b[..])
  {
    var bytes := new byte[6](_ => 0);
    for i := 0 to 6
      invariant forall j :: 0 <= j < i ==> bytes[5 - j] == b[j]
    {
      bytes[5 - i] := b[i];
    }
    assert bytes[..] == Reverse(b[..]);
    a := Address(bytes[..]);
  }

  /** BlueZ's and Winsock's encodings of an address are the same number, and the BlueZ conversion
      is its own inverse. */
  lemma EncodingsAgree(a: Address)
    ensures LittleEndian(Reverse(a.bytes)) == Num(a.bytes)
    ensures Reverse(Reverse(a.bytes)) == a.bytes
  {
    LittleEndianReverse(a.bytes);
  }

  /** Winsock: three integers and eight bytes. */
  datatype Guid = Guid(data1: nat, data2: nat, data3: nat, data4: seq<byte>)

  predicate IsGuid(g: Guid) {
    g.data1 < Pow256(4) && g.data2 < Pow256(2) && g.data3 < Pow256(2) && |g.data4| == 8
  }

  function GuidOf(b: Bytes16): Guid {
    Guid(Num(b[..4]), Num(b[4..6]), Num(b[6..8]), b[8..])
  }

  function UuidOf(g: Guid): Uuid
    requires IsGuid(g)
  {
    Uuid(Digits(g.data1, 4) + Digits(g.data2, 2) + Digits(g.data3, 2) + g.data4)
  }

  method UuidToGuid(u: Uuid) returns (g: Guid)
    ensures g == GuidOf(u.bytes)
    ensures g.data1 == 16777216 * u.bytes[0] as int + 65536 * u.bytes[1] as int + 256 * u.bytes[2] as int
                       + u.bytes[3] as int
    ensures g.data2 == 256 * u.bytes[4] as int + u.bytes[5] as int
    ensures g.data3 == 256 * u.bytes[6] as int + u.bytes[7] as int
    ensures g.data4 == u.bytes[8..]
  {
    var data1 := u.bytes[0] as int * 16777216 + u.bytes[1] as int * 65536 + u.bytes[2] as int * 256 + u.bytes[3] as int;
    var data2 := u.bytes[4] as int * 256 + u.bytes[5] as int;
    var data3 := u.bytes[6] as int * 256 + u.bytes[7] as int;
    var data4 := new byte[8](_ => 0);
    for i := 0 to 8
      invariant forall j :: 0 <= j < i ==> data4[j] == u.bytes[8 + j]
    {
      data4[i] := u.bytes[8 + i];
    }
    NumOf2(u.bytes[4..6]);
    NumOf2(u.bytes[6..8]);
    NumOf4(u.bytes[..4]);
    assert data4[..] == u.bytes[8..];
    g := Guid(data1, data2, data3, data4[..]);
  }

  /** `(v >> log2(unit)) & 0xFF`. */
  function Octet(v: nat, unit: nat): byte
    requires unit > 0
  {
    v / unit % 256
  }

  method GuidToUuid(g: Guid) returns (u: Uuid)
    requires IsGuid(g)
    ensures u == UuidOf(g)
  {
    Powers();
    FrontDigits(g);
    hide Digits, Pow256, Octet;
    ghost var front := [
      Octet(g.data1, 16777216), Octet(g.data1, 65536), Octet(g.data1, 256), Octet(g.data1, 1),
      Octet(g.data2, 256), Octet(g.data2, 1), Octet(g.data3, 256), Octet(g.data3, 1)];
    var bytes := new byte[16](_ => 0);
    bytes[0] := Octet(g.data1, 16777216);
    bytes[1] := Octet(g.data1, 65536);
    bytes[2] := Octet(g.data1, 256);
    bytes[3] := Octet(g.data1, 1);
    bytes[4] := Octet(g.data2, 256);
    bytes[5] := Octet(g.data2, 1);
    bytes[6] := Octet(g.data3, 256);
    bytes[7] := Octet(g.data3, 1);
    assert bytes[..8] == front;
    for i := 0 to 8
      invariant bytes[..8] == front
      invariant forall j :: 0 <= j < i ==> bytes[8 + j] == g.data4[j]
    {
      bytes[8 + i] := g.data4[i];
    }
    assert bytes[..] == front + g.data4;
    u := Uuid(bytes[..]);
  }

  lemma FrontDigits(g: Guid)
    ensures [Octet(g.data1, 16777216), Octet(g.data1, 65536), Octet(g.data1, 256), Octet(g.data1, 1),
             Octet(g.data2, 256), Octet(g.data2, 1), Octet(g.data3, 256), Octet(g.data3, 1)]
         == Digits(g.data1, 4) + Digits(g.data2, 2) + Digits(g.data3, 2)
  {
    DigitsOf4(g.data1);
    DigitsOf2(g.data2);
    DigitsOf2(g.data3);
  }

  lemma NumOf2(b: seq<byte>)
    requires |b| == 2
    ensures Num(b) == 256 * b[0] as int + b[1] as int
  {
    var first := b[..1];
    assert first[..0] == [] && Num(first) == b[0] as int;
  }

  lemma NumOf4(b: seq<byte>)
    requires |b| == 4
    ensures Num(b) == 16777216 * b[0] as int + 65536 * b[1] as int + 256 * b[2] as int + b[3] as int
  {
    var three := b[..3];
    assert three[..2] == b[..2] && Num(three) == 256 * Num(b[..2]) + b[2] as int;
    NumOf2(b[..2]);
  }

  lemma DigitsOf2(v: nat)
    ensures Digits(v, 2) == [v / 256 % 256, v % 256]
  {
  }

  lemma DigitsOf4(v: nat)
    ensures Digits(v, 4) == [v / 16777216 % 256, v / 65536 % 256, v / 256 % 256, v % 256]
  {
    DigitsOf2(v / 65536);
    assert v / 256 / 256 == v / 65536 && v / 65536 / 256 == v / 16777216;
    assert Digits(v / 256, 3) == Digits(v / 65536, 2) + [v / 256 % 256];
  }

  lemma Powers()
    ensures Pow256(2) == 65536 && Pow256(4) == 4294967296
  {
  }

  /** The two conversions invert each other. */
  lemma GuidRoundTrip(u: Uuid, g: Guid)
    requires IsGuid(g)
    ensures IsGuid(GuidOf(u.bytes)) && UuidOf(GuidOf(u.bytes)) == u
    ensures GuidOf(UuidOf(g).bytes) == g
  {
    DigitsOfNum(u.bytes[..4]);
    DigitsOfNum(u.bytes[4..6]);
    DigitsOfNum(u.bytes[6..8]);
    assert u.bytes == u.bytes[..4] + u.bytes[4..6] + u.bytes[6..8] + u.bytes[8..];
    var b := UuidOf(g).bytes;
    assert b[..4] == Digits(g.data1, 4) && b[4..6] == Digits(g.data2, 2) && b[6..8] == Digits(g.data3, 2);
    assert b[8..] == g.data4;
    InRange(g.data1, 4);
    InRange(g.data2, 2);
    InRange(g.data3, 2);
  }

  lemma InRange(v: nat, n: nat)
    requires v < Pow256(n)
    ensures Num(Digits(v, n)) == v
  {
  }
}
