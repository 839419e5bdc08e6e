/** Hexadecimal digits and base-256 numerals. */
module Numerals {
  import opened Prelude

  /** The value of a hex digit in either case, or -1. */
  function HexVal(c: char): (v: int)
    ensures -1 <= v < 16
  {
    if '0' <= c <= '9' then c as int - '0' as int
    else if 'a' <= c <= 'f' then c as int - 'a' as int + 10
    else if 'A' <= c <= 'F' then c as int - 'A' as int + 10
    else -1
  }

  predicate IsHex(c: char) {
    HexVal(c) >= 0
  }

  function UpperDigit(n: int): (c: char)
    requires 0 <= n < 16
    ensures HexVal(c) == n
  {
    if n < 10 then '0' + n as char else 'A' + (n - 10) as char
  }

  function LowerDigit(n: int): (c: char)
    requires 0 <= n < 16
    ensures HexVal(c) == n
  {
    if n < 10 then '0' + n as char else 'a' + (n - 10) as char
  }

  function ToUpper(c: char): char {
    if 'a' <= c <= 'f' then 'A' + (c - 'a') else c
  }

  const UPPER := "0123456789ABCDEF"
  const LOWER := "0123456789abcdef"

  /** The printed digits, and the digits that are read: either case, nothing else. */
  lemma DigitTable(c: char, n: nat)
    requires n < 16
    ensures UpperDigit(n) == UPPER[n] && LowerDigit(n) == LOWER[n]
    ensures HexVal(c) == n <==> c == UPPER[n] || c == LOWER[n]
  {
  }

  /** Two characters that stand for a byte. */
  predicate Spells(hi: char, lo: char, b: byte) {
    && (hi == UPPER[b / 16] || hi == LOWER[b / 16])
    && (lo == UPPER[b % 16] || lo == LOWER[b % 16])
  }

  lemma SpellsExact(hi: char, lo: char, b: byte)
    ensures Spells(hi, lo, b) <==> IsHex(hi) && IsHex(lo) && HexByte(hi, lo) == b
  {
    hide HexVal;
    DigitTable(hi, b / 16);
    DigitTable(lo, b % 16);
  }

  /** Two hex digits as a byte. */
  function HexByte(hi: char, lo: char): byte
    requires IsHex(hi) && IsHex(lo)
  {
    16 * HexVal(hi) + HexVal(lo)
  }

  /** `b` as a big-endian number. */
  function Num(b: seq<byte>): nat {
    if b == [] then 0 else 256 * Num(b[..|b| - 1]) + b[|b| - 1]
  }

  /** The last `n` base-256 digits of `v`, most significant first. */
  function Digits(v: nat, n: nat): (b: seq<byte>)
    ensures |b| == n
  {
    if n == 0 then [] else Digits(v / 256, n - 1) + [v % 256]
  }

  function Pow256(n: nat): nat {
    if n == 0 then 1 else 256 * Pow256(n - 1)
  }

  lemma {:induction false} DigitsOfNum(b: seq<byte>)
    ensures Digits(Num(b), |b|) == b && Num(b) < Pow256(|b|)
  {
    if b != [] {
      var n := |b| - 1;
      DigitsOfNum(b[..n]);
      assert Num(b) / 256 == Num(b[..n]) && Num(b) % 256 == b[n];
    }
  }

  lemma {:induction false} NumOfDigits(v: nat, n: nat) returns (q: nat)
    ensures v == q * Pow256(n) + Num(Digits(v, n))
    ensures Num(Digits(v, n)) < Pow256(n)
  {
    if n == 0 {
      q := v;
    } else {
      q := NumOfDigits(v / 256, n - 1);
      var d := Digits(v, n);
      assert d[..n - 1] == Digits(v / 256, n - 1);
      Rearrange(q, Pow256(n - 1));
    }
  }

  lemma Rearrange(q: nat, p: nat)
    ensures 256 * (q * p) == q * (256 * p)
  {
  }

  /** Lexicographic three-way comparison, first byte first. */
  function Compare(a: seq<byte>, b: seq<byte>): int
    requires |a| == |b|
  {
    if a == [] then 0
    else if a[0] != b[0] then a[0] - b[0]
    else Compare(a[1..], b[1..])
  }

  lemma {:induction false} NumFirst(b: seq<byte>)
    requires b != []
    ensures Num(b) == b[0] * Pow256(|b| - 1) + Num(b[1..])
  {
    var n := |b| - 1;
    if n > 0 {
      NumFirst(b[..n]);
      assert b[..n][1..] == b[1..][..n - 1] && b[..n][0] == b[0] && b[1..][n - 1] == b[n];
      Rearrange(b[0], Pow256(n - 1));
      assert Num(b[1..]) == 256 * Num(b[1..][..n - 1]) + b[n];
    }
  }

  /** For strings of equal length the order of bytes is the order of numbers. */
  lemma {:induction false} CompareIsNumeric(a: seq<byte>, b: seq<byte>)
    requires |a| == |b|
    ensures Compare(a, b) < 0 <==> Num(a) < Num(b)
    ensures Compare(a, b) == 0 <==> a == b
    ensures Compare(a, b) == 0 <==> Num(a) == Num(b)
  {
    if a != [] {
      NumFirst(a);
      NumFirst(b);
      CompareIsNumeric(a[1..], b[1..]);
      DigitsOfNum(a[1..]);
      DigitsOfNum(b[1..]);
      var p := Pow256(|a| - 1);
      assert a == [a[0]] + a[1..] && b == [b[0]] + b[1..];
      hide Num, Compare, Pow256;
      FirstDecides(a[0], b[0], p, Num(a[1..]), Num(b[1..]));
      FirstDecides(b[0], a[0], p, Num(b[1..]), Num(a[1..]));
    }
  }

  lemma FirstDecides(x: int, y: int, p: nat, m: nat, n: nat)
    requires m < p
    ensures x < y ==> x * p + m < y * p + n
  {
    if x < y {
      Gap(x, y, p);
    }
  }

  lemma Gap(x: int, y: int, p: nat)
    requires x < y
    ensures x * p + p <= y * p
  {
    assert (y - x - 1) * p >= 0;
  }

  function Reverse(b: seq<byte>): (r: seq<byte>)
    ensures |r| == |b|
    ensures forall i :: 0 <= i < |b| ==> r[i] == b[|b| - 1 - i]
  {
    seq(|b|, i requires 0 <= i < |b| => b[|b| - 1 - i])
  }

  /** `b` as a little-endian number. */
  function LittleEndian(b: seq<byte>): nat {
    if b == [] then 0 else b[0] + 256 * LittleEndian(b[1..])
  }

  lemma {:induction false} LittleEndianReverse(b: seq<byte>)
    ensures LittleEndian(Reverse(b)) == Num(b)
  {
    if b != [] {
      var n := |b| - 1;
      assert Reverse(b)[1..] == Reverse(b[..n]);
      LittleEndianReverse(b[..n]);
    }
  }
}
