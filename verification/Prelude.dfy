/** Bytes, optional values and a few facts about sequences used by every other module. */
module Prelude {

  type byte = x: int | 0 <= x < 256

  const CR: byte := 13
  const LF: byte := 10

  datatype Option<+T> = None | Some(value: T)

  function Min(a: int, b: int): int {
    if a < b then a else b
  }

  function Max(a: int, b: int): int {
    if a < b then b else a
  }

  /** Position of the first `d` in `s`, or `|s|` when there is none. */
  function IndexOf<T(==)>(s: seq<T>, d: T): (i: nat)
    ensures i <= |s|
    ensures forall k :: 0 <= k < i ==> s[k] != d
    ensures i < |s| ==> s[i] == d
  {
    if s == [] || s[0] == d then 0 else 1 + IndexOf(s[1..], d)
  }

  function Concat<T>(parts: seq<seq<T>>): seq<T> {
    if parts == [] then [] else parts[0] + Concat(parts[1..])
  }

  /** Since the old state `d` was written to `buffer` at `from` and nothing else changed. */
  twostate predicate Wrote(buffer: array<byte>, from: nat, d: seq<byte>)
    reads buffer
  {
    && from + |d| <= buffer.Length
    && forall k :: 0 <= k < buffer.Length ==>
         buffer[k] == if from <= k < from + |d| then d[k - from] else old(buffer[k])
  }

  lemma Assoc<T>(a: seq<T>, b: seq<T>, c: seq<T>)
    ensures a + (b + c) == (a + b) + c
  {
  }

  lemma FrontBack<T>(s: seq<T>, front: seq<T>, back: seq<T>)
    requires s == front + back
    ensures s[..|front|] == front && s[|front|..] == back
  {
  }

  lemma {:induction false} IndexOfAppend<T>(a: seq<T>, rest: seq<T>, d: T)
    requires d !in a
    ensures IndexOf(a + rest, d) == |a| + IndexOf(rest, d)
  {
    if a == [] {
      assert a + rest == rest;
    } else {
      assert (a + rest)[1..] == a[1..] + rest;
      IndexOfAppend(a[1..], rest, d);
    }
  }

  /** The first `d` is where the text before it is free of `d`. */
  lemma IndexOfAfter<T>(a: seq<T>, d: T, rest: seq<T>)
    requires d !in a
    ensures IndexOf(a + [d] + rest, d) == |a|
  {
    Assoc(a, [d], rest);
    IndexOfAppend(a, [d] + rest, d);
  }
}
