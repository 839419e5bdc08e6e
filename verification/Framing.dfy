/** Lines over the stream: `write_line` prints them, `read_line` parses them back. */
module Framing {
  import opened Prelude
  import opened Os
  import opened PortSpec
  import opened PortRuns
  import Transfer

  const CRLF: seq<byte> := [CR, LF]

  /** What a sequence of `write_line` calls puts on the wire. */
  function Encode(lines: seq<seq<byte>>, eol: seq<byte>): seq<byte> {
    if lines == [] then [] else lines[0] + eol + Encode(lines[1..], eol)
  }

  /** A loop over `write_line` that gives up at the first failure. */
  function WriteLines(net: Outbound, lines: seq<seq<byte>>, eol: seq<byte>): (bool, Outbound)
    decreases |lines|
  {
    if lines == [] then (true, net)
    else
      var r := Transfer.SendAll(net, lines[0] + eol, 0);
      if r.ok then WriteLines(r.net, lines[1..], eol) else (false, r.net)
  }

  predicate NoLF(lines: seq<seq<byte>>) {
    forall i :: 0 <= i < |lines| ==> LF !in lines[i]
  }

  function Texts(lines: seq<seq<byte>>): (outs: seq<Outcome>)
    ensures |outs| == |lines|
  {
    if lines == [] then [] else [Text(lines[0], Terminated)] + Texts(lines[1..])
  }

  /** `ops` reads lines up to `\n`, and no deadline passes. */
  predicate LineReads(ops: seq<Op>) {
    forall i :: 0 <= i < |ops| ==> ops[i].OpReadLine? && ops[i].d == LF && true !in ops[i].clock
  }

  lemma {:induction false} WriteLinesSends(net: Outbound, lines: seq<seq<byte>>, eol: seq<byte>)
    requires WriteLines(net, lines, eol).0
    ensures WriteLines(net, lines, eol).1.sent == net.sent + Encode(lines, eol)
    decreases |lines|
  {
    if lines != [] {
      var first := lines[0] + eol;
      Transfer.SendAllTransmits(net, first, 0);
      var r := Transfer.SendAll(net, first, 0);
      assert first[0..|first|] == first;
      WriteLinesSends(r.net, lines[1..], eol);
      Assoc(net.sent, first, Encode(lines[1..], eol));
    }
  }

  // ---- one line ----

  /** `read_line` gives `line` back when it was written with `eol`. */
  predicate Fits(line: seq<byte>, eol: seq<byte>) {
    LF !in line && (eol == CRLF || (eol == [LF] && !EndsInCR(line)))
  }

  predicate AllFit(lines: seq<seq<byte>>, eol: seq<byte>) {
    forall i :: 0 <= i < |lines| ==> Fits(lines[i], eol)
  }

  /** Whatever the line end: one line comes back as itself, with nothing more and nothing less
      read, exactly when it fits. */
  lemma LineExact(line: seq<byte>, eol: seq<byte>, more: seq<byte>, op: Op)
    requires LineReads([op])
    ensures IdealStep(line + eol + more, op) == Some((Text(line, Terminated), more)) <==> Fits(line, eol)
  {
    assert [op][0] == op;
    if Fits(line, eol) {
      LineFits(line, eol, more);
    } else if IdealStep(line + eol + more, op) == Some((Text(line, Terminated), more)) {
      LineMustFit(line, eol, more);
      assert false;
    }
  }

  lemma LineFits(line: seq<byte>, eol: seq<byte>, more: seq<byte>)
    requires Fits(line, eol)
    ensures var stream := line + eol + more;
            var i := IndexOf(stream, LF);
            i < |stream| && StripCR(stream[..i]) == line && stream[i + 1..] == more
  {
    var text := if eol == CRLF then line + [CR] else line;
    assert line + eol == text + [LF];
    IndexOfAfter(text, LF, more);
    assert (text + [LF] + more)[..|text|] == text;
  }

  lemma LineMustFit(line: seq<byte>, eol: seq<byte>, more: seq<byte>)
    requires var stream := line + eol + more;
             var i := IndexOf(stream, LF);
             i < |stream| && StripCR(stream[..i]) == line && stream[i + 1..] == more
    ensures Fits(line, eol)
  {
    var stream := line + eol + more;
    var i := IndexOf(stream, LF);
    assert i + 1 == |line| + |eol|;
    var text := stream[..i];
    assert line + eol == stream[..i + 1] == text + [LF];
    assert line == text[..|line|];
    assert eol == (line + eol)[|line|..];
    if |eol| == 1 {
      assert text == line && eol == [LF];
    } else {
      assert text == line + [CR] && eol == CRLF;
    }
  }

  /** With either of the two line ends the text alone tells. */
  lemma TextTells(line: seq<byte>, eol: seq<byte>, more: seq<byte>, op: Op)
    requires LineReads([op]) && (eol == CRLF || eol == [LF])
    ensures var r := IdealStep(line + eol + more, op);
            r.Some? && r.value.0 == Text(line, Terminated) ==> Fits(line, eol)
  {
    assert [op][0] == op;
    var stream := line + eol + more;
    var i := IndexOf(stream, LF);
    if LF in line {
      FirstInFront(line, eol + more, LF);
      Assoc(line, eol, more);
    } else if eol == [LF] {
      IndexOfAfter(line, LF, more);
      assert stream[..i] == line;
    }
  }

  lemma {:induction false} FirstInFront(a: seq<byte>, rest: seq<byte>, d: byte)
    requires d in a
    ensures IndexOf(a + rest, d) < |a|
  {
    if a[0] != d {
      assert (a + rest)[1..] == a[1..] + rest;
      FirstInFront(a[1..], rest, d);
    }
  }

  // ---- many lines ----

  lemma {:induction false} LinesFit(lines: seq<seq<byte>>, eol: seq<byte>, more: seq<byte>, ops: seq<Op>)
    requires |ops| == |lines| && LineReads(ops) && AllFit(lines, eol)
    ensures Ideal(Encode(lines, eol) + more, ops) == Some((Texts(lines), more))
    decreases |lines|
  {
    var stream := Encode(lines, eol) + more;
    if lines == [] {
      assert stream == more;
    } else {
      var rest := Encode(lines[1..], eol) + more;
      Assoc(lines[0] + eol, Encode(lines[1..], eol), more);
      assert LineReads([ops[0]]) && Fits(lines[0], eol);
      LineExact(lines[0], eol, rest, ops[0]);
      LinesFit(lines[1..], eol, more, ops[1..]);
    }
  }

  lemma {:induction false} TextsTell(lines: seq<seq<byte>>, eol: seq<byte>, more: seq<byte>, ops: seq<Op>)
    requires |ops| == |lines| && LineReads(ops) && (eol == CRLF || eol == [LF])
    requires var r := Ideal(Encode(lines, eol) + more, ops);
             r.Some? && r.value.0 == Texts(lines)
    ensures AllFit(lines, eol)
    decreases |lines|
  {
    if lines != [] {
      var stream, rest := Encode(lines, eol) + more, Encode(lines[1..], eol) + more;
      Assoc(lines[0] + eol, Encode(lines[1..], eol), more);
      assert LineReads([ops[0]]);
      assert Ideal(stream, ops).value.0[0] == Texts(lines)[0];
      TextTells(lines[0], eol, rest, ops[0]);
      LineExact(lines[0], eol, rest, ops[0]);
      assert Ideal(rest, ops[1..]).value.0 == Ideal(stream, ops).value.0[1..] == Texts(lines)[1..];
      TextsTell(lines[1..], eol, more, ops[1..]);
    }
  }

  function Total(lines: seq<seq<byte>>): nat {
    if lines == [] then 0 else |lines[0]| + Total(lines[1..])
  }

  lemma {:induction false} EncodeLength(lines: seq<seq<byte>>, eol: seq<byte>)
    ensures |Encode(lines, eol)| == Total(lines) + |lines| * |eol|
  {
    if lines != [] {
      EncodeLength(lines[1..], eol);
      assert |lines| * |eol| == (|lines| - 1) * |eol| + |eol|;
    }
  }

  /** A line read takes one or two bytes besides the line. */
  lemma LineCost(stream: seq<byte>, op: Op, line: seq<byte>, rest: seq<byte>)
    requires LineReads([op]) && IdealStep(stream, op) == Some((Text(line, Terminated), rest))
    ensures |rest| + |line| + 1 <= |stream| <= |rest| + |line| + 2
    ensures rest == stream[|stream| - |rest|..]
  {
    assert [op][0] == op;
  }

  lemma {:induction false} LinesCost(stream: seq<byte>, ops: seq<Op>, lines: seq<seq<byte>>, rest: seq<byte>)
    requires |ops| == |lines| && LineReads(ops) && Ideal(stream, ops) == Some((Texts(lines), rest))
    ensures |rest| + Total(lines) + |lines| <= |stream| <= |rest| + Total(lines) + 2 * |lines|
    decreases |lines|
  {
    if lines != [] {
      var next := FirstRead(stream, ops, lines, rest);
      LineCost(stream, ops[0], lines[0], next);
      LinesCost(next, ops[1..], lines[1..], rest);
    }
  }

  lemma FirstRead(stream: seq<byte>, ops: seq<Op>, lines: seq<seq<byte>>, rest: seq<byte>) returns (next: seq<byte>)
    requires |ops| == |lines| > 0 && LineReads(ops) && Ideal(stream, ops) == Some((Texts(lines), rest))
    ensures LineReads([ops[0]]) && LineReads(ops[1..])
    ensures IdealStep(stream, ops[0]) == Some((Text(lines[0], Terminated), next))
    ensures Ideal(next, ops[1..]) == Some((Texts(lines[1..]), rest))
  {
    hide IdealStep;
    next := IdealStep(stream, ops[0]).value.1;
    var outs := Ideal(stream, ops).value.0;
    assert outs[0] == Texts(lines)[0] && outs[1..] == Texts(lines)[1..] == Texts(lines[1..]);
    assert outs == [outs[0]] + outs[1..];
  }

  /** With any other line end something is lost, gained or left over. */
  lemma {:induction false} LinesMustFit(lines: seq<seq<byte>>, eol: seq<byte>, more: seq<byte>, ops: seq<Op>)
    requires |ops| == |lines| && LineReads(ops)
    requires Ideal(Encode(lines, eol) + more, ops) == Some((Texts(lines), more))
    ensures AllFit(lines, eol)
    decreases |lines|
  {
    if lines != [] {
      hide IdealStep, Ideal;
      var n := |lines|;
      var stream, behind := Encode(lines, eol) + more, Encode(lines[1..], eol) + more;
      Assoc(lines[0] + eol, Encode(lines[1..], eol), more);
      var next := FirstRead(stream, ops, lines, more);
      LineCost(stream, ops[0], lines[0], next);
      LinesCost(next, ops[1..], lines[1..], more);
      EncodeLength(lines[1..], eol);
      Squeeze(n - 1, |eol|, |stream| - |next| - |lines[0]|, |next| - |more| - Total(lines[1..]));
      assert behind == stream[|stream| - |behind|..];
      LineExact(lines[0], eol, behind, ops[0]);
      LinesMustFit(lines[1..], eol, more, ops[1..]);
    }
  }

  lemma Squeeze(n: nat, e: nat, c: int, k: int)
    requires 1 <= c <= 2 && n <= k <= 2 * n && k + c == n * e + e
    ensures c == e
  {
    ThreeOrMore(n, e);
    assert (e == 0 ==> n * e == 0) && (e == 1 ==> n * e == n) && (e == 2 ==> n * e == 2 * n);
  }

  lemma ThreeOrMore(n: nat, e: nat)
    ensures e >= 3 ==> n * e >= 3 * n
  {
  }

  /** Framing round trip, for every line end.  However send and recv cut up the bytes and whatever
      the cache holds, lines written with `write_line` come back from as many fault-free
      `read_line` calls with the stream left just behind them if and only if each of them fits.
      With `\r\n` or `\n` the lines alone come back only then. */
  lemma RoundTrip(net: Outbound, lines: seq<seq<byte>>, eol: seq<byte>, s: Port, more: seq<byte>, ops: seq<Op>)
    requires WriteLines(net, lines, eol).0
    requires net.sent + Stream(s) == WriteLines(net, lines, eol).1.sent + more
    requires |ops| == |lines| && LineReads(ops)
    requires Run(s, ops).port.net.faults == s.net.faults
    ensures Run(s, ops).outs == Texts(lines) && Stream(Run(s, ops).port) == more <==> AllFit(lines, eol)
    ensures eol == CRLF || eol == [LF] ==> (Run(s, ops).outs == Texts(lines) <==> AllFit(lines, eol))
  {
    WriteLinesSends(net, lines, eol);
    Assoc(net.sent, Encode(lines, eol), more);
    FrontBack(net.sent + Stream(s), net.sent, Stream(s));
    FrontBack(net.sent + Stream(s), net.sent, Encode(lines, eol) + more);
    assert Stream(s) == Encode(lines, eol) + more;
    forall op | op in ops ensures Timeless(op) {
    }
    RunIsIdeal(s, ops);
    hide Run, Ideal, Encode, Texts, AllFit, WriteLines, Stream;
    if AllFit(lines, eol) {
      LinesFit(lines, eol, more, ops);
    } else if Run(s, ops).outs == Texts(lines) {
      if eol == CRLF || eol == [LF] {
        TextsTell(lines, eol, more, ops);
        assert false;
      } else if Stream(Run(s, ops).port) == more {
        LinesMustFit(lines, eol, more, ops);
        assert false;
      }
    }
  }

  /** The two ways a line fails to come back: a `\n` in it, or a `\r` at its end before a bare `\n`. */
  lemma Unframed()
    ensures !Fits([LF], CRLF) && !Fits([CR], [LF]) && Fits([CR], CRLF)
    ensures IdealStep([LF] + CRLF, OpReadLine(LF, [])) == Some((Text([], Terminated), CRLF))
    ensures IdealStep([CR] + [LF], OpReadLine(LF, [])) == Some((Text([], Terminated), []))
  {
    var a, b := [LF] + CRLF, [CR] + [LF];
    assert a[0] == LF && a[1..] == CRLF && a[..0] == [];
    assert b[0] == CR && b[1] == LF && b[..1] == [CR] && b[2..] == [] && b[1..][0] == LF;
    assert IndexOf(b, LF) == 1;
  }
}
