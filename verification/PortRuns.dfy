/** Whole runs of reader calls on one open port, in any order. */
module PortRuns {
  import opened Prelude
  import opened Os
  import opened PortSpec

  datatype Op =
    | OpRead(n: nat)
    | OpReadExact(n: nat)
    | OpReadByte
    | OpReadLine(d: byte, clock: seq<bool>)
    | OpPurge(flags: PurgeFlags)
    | OpQueueStatus(ioctlOk: bool)

  datatype Outcome =
    | Bytes(ok: bool, data: seq<byte>)
    | Text(text: seq<byte>, ending: Ending)
    | Purged
    | Count(n: nat)

  function Step(s: Port, op: Op): (Outcome, Port) {
    match op
    case OpRead(n) =>
      var r := Read(s, n);
      (Bytes(r.0 != [], r.0), r.1)
    case OpReadExact(n) =>
      var r := ReadExact(s, n, []);
      (Bytes(r.ok, r.data), r.port)
    case OpReadByte =>
      var r := ReadByte(s);
      (if r.0.Some? then Bytes(true, [r.0.value]) else Bytes(false, []), r.1)
    case OpReadLine(d, clock) =>
      var r := ReadLine(s, [], d, clock);
      (Text(r.text, r.ending), r.port)
    case OpPurge(flags) =>
      (Purged, if flags.rx then PurgeRx(s).1 else s)
    case OpQueueStatus(ok) =>
      (Count(QueueStatus(s, ok)), s)
  }

  datatype Result = Result(outs: seq<Outcome>, port: Port)

  function Run(s: Port, ops: seq<Op>): (r: Result)
    ensures |r.outs| == |ops|
    decreases |ops|
  {
    if ops == [] then Result([], s)
    else
      var (out, t) := Step(s, ops[0]);
      var rest := Run(t, ops[1..]);
      Result([out] + rest.outs, rest.port)
  }

  // ---- conservation ----

  /** The bytes a call took off the stream, as far as its caller can tell from the answer. */
  predicate Accounts(op: Op, out: Outcome, taken: seq<byte>) {
    match out
    case Bytes(_, data) => taken == data
    case Text(text, ending) =>
      if ending.Terminated? && op.OpReadLine? then
        taken == text + [op.d] || taken == text + [CR] + [op.d]
      else taken == text
    case Purged => op.OpPurge? && (op.flags.rx || taken == [])
    case Count(_) => taken == []
  }

  lemma StepConserves(s: Port, op: Op) returns (taken: seq<byte>)
    ensures Took(s, Step(s, op).1, taken)
    ensures Accounts(op, Step(s, op).0, taken)
  {
    taken := [];
    match op
    case OpRead(n) =>
      ReadConserves(s, n);
      taken := Read(s, n).0;
    case OpReadExact(n) =>
      ReadExactCorrect(s, n);
      taken := ReadExact(s, n, []).data;
    case OpReadByte =>
      ReadByteConserves(s);
      var b := ReadByte(s).0;
      taken := if b.Some? then [b.value] else [];
    case OpReadLine(d, clock) =>
      taken := LineTaken(s, d, clock);
    case OpPurge(flags) =>
      if flags.rx {
        PurgeConserves(s);
        taken := PurgeRx(s).0;
      }
    case OpQueueStatus(_) =>
  }

  lemma LineTaken(s: Port, d: byte, clock: seq<bool>) returns (taken: seq<byte>)
    ensures var r := ReadLine(s, [], d, clock);
            && Took(s, r.port, taken)
            && Accounts(OpReadLine(d, clock), Text(r.text, r.ending), taken)
  {
    hide ReadLine, Recv;
    ReadLineCorrect(s, d, clock);
    var r := ReadLine(s, [], d, clock);
    if r.ending.Terminated? {
      var i := IndexOf(Stream(s), d);
      taken := Stream(s)[..i + 1];
      CutAt(Stream(s), i);
      StripCRLoses(Stream(s)[..i]);
    } else {
      taken := r.text;
    }
  }

  lemma CutAt(s: seq<byte>, i: nat)
    requires i < |s|
    ensures s[..i + 1] == s[..i] + [s[i]] && s == s[..i + 1] + s[i + 1..]
  {
  }

  lemma StripCRLoses(line: seq<byte>)
    ensures line == StripCR(line) || line == StripCR(line) + [CR]
  {
  }

  /** The port before each call, and after the last one. */
  function States(s: Port, ops: seq<Op>): (p: seq<Port>)
    ensures |p| == |ops| + 1 && p[0] == s
    decreases |ops|
  {
    if ops == [] then [s] else [s] + States(Step(s, ops[0]).1, ops[1..])
  }

  lemma {:induction false} StatesFollow(s: Port, ops: seq<Op>)
    ensures var p := States(s, ops);
            && p[|ops|] == Run(s, ops).port
            && forall i :: 0 <= i < |ops| ==> (Run(s, ops).outs[i], p[i + 1]) == Step(p[i], ops[i])
    decreases |ops|
  {
    hide Step;
    if ops != [] {
      StatesFollow(Step(s, ops[0]).1, ops[1..]);
    }
  }

  /** `taken[i]` is what call `i` took off the stream of the port it was made on. */
  ghost predicate TakenBy(s: Port, ops: seq<Op>, taken: seq<seq<byte>>) {
    && |taken| == |ops|
    && forall i :: 0 <= i < |ops| ==>
         && Took(States(s, ops)[i], States(s, ops)[i + 1], taken[i])
         && Accounts(ops[i], Run(s, ops).outs[i], taken[i])
  }

  /** Nothing is lost, duplicated or reordered: each call of a run takes its piece off the front
      of the stream it finds, so the stream at the start is those pieces in call order, followed
      by the stream at the end. */
  lemma {:induction false} RunConserves(s: Port, ops: seq<Op>) returns (taken: seq<seq<byte>>)
    ensures TakenBy(s, ops, taken)
    ensures Took(s, Run(s, ops).port, Concat(taken))
    decreases |ops|
  {
    hide Step, Accounts, Took;
    if ops == [] {
      taken := [];
      TookNothing(s);
    } else {
      var t := Step(s, ops[0]).1;
      var first := StepConserves(s, ops[0]);
      var rest := RunConserves(t, ops[1..]);
      taken := [first] + rest;
      TookTransitive(s, t, Run(s, ops).port, first, Concat(rest));
      assert taken[1..] == rest;
      assert States(s, ops)[1] == t;
    }
  }

  lemma TookNothing(s: Port)
    ensures Took(s, s, [])
  {
  }

  /** What had arrived and what arrives (`news`) is what is taken, then the cache, then what the
      kernel still holds. */
  ghost predicate Ledger(s: Port, t: Port, taken: seq<byte>, news: seq<byte>) {
    && Coming(s.net) == news + Coming(t.net)
    && s.cache + Pending(s.net) + news == taken + t.cache + Pending(t.net)
  }

  lemma LedgerTransitive(a: Port, b: Port, c: Port, x: seq<byte>, y: seq<byte>, m: seq<byte>, n: seq<byte>)
    requires Ledger(a, b, x, m) && Ledger(b, c, y, n)
    ensures Ledger(a, c, x + y, m + n)
  {
    Assoc(m, n, Coming(c.net));
    Assoc(a.cache + Pending(a.net), m, n);
    Assoc(x, b.cache, Pending(b.net));
    Assoc(x, b.cache + Pending(b.net), n);
    Assoc(y, c.cache, Pending(c.net));
    Assoc(x, y, c.cache + Pending(c.net));
    Assoc(x + y, c.cache, Pending(c.net));
  }

  /** The same as a ledger that balances at every call and over the whole run. */
  lemma {:induction false} RunLedger(s: Port, ops: seq<Op>, taken: seq<seq<byte>>) returns (news: seq<seq<byte>>)
    requires TakenBy(s, ops, taken)
    ensures |news| == |ops|
    ensures forall i :: 0 <= i < |ops| ==> Ledger(States(s, ops)[i], States(s, ops)[i + 1], taken[i], news[i])
    ensures Ledger(s, Run(s, ops).port, Concat(taken), Concat(news))
    decreases |ops|
  {
    hide Step, Accounts, Took, Ledger;
    if ops == [] {
      news := [];
      LedgerAtRest(s);
    } else {
      var t := Step(s, ops[0]).1;
      var p := States(s, ops);
      assert p[1..] == States(t, ops[1..]);
      assert Took(p[0], p[1], taken[0]);
      var first := LedgerStep(s, t, taken[0]);
      assert TakenBy(t, ops[1..], taken[1..]) by {
        forall i | 0 <= i < |ops| - 1
          ensures Took(p[1..][i], p[1..][i + 1], taken[1..][i])
                  && Accounts(ops[1..][i], Run(t, ops[1..]).outs[i], taken[1..][i])
        {
          assert Took(p[i + 1], p[i + 2], taken[i + 1]) && Accounts(ops[i + 1], Run(s, ops).outs[i + 1], taken[i + 1]);
        }
      }
      var rest := RunLedger(t, ops[1..], taken[1..]);
      news := [first] + rest;
      LedgerTransitive(s, t, Run(s, ops).port, taken[0], Concat(taken[1..]), first, Concat(rest));
      assert news[1..] == rest;
    }
  }

  lemma LedgerAtRest(s: Port)
    ensures Ledger(s, s, [], [])
  {
    var all := s.cache + Pending(s.net);
    assert all + [] == all && [] + s.cache == s.cache && [] + Coming(s.net) == Coming(s.net);
  }

  lemma LedgerStep(s: Port, t: Port, taken: seq<byte>) returns (news: seq<byte>)
    requires Took(s, t, taken)
    ensures Ledger(s, t, taken, news)
  {
    news := QueueStatusAccounts(s, t, taken);
  }

  /** After a purge on a quiet line, every byte any later call takes arrived after the purge, in
      whatever way more bytes arrive and recvs fail from then on. */
  lemma AfterPurge(s: Port, ops: seq<Op>) returns (taken: seq<seq<byte>>)
    requires Quiet(s.net)
    ensures TakenBy(PurgeRx(s).1, ops, taken)
    ensures Coming(s.net) == Concat(taken) + Stream(Run(PurgeRx(s).1, ops).port)
  {
    PurgeQuiet(s, Mode(true, []));
    taken := RunConserves(PurgeRx(s).1, ops);
  }

  /** Two bytes have arrived, the third arrives after the purge and is the first one read. */
  lemma ReadAfterPurge()
    ensures var s := Port([1], Inbound([2, 3], 1, [Delivery(0, 9), Delivery(0, 9), Delivery(1, 9)], 0, 0));
            Quiet(s.net) && PurgeRx(s).0 == [1, 2] && Step(PurgeRx(s).1, OpReadByte).0 == Bytes(true, [3])
  {
    var s := Port([1], Inbound([2, 3], 1, [Delivery(0, 9), Delivery(0, 9), Delivery(1, 9)], 0, 0));
    assert Pending(s.net) == [2];
    QuietWindow(s.net);
    var r := Recv(s.net, CHUNK);
    assert r.data == [2] && r.net.ahead == [3];
    DrainStep(s.net, [1]);
    DrainStep(r.net, [1] + [2]);
    assert [1] + [2] == [1, 2];
    var t := PurgeRx(s).1;
    assert t.net == Inbound([3], 0, s.net.script, 2, 1);
    assert Refill(t).1.cache == [3];
  }

  // ---- refinement of a plain byte list ----

  /** The readers whose answers do not depend on timing. */
  predicate Timeless(op: Op) {
    op.OpReadExact? || op.OpReadByte? || (op.OpReadLine? && true !in op.clock)
  }

  /** The same calls answered from a plain list of bytes: no cache, no sockets, no schedule. */
  function IdealStep(stream: seq<byte>, op: Op): Option<(Outcome, seq<byte>)> {
    match op
    case OpReadExact(n) =>
      if n <= |stream| then Some((Bytes(true, stream[..n]), stream[n..])) else None
    case OpReadByte =>
      if stream != [] then Some((Bytes(true, stream[..1]), stream[1..])) else None
    case OpReadLine(d, _) =>
      var i := IndexOf(stream, d);
      if i < |stream| then Some((Text(StripCR(stream[..i]), Terminated), stream[i + 1..])) else None
    case _ => None
  }

  function Ideal(stream: seq<byte>, ops: seq<Op>): Option<(seq<Outcome>, seq<byte>)> {
    if ops == [] then Some(([], stream))
    else
      match IdealStep(stream, ops[0])
      case None => None
      case Some((out, rest)) =>
        match Ideal(rest, ops[1..])
        case None => None
        case Some((outs, end)) => Some(([out] + outs, end))
  }

  ghost predicate IsIdeal(s: Port, op: Op) {
    var (out, t) := Step(s, op);
    && s.net.faults <= t.net.faults
    && (t.net.faults == s.net.faults ==> IdealStep(Stream(s), op) == Some((out, Stream(t))))
  }

  lemma ExactIsIdeal(s: Port, n: nat)
    ensures IsIdeal(s, OpReadExact(n))
  {
    hide ReadExact, Recv;
    ReadExactCorrect(s, n);
    var r := ReadExact(s, n, []);
    FrontBack(Stream(s), r.data, Stream(r.port));
  }

  lemma ByteIsIdeal(s: Port)
    ensures IsIdeal(s, OpReadByte)
  {
    hide ReadByte, Recv;
    ReadByteConserves(s);
    var (b, t) := ReadByte(s);
    if b.Some? {
      FrontBack(Stream(s), [b.value], Stream(t));
    }
  }

  lemma LineIsIdeal(s: Port, d: byte, clock: seq<bool>)
    requires true !in clock
    ensures IsIdeal(s, OpReadLine(d, clock))
  {
    hide ReadLine, Recv;
    ReadLineCorrect(s, d, clock);
  }

  /** A run without a failing recv answers as the plain byte list does: the cache, the
      fragment sizes and the arrival times cannot be seen. */
  lemma {:induction false} RunIsIdeal(s: Port, ops: seq<Op>)
    requires forall op :: op in ops ==> Timeless(op)
    ensures s.net.faults <= Run(s, ops).port.net.faults
    ensures var r := Run(s, ops);
            r.port.net.faults == s.net.faults ==> Ideal(Stream(s), ops) == Some((r.outs, Stream(r.port)))
    decreases |ops|
  {
    if ops != [] {
      assert Timeless(ops[0]);
      match ops[0] {
        case OpReadExact(n) => ExactIsIdeal(s, n);
        case OpReadByte => ByteIsIdeal(s);
        case OpReadLine(d, clock) => LineIsIdeal(s, d, clock);
        case _ => assert false;
      }
      assert IsIdeal(s, ops[0]);
      RunIsIdeal(Step(s, ops[0]).1, ops[1..]);
    }
  }

  lemma {:induction false} IdealMonotone(a: seq<byte>, more: seq<byte>, ops: seq<Op>)
    requires Ideal(a, ops).Some?
    ensures Ideal(a + more, ops) == Some((Ideal(a, ops).value.0, Ideal(a, ops).value.1 + more))
  {
    if ops != [] {
      var (out, rest) := IdealStep(a, ops[0]).value;
      IdealStepMonotone(a, more, ops[0]);
      IdealMonotone(rest, more, ops[1..]);
    }
  }

  lemma IdealStepMonotone(a: seq<byte>, more: seq<byte>, op: Op)
    requires IdealStep(a, op).Some?
    ensures IdealStep(a + more, op) == Some((IdealStep(a, op).value.0, IdealStep(a, op).value.1 + more))
  {
    var b := a + more;
    match op
    case OpReadExact(n) =>
      assert b[..n] == a[..n] && b[n..] == a[n..] + more;
    case OpReadByte =>
      assert b[..1] == a[..1] && b[1..] == a[1..] + more;
    case OpReadLine(d, _) =>
      IndexOfExtends(a, more, d);
    case _ =>
  }

  lemma {:induction false} IndexOfExtends(a: seq<byte>, more: seq<byte>, d: byte)
    requires IndexOf(a, d) < |a|
    ensures var i := IndexOf(a, d);
            IndexOf(a + more, d) == i && (a + more)[..i] == a[..i] && (a + more)[i + 1..] == a[i + 1..] + more
  {
    if a[0] != d {
      assert (a + more)[1..] == a[1..] + more;
      IndexOfExtends(a[1..], more, d);
    }
  }

  /** Two ports on the same peer output, however differently cached and delivered, answer a
      fault-free run alike. */
  lemma FragmentationInvisible(s: Port, t: Port, ops: seq<Op>)
    requires forall op :: op in ops ==> Timeless(op)
    requires Stream(s) <= Stream(t)
    requires Run(s, ops).port.net.faults == s.net.faults
    requires Run(t, ops).port.net.faults == t.net.faults
    ensures Run(s, ops).outs == Run(t, ops).outs
    ensures Stream(Run(s, ops).port) <= Stream(Run(t, ops).port)
  {
    RunIsIdeal(s, ops);
    RunIsIdeal(t, ops);
    var more := Stream(t)[|Stream(s)|..];
    assert Stream(t) == Stream(s) + more;
    IdealMonotone(Stream(s), more, ops);
  }
}
