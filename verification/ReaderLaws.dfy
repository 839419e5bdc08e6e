/** When the readers of a serial port call `recv`, for how much, and what ends them: laws on the
    kernel's schedule itself, that do not follow the readers' own recursion. */
module ReaderLaws {
  import opened Prelude
  import opened Os
  import opened PortSpec

  // ---- one recv ----

  /** How many bytes have arrived when the next recv is answered. */
  function Arrived(net: Inbound): nat
    requires net.next < |net.script|
  {
    Min(net.avail + net.script[net.next].more, |net.ahead|)
  }

  /** A refill is one recv for 4096 bytes. */
  lemma RefillAmount(s: Port)
    requires s.net.next < |s.net.script|
    ensures var t := Refill(s).1;
            && t.net.next == s.net.next + 1
            && |t.cache| == |s.cache| + Max(0, Min(s.net.script[s.net.next].limit, Min(4096, Arrived(s.net))))
  {
  }

  /** A read that the cache cannot serve is one recv for all that is missing. */
  lemma ReadAmount(s: Port, n: nat)
    requires |s.cache| < n && s.net.next < |s.net.script|
    ensures var (d, t) := Read(s, n);
            && t.net.next == s.net.next + 1
            && |d| == |s.cache| + Max(0, Min(s.net.script[s.net.next].limit, Min(n - |s.cache|, Arrived(s.net))))
  {
  }

  /** `read_byte` on an exhausted cache keeps the rest of a whole refill. */
  lemma ReadByteAmount(s: Port)
    requires s.cache == [] && s.net.next < |s.net.script|
    ensures var (b, t) := ReadByte(s);
            var k := Max(0, Min(s.net.script[s.net.next].limit, Min(4096, Arrived(s.net))));
            && t.net.next == s.net.next + 1
            && (b.Some? <==> k > 0) && |t.cache| == Max(0, k - 1)
  {
    RefillAmount(s);
  }

  // ---- many recvs ----

  /** The stream after `j` recvs for 4096 bytes, and what they hand over. */
  function After(net: Inbound, j: nat): Inbound
    decreases j
  {
    if j == 0 then net else After(Recv(net, 4096).net, j - 1)
  }

  function Got(net: Inbound, j: nat): seq<byte>
    decreases j
  {
    if j == 0 then [] else Recv(net, 4096).data + Got(Recv(net, 4096).net, j - 1)
  }

  predicate Flows(net: Inbound, j: nat)
    decreases j
  {
    j == 0 || (Recv(net, 4096).ret > 0 && Flows(Recv(net, 4096).net, j - 1))
  }

  lemma {:induction false} OneMore(net: Inbound, j: nat)
    ensures After(net, j + 1) == Recv(After(net, j), 4096).net
    ensures Got(net, j + 1) == Got(net, j) + Recv(After(net, j), 4096).data
    ensures Flows(net, j + 1) <==> Flows(net, j) && Recv(After(net, j), 4096).ret > 0
    decreases j
  {
    hide Recv;
    var r := Recv(net, 4096);
    if j == 0 {
      assert After(r.net, 0) == r.net && Got(r.net, 0) == [] && r.data + [] == r.data && [] + r.data == r.data;
    } else {
      OneMore(r.net, j - 1);
      Assoc(r.data, Got(r.net, j - 1), Recv(After(net, j), 4096).data);
    }
  }

  /** A drain is recvs for 4096 bytes up to and including the first that fails. */
  lemma {:induction false} DrainRecvs(net: Inbound, dropped: seq<byte>) returns (j: nat)
    ensures Flows(net, j) && Recv(After(net, j), 4096).ret <= 0
    ensures Drain(net, dropped) == (dropped + Got(net, j), After(net, j + 1))
    decreases |net.script| - net.next
  {
    hide Recv;
    var r := Recv(net, 4096);
    DrainStep(net, dropped);
    if r.ret <= 0 {
      j := 0;
      assert After(r.net, 0) == r.net && dropped + [] == dropped;
    } else {
      var i := DrainRecvs(r.net, dropped + r.data);
      j := i + 1;
      Assoc(dropped, r.data, Got(r.net, i));
    }
  }

  /** The mode changes a purge makes: two, the first one off, the second one on. */
  lemma PurgeChanges(m: Mode)
    ensures PurgeMode(m).changes == m.changes[Min(2, |m.changes|)..]
    ensures PurgeMode(m).blocking ==
            if |m.changes| >= 2 && m.changes[1] then true
            else if |m.changes| >= 1 && m.changes[0] then false
            else m.blocking
  {
  }

  // ---- read_line and its deadline ----

  predicate Passed(clock: seq<bool>, i: nat) {
    i < |clock| && clock[i]
  }

  function Tests(clock: seq<bool>, j: nat): seq<bool> {
    if j <= |clock| then clock[j..] else []
  }

  /** The line is still open when the cache has run out for the `j`-th time (counting from 0): all
      recvs so far succeeded, the delimiter is not among the bytes, and no deadline test so far,
      one each time the cache ran out, has fired. */
  ghost predicate Open(s: Port, d: byte, clock: seq<bool>, j: nat) {
    && Flows(s.net, j)
    && d !in s.cache + Got(s.net, j)
    && forall i :: 0 <= i < j ==> !Passed(clock, i)
  }

  lemma {:induction false} EatCache(s: Port, line: seq<byte>, d: byte, clock: seq<bool>)
    requires d !in s.cache
    ensures ReadLine(s, line, d, clock) == ReadLine(Port([], s.net), line + s.cache, d, clock)
    decreases |s.cache|
  {
    hide ReadLine;
    ReadLineStep(s, line, d, clock);
    if s.cache == [] {
      assert line + s.cache == line;
    } else {
      EatCache(s.(cache := s.cache[1..]), line + [s.cache[0]], d, clock);
      Assoc(line, [s.cache[0]], s.cache[1..]);
      assert s.cache == [s.cache[0]] + s.cache[1..];
    }
  }

  lemma {:induction false} StillOpen(s: Port, line: seq<byte>, d: byte, clock: seq<bool>, j: nat)
    requires Open(s, d, clock, j)
    ensures ReadLine(s, line, d, clock)
         == ReadLine(Port([], After(s.net, j)), line + (s.cache + Got(s.net, j)), d, Tests(clock, j))
    decreases j
  {
    hide Recv, ReadLine;
    EatCache(s, line, d, clock);
    if j == 0 {
      assert s.cache + [] == s.cache;
    } else {
      assert !Passed(clock, 0);
      var r := Recv(s.net, 4096);
      var t := Port(r.data, r.net);
      var rest := if clock == [] then [] else clock[1..];
      ReadLineStep(Port([], s.net), line + s.cache, d, clock);
      assert [] + r.data == r.data;
      forall i | 0 <= i < j - 1 ensures !Passed(rest, i) {
        assert !Passed(clock, i + 1);
      }
      StillOpen(t, line + s.cache, d, rest, j - 1);
      Assoc(line, s.cache, r.data + Got(r.net, j - 1));
      Assoc(s.cache, r.data, Got(r.net, j - 1));
      assert Tests(rest, j - 1) == Tests(clock, j);
    }
  }

  /** A deadline that has passed when the cache runs out ends the line there, before another recv. */
  lemma DeadlineEndsLine(s: Port, d: byte, clock: seq<bool>, j: nat)
    requires Open(s, d, clock, j) && Passed(clock, j)
    ensures ReadLine(s, [], d, clock) == Line(s.cache + Got(s.net, j), TimedOut, Port([], After(s.net, j)))
  {
    hide Recv, ReadLine;
    StillOpen(s, [], d, clock, j);
    var text := s.cache + Got(s.net, j);
    assert [] + text == text;
    ReadLineStep(Port([], After(s.net, j)), text, d, Tests(clock, j));
  }

  /** A failed recv ends the line. */
  lemma FailureEndsLine(s: Port, d: byte, clock: seq<bool>, j: nat)
    requires Open(s, d, clock, j) && !Passed(clock, j) && Recv(After(s.net, j), 4096).ret <= 0
    ensures ReadLine(s, [], d, clock) == Line(s.cache + Got(s.net, j), Failed, Port([], After(s.net, j + 1)))
  {
    hide Recv, ReadLine, After, Got, Flows;
    StillOpen(s, [], d, clock, j);
    var text := s.cache + Got(s.net, j);
    assert [] + text == text;
    ReadLineStep(Port([], After(s.net, j)), text, d, Tests(clock, j));
    OneMore(s.net, j);
  }

  /** A delimiter in the recv after that ends the line, and what follows it stays cached. */
  lemma DelimiterEndsLine(s: Port, d: byte, clock: seq<bool>, j: nat)
    requires Open(s, d, clock, j) && !Passed(clock, j) && d in Recv(After(s.net, j), 4096).data
    ensures var chunk := Recv(After(s.net, j), 4096).data;
            var i := IndexOf(chunk, d);
            i < |chunk| && ReadLine(s, [], d, clock) ==
            Line(StripCR(s.cache + Got(s.net, j) + chunk[..i]), Terminated, Port(chunk[i + 1..], After(s.net, j + 1)))
  {
    hide Recv, ReadLine, After, Got, Flows, StripCR, IndexOf;
    StillOpen(s, [], d, clock, j);
    var text := s.cache + Got(s.net, j);
    assert [] + text == text;
    ReadLineStep(Port([], After(s.net, j)), text, d, Tests(clock, j));
    OneMore(s.net, j);
    var r := Recv(After(s.net, j), 4096);
    assert [] + r.data == r.data;
    FoundInCache(Port(r.data, r.net), text, d, if Tests(clock, j) == [] then [] else Tests(clock, j)[1..]);
  }

  lemma {:induction false} FoundInCache(s: Port, line: seq<byte>, d: byte, clock: seq<bool>)
    requires d in s.cache
    ensures var i := IndexOf(s.cache, d);
            i < |s.cache| && ReadLine(s, line, d, clock) ==
            Line(StripCR(line + s.cache[..i]), Terminated, s.(cache := s.cache[i + 1..]))
    decreases |s.cache|
  {
    hide ReadLine, StripCR;
    ReadLineStep(s, line, d, clock);
    var i := IndexOf(s.cache, d);
    if s.cache[0] == d {
      assert line + s.cache[..0] == line;
    } else {
      var t := s.(cache := s.cache[1..]);
      FoundInCache(t, line + [s.cache[0]], d, clock);
      assert s.cache[..i] == [s.cache[0]] + t.cache[..i - 1];
      Assoc(line, [s.cache[0]], t.cache[..i - 1]);
    }
  }

  datatype Case = InCache | Deadline(j: nat) | Failure(j: nat) | Delimiter(j: nat)

  /** One of the four cases always holds. */
  ghost predicate Holds(s: Port, d: byte, clock: seq<bool>, c: Case) {
    match c
    case InCache => d in s.cache
    case Deadline(j) => Open(s, d, clock, j) && Passed(clock, j)
    case Failure(j) => Open(s, d, clock, j) && !Passed(clock, j) && Recv(After(s.net, j), 4096).ret <= 0
    case Delimiter(j) => Open(s, d, clock, j) && !Passed(clock, j) && d in Recv(After(s.net, j), 4096).data
  }

  lemma {:induction false} Goes(s: Port, d: byte, clock: seq<bool>, j: nat) returns (c: Case)
    requires Open(s, d, clock, j)
    ensures Holds(s, d, clock, c)
    decreases |s.net.script| - After(s.net, j).next
  {
    hide Recv, After, Got;
    SameScript(s.net, j);
    OneMore(s.net, j);
    var r := Recv(After(s.net, j), 4096);
    if Passed(clock, j) {
      c := Deadline(j);
    } else if r.ret <= 0 {
      c := Failure(j);
    } else if d in r.data {
      c := Delimiter(j);
    } else {
      Assoc(s.cache, Got(s.net, j), r.data);
      c := Goes(s, d, clock, j + 1);
    }
  }

  lemma {:induction false} SameScript(net: Inbound, j: nat)
    ensures After(net, j).script == net.script
    decreases j
  {
    hide Recv;
    if j > 0 {
      SameScript(Recv(net, 4096).net, j - 1);
    }
  }

  /** When a line ends how.  A deadline ends it exactly when a test made on an exhausted cache fires
      while the line is open; a failure exactly when the recv after an unfired test fails. */
  lemma LineEnding(s: Port, d: byte, clock: seq<bool>)
    ensures var r := ReadLine(s, [], d, clock);
            && (r.ending.TimedOut? <==> exists j :: Open(s, d, clock, j) && Passed(clock, j))
            && (r.ending.Failed? <==>
                exists j :: Open(s, d, clock, j) && !Passed(clock, j) && Recv(After(s.net, j), 4096).ret <= 0)
  {
    hide Recv, ReadLine, After, Got;
    forall j | Open(s, d, clock, j) && Passed(clock, j) ensures ReadLine(s, [], d, clock).ending.TimedOut? {
      DeadlineEndsLine(s, d, clock, j);
    }
    forall j | Open(s, d, clock, j) && !Passed(clock, j) && Recv(After(s.net, j), 4096).ret <= 0
      ensures ReadLine(s, [], d, clock).ending.Failed?
    {
      FailureEndsLine(s, d, clock, j);
    }
    if d in s.cache {
      FoundInCache(s, [], d, clock);
    } else {
      Nothing(s);
      var c := Goes(s, d, clock, 0);
      match c {
        case InCache =>
        case Deadline(j) => DeadlineEndsLine(s, d, clock, j);
        case Failure(j) => FailureEndsLine(s, d, clock, j);
        case Delimiter(j) => DelimiterEndsLine(s, d, clock, j);
      }
    }
  }

  lemma Nothing(s: Port)
    ensures s.cache + Got(s.net, 0) == s.cache && Flows(s.net, 0)
  {
  }

  // ---- queue status ----

  /** The queue status is what one read can hand over without waiting: with nothing arriving and
      an answer that does not fall short, a read of `n > 0` bytes gets `n` or all that is queued. */
  lemma QueueStatusIsReadable(s: Port, n: nat)
    requires n > 0 && s.net.next < |s.net.script|
    requires s.net.script[s.net.next].more == 0 && s.net.script[s.net.next].limit >= n
    ensures |Read(s, n).0| == Min(n, QueueStatus(s, true))
    ensures QueueStatus(s, false) == QueueStatus(s, true) - Min(s.net.avail, |s.net.ahead|)
  {
    if |s.cache| < n {
      ReadAmount(s, n);
    }
  }
}
