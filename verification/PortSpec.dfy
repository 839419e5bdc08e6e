/** What each reader of a serial port computes, on the logical cache and the stream behind it.

    `SerialPort` (the class) is proved equal to these functions; here they are shown to be
    views of one ordered byte stream. */
module PortSpec {
  import opened Prelude
  import opened Os

  /** An open port: the unread part of the read-ahead cache, and the stream behind it. */
  datatype Port = Port(cache: seq<byte>, net: Inbound)

  const CHUNK: nat := 4096

  /** Every byte a reader of this port can still be given, in order. */
  function Stream(s: Port): seq<byte> {
    s.cache + s.net.ahead
  }

  function StripCR(line: seq<byte>): seq<byte> {
    if EndsInCR(line) then line[..|line| - 1] else line
  }

  // ---- the operations ----

  function Refill(s: Port): (r: (bool, Port))
    ensures r.1.net.script == s.net.script
    ensures r.0 ==> s.net.next < r.1.net.next <= |s.net.script|
  {
    var r := Recv(s.net, CHUNK);
    (r.ret > 0, Port(s.cache + r.data, r.net))
  }

  function Read(s: Port, n: nat): (r: (seq<byte>, Port))
    ensures |r.0| <= n
  {
    if n <= |s.cache| then
      (s.cache[..n], s.(cache := s.cache[n..]))
    else
      var r := Recv(s.net, n - |s.cache|);
      (s.cache + r.data, Port([], r.net))
  }

  datatype Filled = Filled(ok: bool, data: seq<byte>, port: Port)

  function ReadExact(s: Port, n: nat, got: seq<byte>): Filled
    requires |got| <= n
    decreases n - |got|
  {
    if |got| == n then Filled(true, got, s)
    else
      var (d, t) := Read(s, n - |got|);
      if d == [] then Filled(false, got, t) else ReadExact(t, n, got + d)
  }

  function ReadByte(s: Port): (r: (Option<byte>, Port))
    ensures r.0.Some? && s.cache != [] ==> r.1 == s.(cache := s.cache[1..])
    ensures r.0.Some? && s.cache == [] ==> s.net.next < r.1.net.next && r.1.net.script == s.net.script
  {
    if s.cache != [] then
      (Some(s.cache[0]), s.(cache := s.cache[1..]))
    else
      var (ok, t) := Refill(s);
      if ok && t.cache != [] then (Some(t.cache[0]), t.(cache := t.cache[1..])) else (None, t)
  }

  datatype Ending = Terminated | TimedOut | Failed
  datatype Line = Line(text: seq<byte>, ending: Ending, port: Port)

  /** `clock` holds the outcomes of the deadline tests; once used up they say "not yet". */
  function ReadLine(s: Port, line: seq<byte>, d: byte, clock: seq<bool>): Line
    decreases |s.net.script| - s.net.next, |s.cache|
  {
    if s.cache != [] then
      var t := s.(cache := s.cache[1..]);
      if s.cache[0] == d then Line(StripCR(line), Terminated, t)
      else ReadLine(t, line + [s.cache[0]], d, clock)
    else if clock != [] && clock[0] then
      Line(line, TimedOut, s)
    else
      var (ok, t) := Refill(s);
      if !ok then Line(line, Failed, t)
      else ReadLine(t, line, d, if clock == [] then [] else clock[1..])
  }

  /** Reads into a scratch buffer until a recv fails; `dropped` collects what was read. */
  function Drain(net: Inbound, dropped: seq<byte>): (r: (seq<byte>, Inbound))
    decreases |net.script| - net.next
  {
    var r := Recv(net, CHUNK);
    if r.ret <= 0 then (dropped, r.net) else Drain(r.net, dropped + r.data)
  }

  datatype PurgeFlags = PurgeFlags(rx: bool, tx: bool)

  /** `purge` with a flag set that includes Rx: the discarded bytes and the port left behind. */
  function PurgeRx(s: Port): (seq<byte>, Port) {
    var (dropped, net) := Drain(s.net, s.cache);
    (dropped, Port([], net))
  }

  /** The blocking mode a purge leaves: off for the drain, back on after it. */
  function PurgeMode(m: Mode): Mode {
    SetBlocking(SetBlocking(m, false).1, true).1
  }

  function QueueStatus(s: Port, ioctlOk: bool): nat {
    |s.cache| + if ioctlOk then |Pending(s.net)| else 0
  }

  // ---- one step of each loop ----

  lemma ReadExactStep(s: Port, n: nat, got: seq<byte>)
    requires |got| <= n
    ensures |got| == n ==> ReadExact(s, n, got) == Filled(true, got, s)
    ensures |got| < n ==>
              var (d, t) := Read(s, n - |got|);
              ReadExact(s, n, got) == if d == [] then Filled(false, got, t) else ReadExact(t, n, got + d)
  {
  }

  lemma ReadLineStep(s: Port, line: seq<byte>, d: byte, clock: seq<bool>)
    ensures ReadLine(s, line, d, clock) ==
            if s.cache != [] then
              var t := s.(cache := s.cache[1..]);
              if s.cache[0] == d then Line(StripCR(line), Terminated, t) else ReadLine(t, line + [s.cache[0]], d, clock)
            else if clock != [] && clock[0] then Line(line, TimedOut, s)
            else if !Refill(s).0 then Line(line, Failed, Refill(s).1)
            else ReadLine(Refill(s).1, line, d, if clock == [] then [] else clock[1..])
  {
  }

  lemma DrainStep(net: Inbound, dropped: seq<byte>)
    ensures var r := Recv(net, CHUNK);
            Drain(net, dropped) == if r.ret <= 0 then (dropped, r.net) else Drain(r.net, dropped + r.data)
  {
  }

  // ---- conservation, one operation at a time ----

  /** From `s` to `t` exactly `taken` left the front of the stream, and nothing un-arrived. */
  ghost predicate Took(s: Port, t: Port, taken: seq<byte>) {
    Stream(s) == taken + Stream(t) && |Coming(t.net)| <= |Coming(s.net)|
  }

  lemma TookTransitive(a: Port, b: Port, c: Port, x: seq<byte>, y: seq<byte>)
    requires Took(a, b, x) && Took(b, c, y)
    ensures Took(a, c, x + y)
  {
  }

  /** Refilling from any state, partly read cache included, appends to the logical cache. */
  lemma RefillConserves(s: Port)
    ensures var (ok, t) := Refill(s);
            && Took(s, t, [])
            && s.cache <= t.cache
            && (ok <==> |s.cache| < |t.cache|)
            && t.net.faults == s.net.faults + (if ok then 0 else 1)
            && (ok ==> t.net.next == s.net.next + 1 && |t.cache| <= |s.cache| + CHUNK)
  {
    var r := Recv(s.net, CHUNK);
    Assoc(s.cache, r.data, r.net.ahead);
  }

  lemma ReadConserves(s: Port, n: nat)
    ensures var (d, t) := Read(s, n);
            && Took(s, t, d)
            && |d| <= n
            && (n <= |s.cache| ==> |d| == n && t.net == s.net)
            && (n > |s.cache| ==> t.cache == [] && s.cache <= d)
            && t.net.faults == s.net.faults + (if n > |s.cache| && d == s.cache then 1 else 0)
  {
  }

  lemma ReadByteConserves(s: Port)
    ensures var (b, t) := ReadByte(s);
            && Took(s, t, if b.Some? then [b.value] else [])
            && t.net.faults == s.net.faults + (if b.Some? then 0 else 1)
            && (b.None? ==> s.cache == [] && t.cache == [])
  {
    if s.cache == [] {
      RefillConserves(s);
      var (ok, t) := Refill(s);
      if ok {
        assert Stream(t) == [t.cache[0]] + Stream(t.(cache := t.cache[1..]));
      }
    }
  }

  lemma {:induction false} DrainConserves(net: Inbound, dropped: seq<byte>)
    ensures var (d, end) := Drain(net, dropped);
            && dropped + net.ahead == d + end.ahead && |Coming(end)| <= |Coming(net)|
            && end.faults == net.faults + 1
    decreases |net.script| - net.next
  {
    var r := Recv(net, CHUNK);
    if r.ret > 0 {
      DrainConserves(r.net, dropped + r.data);
      Assoc(dropped, r.data, r.net.ahead);
    }
  }

  // ---- read_exact ----

  /** The first recv of a read that starts by draining a non-empty cache fails. */
  predicate SwallowsFault(s: Port, n: nat) {
    0 < |s.cache| < n && Recv(s.net, n - |s.cache|).ret <= 0
  }

  lemma {:induction false} ReadExactConserves(s: Port, n: nat, got: seq<byte>)
    requires |got| <= n
    ensures var r := ReadExact(s, n, got);
            got + Stream(s) == r.data + Stream(r.port) && |Coming(r.port.net)| <= |Coming(s.net)|
    decreases n - |got|
  {
    if |got| < n {
      ReadConserves(s, n - |got|);
      var (d, t) := Read(s, n - |got|);
      if d != [] {
        ReadExactConserves(t, n, got + d);
        Assoc(got, d, Stream(t));
      }
    }
  }

  /** Once the cache is used up every failed recv ends the read. */
  lemma {:induction false} ReadExactFaults(s: Port, n: nat, got: seq<byte>)
    requires |got| <= n
    requires |got| < n ==> s.cache == []
    ensures var r := ReadExact(s, n, got);
            && (if r.ok then |r.data| == n else |r.data| < n && r.port.cache == [])
            && r.port.net.faults == s.net.faults + (if r.ok then 0 else 1)
    decreases n - |got|
  {
    if |got| < n {
      ReadConserves(s, n - |got|);
      var (d, t) := Read(s, n - |got|);
      if d != [] {
        ReadExactFaults(t, n, got + d);
      }
    }
  }

  /** `read_exact` delivers the next n bytes, or a strict prefix of them and fails.  It outlives
      at most one failed recv, and only one that struck right after a non-empty cache was drained. */
  lemma {:induction false} ReadExactCorrect(s: Port, n: nat)
    ensures var r := ReadExact(s, n, []);
            && Took(s, r.port, r.data)
            && (if r.ok then |r.data| == n else |r.data| < n && r.port.cache == [])
            && r.port.net.faults == s.net.faults
                 + (if SwallowsFault(s, n) then 1 else 0) + (if r.ok then 0 else 1)
            && (n <= |s.cache| ==> r.ok && r.port.net == s.net)
  {
    ReadExactConserves(s, n, []);
    if n > 0 {
      var (d, t) := Read(s, n);
      ReadConserves(s, n);
      assert [] + d == d;
      if d != [] {
        ReadExactFaults(t, n, d);
      }
    }
  }

  /** One recv fails and the read succeeds all the same. */
  lemma FaultOutlived()
    ensures var s := Port([7], Inbound([8], 0, [Delivery(0, -1), Delivery(1, 1)], 0, 0));
            var r := ReadExact(s, 2, []);
            SwallowsFault(s, 2) && r.ok && r.data == [7, 8] && r.port.net.faults == 1
  {
    var s := Port([7], Inbound([8], 0, [Delivery(0, -1), Delivery(1, 1)], 0, 0));
    var (d, t) := Read(s, 2);
    assert d == [7] && t.net.faults == 1 && t.net.next == 1;
    var (d', t') := Read(t, 1);
    assert d' == [8];
    ReadExactStep(s, 2, []);
    ReadExactStep(t, 2, [] + d);
    ReadExactStep(t', 2, d + d');
    assert [] + d == d && d + d' == [7, 8];
  }

  // ---- read_line ----

  /** What a line read from the bytes `full` (already taken ++ still ahead) must come to.
      Terminated: the text before the first delimiter less one carriage return, and the
      stream just past that delimiter.  Otherwise: exactly the bytes taken, none of them the
      delimiter and none stripped, with nothing left in the cache. */
  ghost predicate LineFrom(full: seq<byte>, d: byte, faults: nat, r: Line) {
    var i := IndexOf(full, d);
    if r.ending.Terminated? then
      i < |full| && r.text == StripCR(full[..i]) && Stream(r.port) == full[i + 1..] && r.port.net.faults == faults
    else
      && full == r.text + Stream(r.port) && d !in r.text && r.port.cache == []
      && r.port.net.faults == faults + (if r.ending.Failed? then 1 else 0)
  }

  lemma {:induction false} ReadLineSplits(s: Port, line: seq<byte>, d: byte, clock: seq<bool>)
    requires d !in line
    ensures var r := ReadLine(s, line, d, clock);
            && LineFrom(line + Stream(s), d, s.net.faults, r) && |Coming(r.port.net)| <= |Coming(s.net)|
            && (r.ending.TimedOut? ==> true in clock)
    decreases |s.net.script| - s.net.next, |s.cache|
  {
    var full := line + Stream(s);
    if s.cache != [] {
      var c, t := s.cache[0], s.(cache := s.cache[1..]);
      assert Stream(s) == [c] + Stream(t);
      Assoc(line, [c], Stream(t));
      if c == d {
        IndexOfAfter(line, d, Stream(t));
      } else {
        ReadLineSplits(t, line + [c], d, clock);
      }
    } else if clock != [] && clock[0] {
    } else {
      RefillConserves(s);
      var (ok, t) := Refill(s);
      assert Stream(s) == Stream(t);
      if ok {
        ReadLineSplits(t, line, d, if clock == [] then [] else clock[1..]);
      }
    }
  }

  /** `read_line` delivers the stream up to its first delimiter, however the bytes were cut up. */
  lemma ReadLineCorrect(s: Port, d: byte, clock: seq<bool>)
    ensures var r := ReadLine(s, [], d, clock);
            && LineFrom(Stream(s), d, s.net.faults, r) && |Coming(r.port.net)| <= |Coming(s.net)|
            && (r.ending.TimedOut? ==> true in clock)
  {
    ReadLineSplits(s, [], d, clock);
    assert [] + Stream(s) == Stream(s);
  }

  /** The reference reader: one byte at a time, stop at the delimiter, strip one `\r`. */
  function LineByBytes(s: Port, line: seq<byte>, d: byte): Line
    decreases |s.net.script| - s.net.next, |s.cache|
  {
    var (b, t) := ReadByte(s);
    if b.None? then Line(line, Failed, t)
    else if b.value == d then Line(StripCR(line), Terminated, t)
    else LineByBytes(t, line + [b.value], d)
  }

  /** The cached `read_line` is the byte-at-a-time reader whenever its deadline does not pass. */
  lemma {:induction false} ReadLineIsBytewise(s: Port, line: seq<byte>, d: byte, clock: seq<bool>)
    requires true !in clock
    ensures ReadLine(s, line, d, clock) == LineByBytes(s, line, d)
    decreases |s.net.script| - s.net.next, |s.cache|
  {
    if s.cache != [] {
      if s.cache[0] != d {
        ReadLineIsBytewise(s.(cache := s.cache[1..]), line + [s.cache[0]], d, clock);
      }
    } else {
      var (ok, t) := Refill(s);
      if ok {
        var rest := if clock == [] then [] else clock[1..];
        assert ReadLine(s, line, d, clock) == ReadLine(t, line, d, rest);
        ReadLineIsBytewise(t, line, d, rest);
        assert LineByBytes(s, line, d) == LineByBytes(t, line, d);
      }
    }
  }

  /** A line read that was cut short and then resumed gives the line an uninterrupted read
      would have given, except when the cut fell between a `\r` and the delimiter. */
  lemma ResumedLine(s: Port, d: byte, clock1: seq<bool>, clock2: seq<bool>, r1: Line, r2: Line)
    requires r1 == ReadLine(s, [], d, clock1) && !r1.ending.Terminated?
    requires r2 == ReadLine(r1.port, [], d, clock2) && r2.ending.Terminated?
    ensures d in Stream(s) && Stream(r1.port) != []
    ensures Stream(r2.port) == Stream(s)[IndexOf(Stream(s), d) + 1..]
    ensures r1.text + r2.text == StripCR(Stream(s)[..IndexOf(Stream(s), d)]) <==>
            !(EndsInCR(r1.text) && Stream(r1.port)[0] == d)
  {
    ReadLineCorrect(s, d, clock1);
    ReadLineCorrect(r1.port, d, clock2);
    ResumedPieces(Stream(s), d, s.net.faults, r1.port.net.faults, r1, r2);
  }

  /** A deadline between `\r` and `\n`: the pieces make up a carriage return, the line is empty. */
  lemma BadCut()
    ensures var s := Port([CR], Inbound([LF], 0, [Delivery(1, 1)], 0, 0));
            var r1 := ReadLine(s, [], LF, [true]);
            var r2 := ReadLine(r1.port, [], LF, []);
            && r1.ending.TimedOut? && r2.ending.Terminated? && r1.text + r2.text == [CR]
            && ReadLine(s, [], LF, []).text == []
  {
    var s := Port([CR], Inbound([LF], 0, [Delivery(1, 1)], 0, 0));
    var t := s.(cache := s.cache[1..]);
    var full := Refill(t).1;
    assert full.cache == [LF];
    assert [] + [CR] == [CR];
    ReadLineStep(s, [], LF, [true]);
    ReadLineStep(t, [CR], LF, [true]);
    ReadLineStep(t, [], LF, []);
    ReadLineStep(full, [], LF, []);
    ReadLineStep(s, [], LF, []);
    ReadLineStep(t, [CR], LF, []);
    ReadLineStep(full, [CR], LF, []);
  }

  lemma ResumedPieces(full: seq<byte>, d: byte, f1: nat, f2: nat, r1: Line, r2: Line)
    requires LineFrom(full, d, f1, r1) && !r1.ending.Terminated?
    requires LineFrom(Stream(r1.port), d, f2, r2) && r2.ending.Terminated?
    ensures d in full && Stream(r1.port) != []
    ensures Stream(r2.port) == full[IndexOf(full, d) + 1..]
    ensures r1.text + r2.text == StripCR(full[..IndexOf(full, d)]) <==>
            !(EndsInCR(r1.text) && Stream(r1.port)[0] == d)
  {
    CutLine(r1.text, Stream(r1.port), d);
  }

  predicate EndsInCR(line: seq<byte>) {
    line != [] && line[|line| - 1] == CR
  }

  lemma CutLine(a: seq<byte>, rest: seq<byte>, d: byte)
    requires d !in a && IndexOf(rest, d) < |rest|
    ensures d in a + rest && (IndexOf(rest, d) == 0 <==> rest[0] == d)
    ensures (a + rest)[IndexOf(a + rest, d) + 1..] == rest[IndexOf(rest, d) + 1..]
    ensures a + StripCR(rest[..IndexOf(rest, d)]) == StripCR((a + rest)[..IndexOf(a + rest, d)]) <==>
            !(EndsInCR(a) && rest[0] == d)
  {
    var j := IndexOf(rest, d);
    CutIndex(a, rest, d);
    CutStrip(a, rest[..j]);
    assert (a + rest)[|a| + j] == d;
  }

  lemma CutIndex(a: seq<byte>, rest: seq<byte>, d: byte)
    requires d !in a && d in rest
    ensures var j := IndexOf(rest, d);
            && IndexOf(a + rest, d) == |a| + j
            && (a + rest)[..|a| + j] == a + rest[..j]
            && (a + rest)[|a| + j + 1..] == rest[j + 1..]
  {
    IndexOfAppend(a, rest, d);
  }

  lemma CutStrip(a: seq<byte>, b: seq<byte>)
    ensures a + StripCR(b) == StripCR(a + b) <==> !(EndsInCR(a) && b == [])
  {
  }

  // ---- purge ----

  /** A purge takes the cache and some of what follows, and ends with an empty cache after
      exactly one failed recv. */
  lemma PurgeConserves(s: Port)
    ensures var (dropped, t) := PurgeRx(s);
            && Took(s, t, dropped)
            && s.cache <= dropped && t.cache == []
            && t.net.faults == s.net.faults + 1
  {
    DrainConserves(s.net, s.cache);
    DrainKeepsFront(s.net, s.cache);
  }

  /** A purge leaves the port blocking just when switching back worked, or when neither change
      worked and it was blocking before. */
  lemma PurgeRestoresBlocking(m: Mode)
    ensures PurgeMode(m).blocking <==>
            (|m.changes| >= 2 && m.changes[1]) || (!(m.changes != [] && m.changes[0]) && m.blocking)
  {
  }

  /** A purge whose second mode change fails leaves a blocking port non-blocking. */
  lemma PurgeLeavesNonBlocking()
    ensures !PurgeMode(Mode(true, [true, false])).blocking
  {
  }

  lemma {:induction false} DrainKeepsFront(net: Inbound, dropped: seq<byte>)
    ensures dropped <= Drain(net, dropped).0
    decreases |net.script| - net.next
  {
    var r := Recv(net, CHUNK);
    if r.ret > 0 {
      DrainKeepsFront(r.net, dropped + r.data);
    }
  }

  /** During a drain from here nothing arrives, and recv fails only when nothing is pending.
      What the schedule holds behind the drain's own recvs is left open. */
  ghost predicate Quiet(net: Inbound)
    decreases |net.script| - net.next
  {
    var r := Recv(net, CHUNK);
    && (net.next < |net.script| ==> net.script[net.next].more == 0)
    && if r.ret > 0 then Quiet(r.net) else Pending(net) == []
  }

  /** Enough for that: no arrival and no failure among the next answers, one for each pending
      byte and one more. */
  lemma {:induction false} QuietWindow(net: Inbound)
    requires net.next + |Pending(net)| <= |net.script|
    requires forall i :: net.next <= i <= net.next + |Pending(net)| && i < |net.script| ==>
               net.script[i].more == 0 && net.script[i].limit > 0
    ensures Quiet(net)
    decreases |Pending(net)|
  {
    if Pending(net) != [] {
      QuietWindow(Recv(net, CHUNK).net);
    }
  }

  /** A recv before which nothing arrives only moves bytes out of the pending ones. */
  lemma QuietRecv(net: Inbound)
    requires net.next < |net.script| ==> net.script[net.next].more == 0
    ensures var r := Recv(net, CHUNK);
            && Pending(net) == r.data + Pending(r.net) && Coming(net) == Coming(r.net)
            && net.ahead == Pending(net) + Coming(net)
  {
    var r := Recv(net, CHUNK);
    var avail := Min(net.avail, |net.ahead|);
    CutFront(net.ahead, |r.data|, avail);
    assert r.ret > 0 ==> r.net.ahead == net.ahead[r.ret..] && Min(r.net.avail, |r.net.ahead|) == avail - r.ret;
  }

  lemma CutFront(s: seq<byte>, k: nat, n: nat)
    requires k <= n <= |s|
    ensures s[..n] == s[..k] + s[k..][..n - k] && s[n..] == s[k..][n - k..] && s == s[..n] + s[n..]
  {
  }

  lemma {:induction false} DrainQuiet(net: Inbound, dropped: seq<byte>)
    requires Quiet(net)
    ensures var (d, end) := Drain(net, dropped);
            d == dropped + Pending(net) && Pending(end) == [] && end.ahead == Coming(net)
    decreases |net.script| - net.next
  {
    hide Recv, Pending, Coming;
    QuietRecv(net);
    var r := Recv(net, CHUNK);
    if r.ret <= 0 {
      assert dropped + [] == dropped;
    } else {
      DrainQuiet(r.net, dropped + r.data);
      Assoc(dropped, r.data, Pending(r.net));
    }
  }

  /** A purge while the line is quiet discards exactly what had arrived; all that is left of the
      stream is what arrives afterwards, and the port is blocking if both mode changes worked. */
  lemma PurgeQuiet(s: Port, m: Mode)
    requires Quiet(s.net)
    ensures var (dropped, t) := PurgeRx(s);
            && dropped == s.cache + Pending(s.net)
            && t.cache == [] && Pending(t.net) == []
            && Stream(t) == Coming(s.net)
    ensures [true, true] <= m.changes ==> PurgeMode(m).blocking
  {
    DrainQuiet(s.net, s.cache);
    assert [true, true] <= m.changes ==> m.changes[0] == [true, true][0] && m.changes[1] == [true, true][1];
  }

  // ---- queue status ----

  /** What had arrived and what arrives meanwhile (`news`) is what was taken and what is queued;
      so reads lower the queue status by exactly what they take, and arrivals raise it. */
  lemma QueueStatusAccounts(s: Port, t: Port, taken: seq<byte>) returns (news: seq<byte>)
    requires Took(s, t, taken)
    ensures Coming(s.net) == news + Coming(t.net)
    ensures s.cache + Pending(s.net) + news == taken + t.cache + Pending(t.net)
    ensures QueueStatus(s, true) + |news| == |taken| + QueueStatus(t, true)
  {
    var before, after := Coming(s.net), Coming(t.net);
    news := before[..|before| - |after|];
    var l, r := s.cache + Pending(s.net), taken + t.cache + Pending(t.net);
    assert Stream(s) == l + before && Stream(s) == r + after by {
      assert s.net.ahead == Pending(s.net) + before && t.net.ahead == Pending(t.net) + after;
    }
    SameEnd(l, before, r, after);
  }

  lemma SameEnd(l: seq<byte>, before: seq<byte>, r: seq<byte>, after: seq<byte>)
    requires l + before == r + after && |after| <= |before|
    ensures before == before[..|before| - |after|] + after
    ensures r == l + before[..|before| - |after|]
  {
    var k := |before| - |after|;
    var all := l + before;
    assert all[|l| + k..] == before[k..];
    assert all[|r|..] == after;
    assert all[..|r|] == r && all[..|l| + k] == l + before[..k];
  }
}
