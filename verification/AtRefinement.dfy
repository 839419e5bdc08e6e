/** The protocol's steps are what the code does: as long as no transfer fails and no deadline
    passes, each turn of the server's and of the client's loop is a run of the transition system. */
module AtRefinement {
  import opened Prelude
  import Os
  import P = PortSpec
  import Transfer
  import opened Framing
  import opened AtProtocol
  import opened AtParties

  // ---- putting runs together ----

  lemma OneStep(cmds: seq<Bytes>, s: State, a: Action)
    requires Enabled(s, a)
    ensures IsRun(cmds, s, [a]) && After(cmds, s, [a]) == Do(cmds, s, a)
  {
  }

  lemma {:induction false} RunAppend(cmds: seq<Bytes>, s: State, a: seq<Action>, b: seq<Action>)
    requires IsRun(cmds, s, a) && IsRun(cmds, After(cmds, s, a), b)
    ensures IsRun(cmds, s, a + b) && After(cmds, s, a + b) == After(cmds, After(cmds, s, a), b)
    decreases |a|
  {
    hide Do, Enabled;
    if a == [] {
      assert a + b == b;
    } else {
      assert (a + b)[1..] == a[1..] + b;
      RunAppend(cmds, Do(cmds, s, a[0]), a[1..], b);
    }
  }

  lemma StepThen(cmds: seq<Bytes>, s: State, a: Action, rest: seq<Action>)
    requires Enabled(s, a) && IsRun(cmds, Do(cmds, s, a), rest)
    ensures IsRun(cmds, s, [a] + rest) && After(cmds, s, [a] + rest) == After(cmds, Do(cmds, s, a), rest)
  {
  }

  // ---- the server's turn ----

  /** A `read_line` that completes is a run of refills and scans, up to acting on the line. */
  lemma {:induction false} ServerReads(cmds: seq<Bytes>, s: State, net: Os.Inbound, clock: seq<bool>)
    returns (run: seq<Action>)
    requires s.server.pc.Reading? && s.c2s == net.ahead && true !in clock
    requires P.ReadLine(P.Port(s.server.cache, net), s.server.acc, LF, clock).ending.Terminated?
    ensures IsRun(cmds, s, run)
    ensures var r := P.ReadLine(P.Port(s.server.cache, net), s.server.acc, LF, clock);
            After(cmds, s, run) == Act(s.(c2s := r.port.net.ahead), r.text, r.port.cache)
    decreases |net.script| - net.next, |s.server.cache|
  {
    hide Os.Recv, P.ReadLine, Reply, Encode, IsRun, After;
    var v := s.server;
    var port := P.Port(v.cache, net);
    P.ReadLineStep(port, v.acc, LF, clock);
    if v.cache != [] {
      if v.cache[0] == LF {
        OneStep(cmds, s, ServerScan);
        run := [ServerScan];
        assert s.(c2s := net.ahead) == s;
      } else {
        assert v.cache[..1] == [v.cache[0]];
        var rest := ServerReads(cmds, Do(cmds, s, ServerScan), net, clock);
        StepThen(cmds, s, ServerScan, rest);
        run := [ServerScan] + rest;
      }
    } else {
      var r := Os.Recv(net, P.CHUNK);
      FrontBack(net.ahead, r.data, r.net.ahead);
      var a := ServerRefill(r.ret);
      assert [] + r.data == r.data;
      var rest := ServerReads(cmds, Do(cmds, s, a), r.net, if clock == [] then [] else clock[1..]);
      StepThen(cmds, s, a, rest);
      run := [a] + rest;
    }
  }

  /** A `send_all` that succeeds is a run of sends of the server. */
  lemma {:induction false} ServerSends(cmds: seq<Bytes>, s: State, net: Os.Outbound,
                                       data: Bytes, count: nat, rest: Bytes)
    returns (run: seq<Action>)
    requires count <= |data| && s.server.pc.Replying? && s.server.unsent == data[count..] + rest
    requires Transfer.SendAll(net, data, count).ok
    ensures IsRun(cmds, s, run)
    ensures After(cmds, s, run) == s.(server := s.server.(unsent := rest), s2c := s.s2c + data[count..])
    decreases |data| - count
  {
    hide Reply, Encode, IsRun, After;
    if count == |data| {
      run := [];
      Stay(cmds, s);
      assert s.s2c + [] == s.s2c && [] + rest == rest;
    } else {
      var (k, net1) := Os.Send(net, data[count..]);
      var a := ServerSend(k);
      var tail := data[count + k..];
      assert data[count..] == data[count..][..k] + tail;
      assert s.server.unsent[..k] == data[count..][..k] && s.server.unsent[k..] == tail + rest;
      Assoc(s.s2c, data[count..][..k], tail);
      var more := ServerSends(cmds, Do(cmds, s, a), net1, data, count + k, rest);
      StepThen(cmds, s, a, more);
      run := [a] + more;
    }
  }

  lemma Stay(cmds: seq<Bytes>, s: State)
    ensures IsRun(cmds, s, []) && After(cmds, s, []) == s
  {
  }

  /** Writing the lines of a reply without a failing send is a run that empties the buffer. */
  lemma {:induction false} ServerWrites(cmds: seq<Bytes>, s: State, net: Os.Outbound, lines: seq<Bytes>)
    returns (run: seq<Action>)
    requires s.server.pc.Replying? && s.server.unsent == Encode(lines, CRLF)
    requires WriteLines(net, lines, CRLF).0
    ensures IsRun(cmds, s, run)
    ensures After(cmds, s, run) == s.(server := s.server.(unsent := []), s2c := s.s2c + Encode(lines, CRLF))
    decreases |lines|
  {
    hide IsRun, After, Do, Transfer.SendAll;
    if lines == [] {
      run := [];
      Stay(cmds, s);
      assert s.s2c + [] == s.s2c;
    } else {
      var first, rest := lines[0] + CRLF, Encode(lines[1..], CRLF);
      assert first[0..] == first;
      run := ServerSends(cmds, s, net, first, 0, rest);
      var t := After(cmds, s, run);
      var more := ServerWrites(cmds, t, Transfer.SendAll(net, first, 0).net, lines[1..]);
      RunAppend(cmds, s, run, more);
      Assoc(s.s2c, first, rest);
      run := run + more;
    }
  }

  /** A purge's drain is a run of purge steps that discards the same bytes. */
  lemma {:induction false} ServerPurges(cmds: seq<Bytes>, s: State, net: Os.Inbound) returns (run: seq<Action>)
    requires s.server.pc.Purging? && s.c2s == net.ahead
    ensures IsRun(cmds, s, run)
    ensures var (dropped, end) := P.Drain(net, s.discarded);
            After(cmds, s, run) ==
            s.(server := s.server.(pc := Replying(false), unsent := Encode(Reply(AT_PURGE), CRLF)),
               c2s := end.ahead, discarded := dropped)
    decreases |net.script| - net.next
  {
    hide Os.Recv, P.Drain, Reply, Encode, IsRun, After;
    P.DrainStep(net, s.discarded);
    var r := Os.Recv(net, P.CHUNK);
    if r.ret <= 0 {
      OneStep(cmds, s, ServerPurgeEnd);
      run := [ServerPurgeEnd];
    } else {
      FrontBack(net.ahead, r.data, r.net.ahead);
      var a := ServerPurge(r.ret);
      var rest := ServerPurges(cmds, Do(cmds, s, a), r.net);
      StepThen(cmds, s, a, rest);
      run := [a] + rest;
    }
  }

  lemma {:induction false} DrainBehind(net: Os.Inbound, a: Bytes, b: Bytes)
    ensures P.Drain(net, a + b) == (a + P.Drain(net, b).0, P.Drain(net, b).1)
    decreases |net.script| - net.next
  {
    hide Os.Recv;
    var r := Os.Recv(net, P.CHUNK);
    if r.ret > 0 {
      DrainBehind(r.net, a, b + r.data);
      Assoc(a, b, r.data);
    }
  }

  /** What a party still has to send may go out at once. */
  lemma FlushClient(cmds: seq<Bytes>, s: State) returns (run: seq<Action>)
    requires s.client.unsent != [] ==> s.client.pc.Sending?
    ensures IsRun(cmds, s, run)
    ensures After(cmds, s, run) == s.(client := s.client.(unsent := []), c2s := s.c2s + s.client.unsent)
  {
    hide IsRun, After;
    if s.client.unsent == [] {
      run := [];
      Stay(cmds, s);
      assert s.c2s + [] == s.c2s;
    } else {
      run := [ClientSend(|s.client.unsent|)];
      OneStep(cmds, s, run[0]);
    }
  }

  lemma FlushServer(cmds: seq<Bytes>, s: State) returns (run: seq<Action>)
    requires s.server.unsent != [] ==> s.server.pc.Replying?
    ensures IsRun(cmds, s, run)
    ensures After(cmds, s, run) == s.(server := s.server.(unsent := []), s2c := s.s2c + s.server.unsent)
  {
    hide IsRun, After;
    if s.server.unsent == [] {
      run := [];
      Stay(cmds, s);
      assert s.s2c + [] == s.s2c;
    } else {
      run := [ServerSend(|s.server.unsent|)];
      OneStep(cmds, s, run[0]);
    }
  }

  /** What one turn of the server's loop reads, what it discards and the port it leaves. */
  function Serving(port: P.Port, clock: seq<bool>): (Bytes, Bytes, P.Port) {
    var r := P.ReadLine(port, [], LF, clock);
    if r.text == AT_PURGE then (r.text, P.PurgeRx(r.port).0, P.PurgeRx(r.port).1) else (r.text, [], r.port)
  }

  /** The protocol state a turn of the server leads to. */
  function Turned(s: State, cmd: Bytes, dropped: Bytes, port: P.Port): State {
    State(
      Server(if cmd == AT_QUIT then Finished else Reading, [], port.cache, [],
             if cmd == [] then s.server.handled else s.server.handled + [cmd]),
      s.client.(unsent := []),
      port.net.ahead,
      s.s2c + (if cmd == [] then [] else Encode(Reply(cmd), CRLF)),
      s.discarded + dropped)
  }

  /** One turn of the server's code is a run of the protocol, whatever part of what the client has
      to send is already on its way when the turn begins. */
  lemma ServerTurnIsRun(cmds: seq<Bytes>, s: State, v: Side, clock: seq<bool>) returns (run: seq<Action>)
    requires s.server == Server(Reading, [], v.port.cache, [], s.server.handled)
    requires s.c2s + s.client.unsent == v.port.net.ahead && (s.client.unsent != [] ==> s.client.pc.Sending?)
    requires true !in clock && P.ReadLine(v.port, [], LF, clock).ending.Terminated?
    requires WriteLines(v.out, Reply(P.ReadLine(v.port, [], LF, clock).text), CRLF).0
    ensures IsRun(cmds, s, run)
    ensures var (cmd, dropped, end) := Serving(v.port, clock);
            && After(cmds, s, run) == Turned(s, cmd, dropped, end)
            && Turn(v, clock).0 == (cmd != AT_QUIT) && Turn(v, clock).1.port == end
  {
    hide P.ReadLine, Reply, Encode, IsRun, After, WriteLines, P.Drain, WriteAll;
    run := FlushClient(cmds, s);
    var s0 := After(cmds, s, run);
    var more := ServerTakes(cmds, s0, v, clock);
    RunAppend(cmds, s, run, more);
    run := run + more;
  }

  lemma ServerTakes(cmds: seq<Bytes>, s: State, v: Side, clock: seq<bool>) returns (run: seq<Action>)
    requires s.server == Server(Reading, [], v.port.cache, [], s.server.handled)
    requires s.c2s == v.port.net.ahead && s.client.unsent == []
    requires true !in clock && P.ReadLine(v.port, [], LF, clock).ending.Terminated?
    requires WriteLines(v.out, Reply(P.ReadLine(v.port, [], LF, clock).text), CRLF).0
    ensures IsRun(cmds, s, run)
    ensures var (cmd, dropped, end) := Serving(v.port, clock);
            After(cmds, s, run) == Turned(s, cmd, dropped, end)
  {
    hide P.ReadLine, Reply, Encode, IsRun, After, WriteLines, P.Drain;
    run := ServerReads(cmds, s, v.port.net, clock);
    var t := After(cmds, s, run);
    var r := P.ReadLine(v.port, [], LF, clock);
    assert s.discarded + [] == s.discarded && s.s2c + [] == s.s2c;
    if r.text != [] {
      if r.text == AT_PURGE {
        DrainBehind(r.port.net, s.discarded, r.port.cache);
        var drained := ServerPurges(cmds, t, r.port.net);
        RunAppend(cmds, s, run, drained);
        run, t := run + drained, After(cmds, t, drained);
      }
      var sent := ServerWrites(cmds, t, v.out, Reply(r.text));
      RunAppend(cmds, s, run, sent);
      run, t := run + sent, After(cmds, t, sent);
      OneStep(cmds, t, ServerLoop);
      RunAppend(cmds, s, run, [ServerLoop]);
      run := run + [ServerLoop];
    }
  }

  // ---- the client's turn ----

  lemma {:induction false} ClientSends(cmds: seq<Bytes>, s: State, net: Os.Outbound, data: Bytes, count: nat)
    returns (run: seq<Action>)
    requires count <= |data| && s.client.pc.Sending? && s.client.unsent == data[count..]
    requires Transfer.SendAll(net, data, count).ok
    ensures IsRun(cmds, s, run)
    ensures After(cmds, s, run) == s.(client := s.client.(pc := Receiving, unsent := []), c2s := s.c2s + data[count..])
    decreases |data| - count
  {
    hide Reply, Encode, IsRun, After;
    if count == |data| {
      run := [ClientListen];
      OneStep(cmds, s, ClientListen);
      assert s.c2s + [] == s.c2s;
    } else {
      var (k, net1) := Os.Send(net, data[count..]);
      var a := ClientSend(k);
      var tail := data[count + k..];
      assert data[count..] == data[count..][..k] + tail && data[count..][k..] == tail;
      Assoc(s.c2s, data[count..][..k], tail);
      var more := ClientSends(cmds, Do(cmds, s, a), net1, data, count + k);
      StepThen(cmds, s, a, more);
      run := [a] + more;
    }
  }

  /** A `read_line` of the client that completes is a run up to hearing the line. */
  lemma {:induction false} ClientReads(cmds: seq<Bytes>, s: State, net: Os.Inbound, clock: seq<bool>)
    returns (run: seq<Action>)
    requires s.client.pc.Receiving? && s.s2c == net.ahead && true !in clock
    requires P.ReadLine(P.Port(s.client.cache, net), s.client.acc, LF, clock).ending.Terminated?
    ensures IsRun(cmds, s, run)
    ensures var r := P.ReadLine(P.Port(s.client.cache, net), s.client.acc, LF, clock);
            After(cmds, s, run) == Hear(cmds, s.(s2c := r.port.net.ahead), r.text, r.port.cache)
    decreases |net.script| - net.next, |s.client.cache|
  {
    hide Os.Recv, P.ReadLine, Reply, Encode, IsRun, After, NextCommand, Ends;
    var c := s.client;
    var port := P.Port(c.cache, net);
    P.ReadLineStep(port, c.acc, LF, clock);
    if c.cache != [] {
      if c.cache[0] == LF {
        OneStep(cmds, s, ClientScan);
        run := [ClientScan];
        assert s.(s2c := net.ahead) == s;
      } else {
        assert c.cache[..1] == [c.cache[0]];
        var rest := ClientReads(cmds, Do(cmds, s, ClientScan), net, clock);
        StepThen(cmds, s, ClientScan, rest);
        run := [ClientScan] + rest;
      }
    } else {
      var r := Os.Recv(net, P.CHUNK);
      FrontBack(net.ahead, r.data, r.net.ahead);
      var a := ClientRefill(r.ret);
      assert [] + r.data == r.data;
      var rest := ClientReads(cmds, Do(cmds, s, a), r.net, if clock == [] then [] else clock[1..]);
      StepThen(cmds, s, a, rest);
      run := [a] + rest;
    }
  }

  /** Reading a whole answer without a failing recv is a run up to the client's next command,
      whatever part of what the server has to send is already on its way. */
  lemma ClientHears(cmds: seq<Bytes>, s: State, port: P.Port, clocks: seq<seq<bool>>) returns (run: seq<Action>)
    requires s.client.pc.Receiving? && s.client.acc == [] && s.client.cache == port.cache
    requires s.s2c + s.server.unsent == port.net.ahead && (s.server.unsent != [] ==> s.server.pc.Replying?)
    requires Patient(clocks) && HearAll(port, clocks).1.net.faults == port.net.faults
    ensures IsRun(cmds, s, run)
    ensures var (heard, end) := HearAll(port, clocks);
            After(cmds, s, run) ==
            s.(server := s.server.(unsent := []),
               client := NextCommand(cmds, s.client.index + 1, s.client.transcript + heard).(cache := end.cache),
               s2c := end.net.ahead)
  {
    hide IsRun, After, HearAll, NextCommand;
    run := FlushServer(cmds, s);
    var s0 := After(cmds, s, run);
    var more := ClientTakes(cmds, s0, port, clocks);
    RunAppend(cmds, s, run, more);
    run := run + more;
  }

  lemma {:induction false} ClientTakes(cmds: seq<Bytes>, s: State, port: P.Port, clocks: seq<seq<bool>>)
    returns (run: seq<Action>)
    requires s.client.pc.Receiving? && s.client.acc == [] && s.client.cache == port.cache && s.s2c == port.net.ahead
    requires Patient(clocks) && HearAll(port, clocks).1.net.faults == port.net.faults
    ensures IsRun(cmds, s, run)
    ensures var (heard, end) := HearAll(port, clocks);
            After(cmds, s, run) ==
            s.(client := NextCommand(cmds, s.client.index + 1, s.client.transcript + heard).(cache := end.cache),
               s2c := end.net.ahead)
    decreases |P.Stream(port)|
  {
    hide P.ReadLine, IsRun, After, NextCommand, Ends;
    var clock := First(clocks);
    NoFaultEnds(port, clocks);
    run := ClientReads(cmds, s, port.net, clock);
    var t := After(cmds, s, run);
    var r := P.ReadLine(port, [], LF, clock);
    assert s.client.transcript + [] == s.client.transcript;
    if r.text != [] && !Ends(r.text) {
      TextShortensStream(port, clock);
      var rest := ClientTakes(cmds, t, r.port, Rest(clocks));
      RunAppend(cmds, s, run, rest);
      Assoc(s.client.transcript, [r.text], HearAll(r.port, Rest(clocks)).0);
      run := run + rest;
    }
  }

  // ---- the demo put together ----

  /** Both sides, what the client has heard, and whether the server has quit. */
  datatype Demo = Demo(server: Side, client: Side, transcript: seq<Bytes>, quit: bool)

  lemma {:induction false} WriteAllGrows(net: Os.Outbound, lines: seq<Bytes>)
    ensures net.sent <= WriteAll(net, lines).sent
    decreases |lines|
  {
    hide Transfer.SendAll;
    if lines != [] {
      var data := lines[0] + CRLF;
      Transfer.SendAllTransmits(net, data, 0);
      WriteAllGrows(Transfer.SendAll(net, data, 0).net, lines[1..]);
    }
  }

  lemma TurnGrows(v: Side, clock: seq<bool>)
    ensures v.out.sent <= Turn(v, clock).1.out.sent
  {
    hide P.ReadLine, P.PurgeRx, WriteAll, Reply;
    WriteAllGrows(v.out, Reply(P.ReadLine(v.port, [], LF, clock).text));
  }

  /** What is in front of the server when the client has sent `cmd`. */
  function Asked(x: Demo, cmd: Bytes): Side {
    WriteAllGrows(x.client.out, [cmd]);
    Side(x.server.port.(net := Transfer.Delivered(x.server.port.net, x.client.out, WriteAll(x.client.out, [cmd]))),
         x.server.out)
  }

  /** One command of the client's loop with the server's turn in between, on the bytes each really
      sent. */
  function Exchange(x: Demo, cmd: Bytes, clock: seq<bool>, clocks: seq<seq<bool>>): Demo {
    var asked := Asked(x, cmd);
    var (goOn, v) := if x.quit then (false, asked) else Turn(asked, clock);
    TurnGrows(asked, clock);
    var (heard, port) :=
      HearAll(x.client.port.(net := Transfer.Delivered(x.client.port.net, asked.out, v.out)), clocks);
    Demo(v, Side(port, WriteAll(x.client.out, [cmd])), x.transcript + heard, !goOn)
  }

  /** The client's loop from command `i` on. */
  function Exchanges(x: Demo, cmds: seq<Bytes>, i: nat, clock: seq<seq<bool>>, clocks: seq<seq<seq<bool>>>): Demo
    decreases |cmds| - i
  {
    if i >= |cmds| then x
    else Exchanges(Exchange(x, cmds[i], Clock(clock, i), Clock(clocks, i)), cmds, i + 1, clock, clocks)
  }

  /** No send fails, no deadline passes and no line read fails.  The last recv of a purge does. */
  ghost predicate Smooth(x: Demo, cmd: Bytes, clock: seq<bool>, clocks: seq<seq<bool>>) {
    var asked := Asked(x, cmd);
    var r := P.ReadLine(asked.port, [], LF, clock);
    && Transfer.SendAll(x.client.out, cmd + CRLF, 0).ok
    && true !in clock && r.ending.Terminated?
    && WriteLines(asked.out, Reply(r.text), CRLF).0
    && Patient(clocks)
    && Exchange(x, cmd, clock, clocks).client.port.net.faults == x.client.port.net.faults
  }

  ghost predicate AllSmooth(x: Demo, cmds: seq<Bytes>, i: nat, clock: seq<seq<bool>>, clocks: seq<seq<seq<bool>>>)
    decreases |cmds| - i
  {
    i < |cmds| ==>
      && Smooth(x, cmds[i], Clock(clock, i), Clock(clocks, i))
      && AllSmooth(Exchange(x, cmds[i], Clock(clock, i), Clock(clocks, i)), cmds, i + 1, clock, clocks)
  }

  /** Nothing is cached and nothing is on its way. */
  ghost predicate AtRest(x: Demo) {
    && x.server.port.cache == [] && x.server.port.net.ahead == []
    && x.client.port.cache == [] && x.client.port.net.ahead == []
  }

  /** The protocol's state between two commands. */
  function Between(cmds: seq<Bytes>, i: nat, x: Demo): State
    requires i <= |cmds|
  {
    State(Server(if x.quit then Finished else Reading, [], [], [], cmds[..i]),
          NextCommand(cmds, i, x.transcript), [], [], [])
  }

  /** What is in front of the server is the command, and that is the line it reads. */
  lemma ServerReadsCommand(x: Demo, cmd: Bytes, clock: seq<bool>)
    requires AtRest(x) && cmd != [] && LF !in cmd
    requires Transfer.SendAll(x.client.out, cmd + CRLF, 0).ok
    requires P.ReadLine(Asked(x, cmd).port, [], LF, clock).ending.Terminated?
    ensures var asked := Asked(x, cmd);
            var r := P.ReadLine(asked.port, [], LF, clock);
            && asked.out == x.server.out && asked.port.cache == [] && asked.port.net.ahead == cmd + CRLF
            && r.text == cmd && P.Stream(r.port) == []
  {
    hide P.ReadLine, Transfer.SendAll, WriteAll, Transfer.Delivered;
    var asked := Asked(x, cmd);
    var data := cmd + CRLF;
    WriteOneOrTwo(x.client.out, cmd, []);
    Transfer.SendAllTransmits(x.client.out, data, 0);
    assert data[0..|data|] == data;
    Transfer.DeliveredIs(x.server.port.net, x.client.out, WriteAll(x.client.out, [cmd]), data);
    assert asked.port.net.ahead == data && P.Stream(asked.port) == data + [];
    ReadsFirstLine(asked.port, cmd, [], clock);
  }

  lemma PurgeOfNothing(s: P.Port)
    requires P.Stream(s) == []
    ensures s.cache == [] && s.net.ahead == []
    ensures var (dropped, t) := P.PurgeRx(s);
            dropped == [] && t.cache == [] && t.net.ahead == []
  {
    hide P.PurgeRx;
    P.PurgeConserves(s);
    var (dropped, t) := P.PurgeRx(s);
    assert |P.Stream(s)| == |s.cache| + |s.net.ahead|;
    assert |P.Stream(s)| == |dropped| + |P.Stream(t)|;
  }

  /** The server takes exactly the command that was sent, and a purge then discards nothing. */
  lemma ServerAnswers(x: Demo, cmd: Bytes, clock: seq<bool>)
    requires AtRest(x) && cmd != [] && LF !in cmd
    requires Transfer.SendAll(x.client.out, cmd + CRLF, 0).ok
    requires P.ReadLine(Asked(x, cmd).port, [], LF, clock).ending.Terminated?
    requires WriteLines(x.server.out, Reply(cmd), CRLF).0
    ensures var (line, dropped, end) := Serving(Asked(x, cmd).port, clock);
            && line == cmd && dropped == [] && end.cache == [] && end.net.ahead == []
    ensures var (goOn, v) := Turn(Asked(x, cmd), clock);
            && goOn == (cmd != AT_QUIT) && v.port.cache == [] && v.port.net.ahead == []
            && v.out.sent == x.server.out.sent + Encode(Reply(cmd), CRLF)
  {
    hide P.ReadLine, P.PurgeRx, P.Stream, Transfer.SendAll, WriteAll, WriteLines, Reply, Encode, Asked;
    ServerReadsCommand(x, cmd, clock);
    PurgeOfNothing(P.ReadLine(Asked(x, cmd).port, [], LF, clock).port);
    WriteAllSends(x.server.out, Reply(cmd));
  }

  /** A smooth exchange is a run of the protocol from one command to the next, and its transcript
      grows by the reply. */
  lemma ExchangeIsRun(cmds: seq<Bytes>, i: nat, x: Demo, clock: seq<bool>, clocks: seq<seq<bool>>)
    returns (run: seq<Action>)
    requires i < |cmds| && cmds[i] != [] && LF !in cmds[i]
    requires AtRest(x) && !x.quit && Smooth(x, cmds[i], clock, clocks)
    ensures var y := Exchange(x, cmds[i], clock, clocks);
            && AtRest(y) && y.transcript == x.transcript + Reply(cmds[i]) && y.quit == (cmds[i] == AT_QUIT)
            && IsRun(cmds, Between(cmds, i, x), run)
            && After(cmds, Between(cmds, i, x), run) == Between(cmds, i + 1, y)
  {
    hide P.ReadLine, P.PurgeRx, Transfer.SendAll, WriteAll, WriteLines, Reply, Encode, IsRun, After, HearAll,
      Asked, Turn, Transfer.Delivered;
    var cmd := cmds[i];
    var s := Between(cmds, i, x);
    var asked := Asked(x, cmd);
    ServerReadsCommand(x, cmd, clock);
    ServerAnswers(x, cmd, clock);
    assert (cmd + CRLF)[0..] == cmd + CRLF && [] + (cmd + CRLF) == cmd + CRLF;
    run := ClientSends(cmds, s, x.client.out, cmd + CRLF, 0);
    var s1 := After(cmds, s, run);
    assert s1.c2s + s1.client.unsent == asked.port.net.ahead;
    var served := ServerTurnIsRun(cmds, s1, asked, clock);
    RunAppend(cmds, s, run, served);
    run := run + served;
    var s2 := After(cmds, s, run);
    assert cmds[..i + 1] == cmds[..i] + [cmd];
    var v := Turn(asked, clock).1;
    var reply := Encode(Reply(cmd), CRLF);
    Transfer.DeliveredIs(x.client.port.net, asked.out, v.out, reply);
    var port := x.client.port.(net := Transfer.Delivered(x.client.port.net, asked.out, v.out));
    assert port.net.ahead == reply && P.Stream(port) == reply + [];
    HearsReplyExactly(port, cmd, [], clocks);
    var heard := ClientHears(cmds, s2, port, clocks);
    RunAppend(cmds, s, run, heard);
    run := run + heard;
  }

  lemma {:induction false} ExchangesAreRun(cmds: seq<Bytes>, i: nat, x: Demo,
                                           clock: seq<seq<bool>>, clocks: seq<seq<seq<bool>>>)
    returns (run: seq<Action>)
    requires Commands(cmds) && i <= |cmds| && AtRest(x) && (x.quit ==> i == |cmds|)
    requires AllSmooth(x, cmds, i, clock, clocks) && x.transcript == Replies(cmds[..i])
    ensures var y := Exchanges(x, cmds, i, clock, clocks);
            && AtRest(y) && y.transcript == Replies(cmds)
            && IsRun(cmds, Between(cmds, i, x), run)
            && After(cmds, Between(cmds, i, x), run) == Between(cmds, |cmds|, y)
    decreases |cmds| - i
  {
    hide Smooth, AtRest, Exchange, IsRun, After, Between, Reply;
    if i == |cmds| {
      run := [];
      Stay(cmds, Between(cmds, i, x));
      assert cmds[..i] == cmds;
    } else {
      run := ExchangeIsRun(cmds, i, x, Clock(clock, i), Clock(clocks, i));
      var y := Exchange(x, cmds[i], Clock(clock, i), Clock(clocks, i));
      assert cmds[..i + 1][..i] == cmds[..i];
      var more := ExchangesAreRun(cmds, i + 1, y, clock, clocks);
      RunAppend(cmds, Between(cmds, i, x), run, more);
      run := run + more;
    }
  }

  /** The whole demo.  On a fresh connection both loops put together, under any schedules that let
      no transfer fail, give the client exactly the server's replies to its commands, and are a
      run of the protocol from its first state to its final one. */
  lemma DemoIsRun(cmds: seq<Bytes>, x: Demo, clock: seq<seq<bool>>, clocks: seq<seq<seq<bool>>>)
    returns (run: seq<Action>)
    requires Commands(cmds) && AtRest(x) && !x.quit && x.transcript == []
    requires AllSmooth(x, cmds, 0, clock, clocks)
    ensures var heard := Exchanges(x, cmds, 0, clock, clocks).transcript;
            heard == Replies(cmds) && Answered(cmds, heard)
    ensures IsRun(cmds, Init(cmds), run) && Final(cmds, After(cmds, Init(cmds), run))
  {
    hide AllSmooth, IsRun, After, Exchanges, Reply, Encode;
    RepliesAnswer(cmds);
    assert cmds[..0] == [];
    run := ExchangesAreRun(cmds, 0, x, clock, clocks);
    var t := After(cmds, Init(cmds), run);
    InitHolds(cmds);
    RunKeeps(cmds, Init(cmds), run);
    assert cmds[..|cmds|] == cmds;
  }
}
