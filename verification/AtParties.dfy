/** The two halves of the AT-command demo as code over a serial port: what one turn of each
    loop does to the port, and that the server's branches are the protocol's reply function. */
module AtParties {
  import opened Prelude
  import Os
  import P = PortSpec
  import Transfer
  import opened Framing
  import opened AtProtocol
  import opened SerialPorts

  /** `write_line` for each line, results ignored as the demo does. */
  function WriteAll(net: Os.Outbound, lines: seq<seq<byte>>): Os.Outbound
    decreases |lines|
  {
    if lines == [] then net
    else WriteAll(Transfer.SendAll(net, lines[0] + CRLF, 0).net, lines[1..])
  }

  /** When no send fails, exactly the encoded lines go out. */
  lemma {:induction false} WriteAllSends(net: Os.Outbound, lines: seq<seq<byte>>)
    requires WriteLines(net, lines, CRLF).0
    ensures WriteAll(net, lines) == WriteLines(net, lines, CRLF).1
    ensures WriteAll(net, lines).sent == net.sent + Encode(lines, CRLF)
    decreases |lines|
  {
    WriteLinesSends(net, lines, CRLF);
    if lines != [] {
      WriteAllSends(Transfer.SendAll(net, lines[0] + CRLF, 0).net, lines[1..]);
    }
  }

  lemma WriteOneOrTwo(net: Os.Outbound, a: Bytes, b: Bytes)
    ensures WriteAll(net, [a]) == Transfer.SendAll(net, a + CRLF, 0).net
    ensures WriteAll(net, [a, b]) == WriteAll(WriteAll(net, [a]), [b])
  {
  }

  /** From `before` to `after` the answer to `cmd` was written, each line in turn, whether or not
      the sends worked. */
  ghost predicate Answers(before: Os.Outbound, cmd: Bytes, after: Os.Outbound) {
    && (cmd == Ascii("AT") || cmd == Ascii("AT+PURGE") ==> after == Transfer.SendAll(before, Ascii("OK\r\n"), 0).net)
    && (cmd == Ascii("AT+INFO") ==>
        var first := Transfer.SendAll(before, InfoText() + Ascii("\r\n"), 0).net;
        after == Transfer.SendAll(first, Ascii("OK\r\n"), 0).net)
    && (cmd == Ascii("AT+QUIT") ==> after == Transfer.SendAll(before, Ascii("BYE\r\n"), 0).net)
    && (!Known(cmd) ==> after == Transfer.SendAll(before, UnknownText() + Ascii("\r\n"), 0).net)
  }

  lemma ReplyIsAnswer(net: Os.Outbound, cmd: Bytes)
    ensures Answers(net, cmd, WriteAll(net, Reply(cmd)))
  {
    hide Ascii, InfoText, UnknownText, Transfer.SendAll, WriteAll;
    Spelled();
    SpelledTexts();
    Different();
    SpelledLines();
    WriteOneOrTwo(net, OK, []);
    WriteOneOrTwo(net, BYE, []);
    WriteOneOrTwo(net, UNKNOWN, []);
    WriteOneOrTwo(net, INFO, OK);
    WriteOneOrTwo(Transfer.SendAll(net, INFO + CRLF, 0).net, OK, []);
  }

  lemma SpelledLines()
    ensures OK + CRLF == Ascii("OK\r\n") && BYE + CRLF == Ascii("BYE\r\n")
  {
  }

  /** The answer to one non-empty command. */
  method Respond(serial: SerialPort, cmd: Bytes) returns (quit: bool)
    requires serial.Valid() && serial.sock != null
    modifies serial`rxBuf, serial`rxHead
    modifies serial.Conn()`inn, serial.Conn()`recvModes, serial.Conn()`out, serial.Conn()`mode
    ensures serial.Valid()
    ensures quit <==> cmd == Ascii("AT+QUIT")
    ensures Answers(old(serial.sock.conn.out), cmd, serial.sock.conn.out)
    ensures serial.sock.conn.out == WriteAll(old(serial.sock.conn.out), Reply(cmd))
    ensures serial.View() == if cmd == Ascii("AT+PURGE") then P.PurgeRx(old(serial.View())).1 else old(serial.View())
  {
    quit := false;
    hide P.PurgeRx, Transfer.SendAll, WriteAll, Answers, Ascii;
    Spelled();
    ghost var net := serial.sock.conn.out;
    ReplyIsAnswer(net, cmd);
    WriteOneOrTwo(net, OK, []);
    WriteOneOrTwo(net, BYE, []);
    WriteOneOrTwo(net, UNKNOWN, []);
    WriteOneOrTwo(net, INFO, OK);
    WriteOneOrTwo(Transfer.SendAll(net, INFO + CRLF, 0).net, OK, []);
    if cmd == AT {
      var _ := serial.WriteLine(OK, CRLF);
    } else if cmd == AT_INFO {
      var _ := serial.WriteLine(INFO, CRLF);
      var _ := serial.WriteLine(OK, CRLF);
    } else if cmd == AT_PURGE {
      serial.Purge(P.PurgeFlags(true, true));
      var _ := serial.WriteLine(OK, CRLF);
    } else if cmd == AT_QUIT {
      var _ := serial.WriteLine(BYE, CRLF);
      quit := true;
    } else {
      var _ := serial.WriteLine(UNKNOWN, CRLF);
    }
  }

  /** What one side of the session holds: its port and what it has sent. */
  datatype Side = Side(port: P.Port, out: Os.Outbound)

  /** One turn of the server's loop and whether it goes on.  It goes on after an empty line, which
      is also what a failed or timed-out read of nothing looks like. */
  function Turn(s: Side, clock: seq<bool>): (bool, Side) {
    var r := P.ReadLine(s.port, [], LF, clock);
    if r.text == [] then (true, Side(r.port, s.out))
    else
      (r.text != AT_QUIT,
       Side(if r.text == AT_PURGE then P.PurgeRx(r.port).1 else r.port, WriteAll(s.out, Reply(r.text))))
  }

  /** `clock` as for `ReadLine`, whose default deadline is five seconds. */
  method ServeOnce(serial: SerialPort, clock: seq<bool>) returns (goOn: bool)
    requires serial.Valid() && serial.sock != null
    modifies serial`rxBuf, serial`rxHead
    modifies serial.Conn()`inn, serial.Conn()`recvModes, serial.Conn()`out, serial.Conn()`mode
    ensures serial.Valid()
    ensures (goOn, Side(serial.View(), serial.sock.conn.out))
         == Turn(old(Side(serial.View(), serial.sock.conn.out)), clock)
  {
    hide P.ReadLine, P.PurgeRx, Reply, WriteAll, Answers, Ascii;
    Spelled();
    var cmd := serial.ReadLine(LF, 5000, clock);
    if cmd == [] {
      return true;
    }
    var quit := Respond(serial, cmd);
    return !quit;
  }

  /** The clock of the next `read_line`, and of those after it. */
  function First<T>(clocks: seq<seq<T>>): seq<T> {
    if clocks == [] then [] else clocks[0]
  }

  function Rest<T>(clocks: seq<seq<T>>): seq<seq<T>> {
    if clocks == [] then [] else clocks[1..]
  }

  // ---- the server's loop ----

  datatype Served = Served(turns: nat, ended: bool, side: Side)

  /** At most `n` turns of the loop. */
  function Serve(s: Side, clocks: seq<seq<bool>>, n: nat): (r: Served)
    ensures r.turns <= n && (r.ended || r.turns == n)
    decreases n
  {
    if n == 0 then Served(0, false, s)
    else
      var (goOn, t) := Turn(s, First(clocks));
      if !goOn then Served(1, true, t)
      else
        var r := Serve(t, Rest(clocks), n - 1);
        Served(r.turns + 1, r.ended, r.side)
  }

  /** The server's loop, watched for at most `n` turns.  Nothing in it closes the port, so the
      loop's own test never ends it. */
  method ServeLoop(serial: SerialPort, clocks: seq<seq<bool>>, n: nat) returns (turns: nat, ended: bool)
    requires serial.Valid() && serial.sock != null
    modifies serial`rxBuf, serial`rxHead
    modifies serial.Conn()`inn, serial.Conn()`recvModes, serial.Conn()`out, serial.Conn()`mode
    ensures serial.Valid()
    ensures Served(turns, ended, Side(serial.View(), serial.sock.conn.out))
         == Serve(old(Side(serial.View(), serial.sock.conn.out)), clocks, n)
  {
    hide Turn;
    turns, ended := 0, false;
    var left := clocks;
    ghost var goal := Serve(Side(serial.View(), serial.sock.conn.out), clocks, n);
    while serial.IsOpen() && turns < n
      invariant serial.Valid() && turns <= n && !ended
      invariant var r := Serve(Side(serial.View(), serial.sock.conn.out), left, n - turns);
                goal == Served(turns + r.turns, r.ended, r.side)
    {
      var goOn := ServeOnce(serial, First(left));
      turns, left := turns + 1, Rest(left);
      if !goOn {
        ended := true;
        break;
      }
    }
  }

  /** The server as it would be before turn `n`, were it never to stop. */
  function Later(s: Side, clocks: seq<seq<bool>>, n: nat): Side
    decreases n
  {
    if n == 0 then s else Later(Turn(s, First(clocks)).1, Rest(clocks), n - 1)
  }

  function Clock<T>(clocks: seq<seq<T>>, n: nat): seq<T> {
    if n < |clocks| then clocks[n] else []
  }

  /** The line read in turn `n`. */
  function LineAt(s: Side, clocks: seq<seq<bool>>, n: nat): Bytes {
    P.ReadLine(Later(s, clocks, n).port, [], LF, Clock(clocks, n)).text
  }

  /** Whatever arrives, fails or times out: the loop ends in turn `n` if and only if the line read
      there is AT+QUIT and no earlier one is. */
  lemma {:induction false} EndsAtQuit(s: Side, clocks: seq<seq<bool>>, limit: nat, n: nat)
    requires n < limit
    ensures Serve(s, clocks, limit).ended && Serve(s, clocks, limit).turns == n + 1 <==>
            LineAt(s, clocks, n) == AT_QUIT && forall k :: 0 <= k < n ==> LineAt(s, clocks, k) != AT_QUIT
    decreases n
  {
    hide P.ReadLine, P.PurgeRx, Reply, WriteAll;
    var (goOn, t) := Turn(s, First(clocks));
    assert LineAt(s, clocks, 0) == P.ReadLine(s.port, [], LF, First(clocks)).text;
    assert goOn <==> LineAt(s, clocks, 0) != AT_QUIT;
    forall k | 0 < k <= n ensures LineAt(s, clocks, k) == LineAt(t, Rest(clocks), k - 1) {
      assert Clock(clocks, k) == Clock(Rest(clocks), k - 1);
    }
    if goOn && n > 0 {
      EndsAtQuit(t, Rest(clocks), limit - 1, n - 1);
      if forall k :: 0 <= k < n - 1 ==> LineAt(t, Rest(clocks), k) != AT_QUIT {
        forall k | 0 <= k < n ensures LineAt(s, clocks, k) != AT_QUIT {
          assert k > 0 ==> LineAt(s, clocks, k) == LineAt(t, Rest(clocks), k - 1);
        }
      } else {
        var k :| 0 <= k < n - 1 && LineAt(t, Rest(clocks), k) == AT_QUIT;
        assert LineAt(s, clocks, k + 1) == AT_QUIT;
      }
    }
  }

  /** `w` stands somewhere in `s`. */
  ghost predicate Occurs(w: Bytes, s: Bytes) {
    exists i :: 0 <= i <= |s| && w <= s[i..]
  }

  lemma OccursBehind(w: Bytes, front: Bytes, s: Bytes)
    requires Occurs(w, s)
    ensures Occurs(w, front + s)
  {
    var i :| 0 <= i <= |s| && w <= s[i..];
    assert (front + s)[|front| + i..] == s[i..];
  }

  /** A turn leaves a rest of the stream behind, and what it reads stood in front. */
  lemma TurnTakes(s: Side, clock: seq<bool>) returns (taken: Bytes)
    ensures P.Stream(s.port) == taken + P.Stream(Turn(s, clock).1.port)
    ensures P.ReadLine(s.port, [], LF, clock).text <= P.Stream(s.port)
  {
    hide P.ReadLine, P.PurgeRx, Reply, WriteAll;
    var r := P.ReadLine(s.port, [], LF, clock);
    taken := LineTakes(s.port, clock);
    if r.text == AT_PURGE {
      P.PurgeConserves(r.port);
      var (dropped, t) := P.PurgeRx(r.port);
      Assoc(taken, dropped, P.Stream(t));
      taken := taken + dropped;
    }
  }

  lemma LineTakes(s: P.Port, clock: seq<bool>) returns (taken: Bytes)
    ensures var r := P.ReadLine(s, [], LF, clock);
            P.Stream(s) == taken + P.Stream(r.port) && r.text <= P.Stream(s)
  {
    hide P.ReadLine;
    P.ReadLineCorrect(s, LF, clock);
    var r := P.ReadLine(s, [], LF, clock);
    var i := IndexOf(P.Stream(s), LF);
    taken := if r.ending.Terminated? then P.Stream(s)[..i + 1] else r.text;
  }

  /** As long as the peer never sends the text AT+QUIT, no number of turns ends the loop: not a
      closed connection, not an error, not a deadline. */
  lemma {:induction false} OnlyQuitEnds(s: Side, clocks: seq<seq<bool>>, n: nat)
    requires !Occurs(AT_QUIT, P.Stream(s.port))
    ensures !Serve(s, clocks, n).ended
    decreases n
  {
    hide P.ReadLine, P.PurgeRx, Reply, WriteAll;
    if n > 0 {
      var (goOn, t) := Turn(s, First(clocks));
      var taken := TurnTakes(s, First(clocks));
      assert P.Stream(s.port)[0..] == P.Stream(s.port);
      if Occurs(AT_QUIT, P.Stream(t.port)) {
        OccursBehind(AT_QUIT, taken, P.Stream(t.port));
        assert false;
      }
      OnlyQuitEnds(t, Rest(clocks), n - 1);
    }
  }

  /** The peer is gone: every recv from here on answers 0 or an error. */
  predicate Gone(net: Os.Inbound) {
    forall i :: net.next <= i < |net.script| ==> net.script[i].limit <= 0
  }

  /** Once the peer is gone and nothing is cached the loop spins: any number of turns, under any
      deadlines, answers nothing and leaves the stream as it is. */
  lemma {:induction false} DeadPeerSpins(s: Side, clocks: seq<seq<bool>>, n: nat)
    requires s.port.cache == [] && Gone(s.port.net)
    ensures var r := Serve(s, clocks, n);
            && !r.ended && r.turns == n && r.side.out == s.out
            && r.side.port.cache == [] && P.Stream(r.side.port) == P.Stream(s.port)
    decreases n
  {
    if n > 0 {
      var t := DeadTurn(s, First(clocks));
      DeadPeerSpins(t, Rest(clocks), n - 1);
    }
  }

  lemma DeadTurn(s: Side, clock: seq<bool>) returns (t: Side)
    requires s.port.cache == [] && Gone(s.port.net)
    ensures Turn(s, clock) == (true, t)
    ensures t.out == s.out && t.port.cache == [] && Gone(t.port.net) && P.Stream(t.port) == P.Stream(s.port)
  {
    t := Turn(s, clock).1;
    assert P.Refill(s.port).1.cache == [];
  }

  // ---- the client ----

  lemma TextShortensStream(s: P.Port, clock: seq<bool>)
    requires P.ReadLine(s, [], LF, clock).text != []
    ensures |P.Stream(P.ReadLine(s, [], LF, clock).port)| < |P.Stream(s)|
  {
    hide P.ReadLine;
    P.ReadLineCorrect(s, LF, clock);
  }

  /** Lines read until one of them ends the exchange or is empty; the empty one is not kept. */
  function HearAll(s: P.Port, clocks: seq<seq<bool>>): (seq<Bytes>, P.Port)
    decreases |P.Stream(s)|
  {
    var r := P.ReadLine(s, [], LF, First(clocks));
    if r.text == [] then ([], r.port)
    else if Ends(r.text) then ([r.text], r.port)
    else
      TextShortensStream(s, First(clocks));
      var (more, t) := HearAll(r.port, Rest(clocks));
      ([r.text] + more, t)
  }

  /** No deadline passes. */
  predicate Patient(clocks: seq<seq<bool>>) {
    forall i :: 0 <= i < |clocks| ==> true !in clocks[i]
  }

  lemma {:induction false} FaultsGrow(s: P.Port, clocks: seq<seq<bool>>)
    ensures s.net.faults <= HearAll(s, clocks).1.net.faults
    decreases |P.Stream(s)|
  {
    hide P.ReadLine;
    P.ReadLineCorrect(s, LF, First(clocks));
    var r := P.ReadLine(s, [], LF, First(clocks));
    if r.text != [] && !Ends(r.text) {
      TextShortensStream(s, First(clocks));
      FaultsGrow(r.port, Rest(clocks));
    }
  }

  /** Without a failing recv and a passing deadline every line is complete. */
  lemma NoFaultEnds(s: P.Port, clocks: seq<seq<bool>>)
    requires Patient(clocks) && HearAll(s, clocks).1.net.faults == s.net.faults
    ensures var r := P.ReadLine(s, [], LF, First(clocks));
            && r.ending.Terminated? && r.port.net.faults == s.net.faults
            && Patient(Rest(clocks)) && true !in First(clocks)
  {
    hide P.ReadLine, Ends;
    P.ReadLineCorrect(s, LF, First(clocks));
    FaultsGrow(P.ReadLine(s, [], LF, First(clocks)).port, Rest(clocks));
  }

  lemma FirstLine(line: Bytes, behind: Bytes)
    requires LF !in line
    ensures var s := line + CRLF + behind;
            var i := IndexOf(s, LF);
            i < |s| && P.StripCR(s[..i]) == line && s[i + 1..] == behind
  {
    assert line + CRLF + behind == (line + [CR]) + [LF] + behind;
    IndexOfAfter(line + [CR], LF, behind);
    assert (line + CRLF + behind)[..|line| + 1] == line + [CR];
  }

  /** A completed read takes the first line of the stream. */
  lemma ReadsFirstLine(s: P.Port, line: Bytes, behind: Bytes, clock: seq<bool>)
    requires P.Stream(s) == line + CRLF + behind && LF !in line
    requires P.ReadLine(s, [], LF, clock).ending.Terminated?
    ensures var r := P.ReadLine(s, [], LF, clock);
            r.text == line && P.Stream(r.port) == behind
  {
    hide P.ReadLine, P.Stream;
    P.ReadLineCorrect(s, LF, clock);
    FirstLine(line, behind);
  }

  lemma {:induction false} HearsLines(s: P.Port, lines: seq<Bytes>, more: Bytes, clocks: seq<seq<bool>>)
    requires lines != [] && NoLF(lines)
    requires forall i :: 0 <= i < |lines| ==> lines[i] != [] && (Ends(lines[i]) <==> i == |lines| - 1)
    requires P.Stream(s) == Encode(lines, CRLF) + more
    requires Patient(clocks) && HearAll(s, clocks).1.net.faults == s.net.faults
    ensures HearAll(s, clocks).0 == lines && P.Stream(HearAll(s, clocks).1) == more
    decreases |lines|
  {
    hide P.ReadLine, P.Stream, Ends;
    NoFaultEnds(s, clocks);
    var r := P.ReadLine(s, [], LF, First(clocks));
    var behind := Encode(lines[1..], CRLF) + more;
    Assoc(lines[0] + CRLF, Encode(lines[1..], CRLF), more);
    ReadsFirstLine(s, lines[0], behind, First(clocks));
    if |lines| == 1 {
      assert lines[1..] == [] && lines == [lines[0]] && behind == more;
    } else {
      HearsLines(r.port, lines[1..], more, Rest(clocks));
      assert lines == [lines[0]] + lines[1..];
    }
  }

  /** The client reads a reply that is on its way exactly, and not a byte further. */
  lemma HearsReplyExactly(s: P.Port, cmd: Bytes, more: Bytes, clocks: seq<seq<bool>>)
    requires P.Stream(s) == Encode(Reply(cmd), CRLF) + more
    requires Patient(clocks) && HearAll(s, clocks).1.net.faults == s.net.faults
    ensures HearAll(s, clocks).0 == Reply(cmd) && P.Stream(HearAll(s, clocks).1) == more
  {
    hide HearAll, Encode;
    var lines := Reply(cmd);
    forall i | 0 <= i < |lines| ensures LF !in lines[i] && lines[i] != [] && (Ends(lines[i]) <==> i == |lines| - 1) {
      ReplyLines(cmd, i);
    }
    hide Reply, Ends;
    HearsLines(s, lines, more, clocks);
  }

  /** The port before the client's `n`-th read, were it never to stop, and the line read there. */
  function PortAfter(s: P.Port, clocks: seq<seq<bool>>, n: nat): P.Port
    decreases n
  {
    if n == 0 then s else PortAfter(P.ReadLine(s, [], LF, First(clocks)).port, Rest(clocks), n - 1)
  }

  function LineNo(s: P.Port, clocks: seq<seq<bool>>, n: nat): Bytes {
    P.ReadLine(PortAfter(s, clocks, n), [], LF, Clock(clocks, n)).text
  }

  predicate Stops(line: Bytes) {
    line == Ascii("OK") || line == Ascii("BYE") || Ascii("ERROR") <= line
  }

  /** One line after the other was heard, up to the first that is OK, BYE or begins with ERROR, and
      no further; or up to the first empty one, which is not kept. */
  ghost predicate HeardExactly(s: P.Port, clocks: seq<seq<bool>>, heard: seq<Bytes>, end: P.Port) {
    var n := |heard|;
    && (forall i :: 0 <= i < n ==>
          heard[i] == LineNo(s, clocks, i) && heard[i] != [] && (Stops(heard[i]) ==> i == n - 1))
    && if n > 0 && Stops(heard[n - 1]) then end == PortAfter(s, clocks, n)
       else LineNo(s, clocks, n) == [] && end == PortAfter(s, clocks, n + 1)
  }

  lemma HeardMore(s: P.Port, clocks: seq<seq<bool>>, more: seq<Bytes>, end: P.Port)
    requires var r := P.ReadLine(s, [], LF, First(clocks));
             r.text != [] && !Stops(r.text) && HeardExactly(r.port, Rest(clocks), more, end)
    ensures HeardExactly(s, clocks, [P.ReadLine(s, [], LF, First(clocks)).text] + more, end)
  {
    hide P.ReadLine, Stops, PortAfter, LineNo;
    var r := P.ReadLine(s, [], LF, First(clocks));
    var heard := [r.text] + more;
    FirstRead(s, clocks);
    LaterRead(s, clocks, |heard|);
    LaterRead(s, clocks, |heard| + 1);
    forall i | 0 <= i < |heard|
      ensures heard[i] == LineNo(s, clocks, i) && heard[i] != [] && (Stops(heard[i]) ==> i == |heard| - 1)
    {
      if i > 0 {
        LaterRead(s, clocks, i);
        assert heard[i] == more[i - 1];
      }
    }
    assert more != [] ==> heard[|heard| - 1] == more[|more| - 1];
  }

  lemma {:induction false} HearAllExact(s: P.Port, clocks: seq<seq<bool>>)
    ensures HeardExactly(s, clocks, HearAll(s, clocks).0, HearAll(s, clocks).1)
    decreases |P.Stream(s)|
  {
    hide P.ReadLine, P.Stream, Ends, Stops, HearAll;
    var r := P.ReadLine(s, [], LF, First(clocks));
    HearAllStep(s, clocks);
    EndsStops(r.text);
    if r.text != [] && !Ends(r.text) {
      hide HeardExactly;
      TextShortensStream(s, First(clocks));
      HearAllExact(r.port, Rest(clocks));
      HeardMore(s, clocks, HearAll(r.port, Rest(clocks)).0, HearAll(r.port, Rest(clocks)).1);
    } else {
      FirstRead(s, clocks);
      FirstRead(r.port, Rest(clocks));
      LaterRead(s, clocks, 1);
    }
  }

  lemma FirstRead(s: P.Port, clocks: seq<seq<bool>>)
    ensures PortAfter(s, clocks, 0) == s && LineNo(s, clocks, 0) == P.ReadLine(s, [], LF, First(clocks)).text
  {
    hide P.ReadLine;
  }

  lemma LaterRead(s: P.Port, clocks: seq<seq<bool>>, n: nat)
    ensures n > 0 ==>
              var t := P.ReadLine(s, [], LF, First(clocks)).port;
              && PortAfter(s, clocks, n) == PortAfter(t, Rest(clocks), n - 1)
              && LineNo(s, clocks, n) == LineNo(t, Rest(clocks), n - 1)
  {
    hide P.ReadLine;
    if n > 0 {
      assert Clock(clocks, n) == Clock(Rest(clocks), n - 1);
    }
  }

  lemma EndsStops(line: Bytes)
    ensures Ends(line) <==> Stops(line)
  {
    hide Ends, Ascii;
    EndsExact(line);
  }

  lemma HearAllStep(s: P.Port, clocks: seq<seq<bool>>)
    ensures var r := P.ReadLine(s, [], LF, First(clocks));
            HearAll(s, clocks) ==
            if r.text == [] then ([], r.port)
            else if Ends(r.text) then ([r.text], r.port)
            else ([r.text] + HearAll(r.port, Rest(clocks)).0, HearAll(r.port, Rest(clocks)).1)
  {
  }

  /** The client's inner loop, with a two-second deadline for each line. */
  method HearReply(serial: SerialPort, clocks: seq<seq<bool>>) returns (heard: seq<Bytes>)
    requires serial.Valid() && serial.sock != null
    modifies serial`rxBuf, serial`rxHead, serial.Conn()`inn, serial.Conn()`recvModes
    ensures serial.Valid()
    ensures (heard, serial.View()) == HearAll(old(serial.View()), clocks)
  {
    hide P.ReadLine, Ends, HearAll;
    heard := [];
    var left := clocks;
    ghost var goal := HearAll(serial.View(), clocks);
    assert [] + goal.0 == goal.0;
    while true
      invariant serial.Valid()
      invariant goal == (heard + HearAll(serial.View(), left).0, HearAll(serial.View(), left).1)
      decreases |P.Stream(serial.View())|
    {
      ghost var v := serial.View();
      HearAllStep(v, left);
      var resp := serial.ReadLine(LF, 2000, First(left));
      if resp == [] {
        assert heard + [] == heard;
        break;
      }
      TextShortensStream(v, First(left));
      Assoc(heard, [resp], HearAll(serial.View(), Rest(left)).0);
      heard := heard + [resp];
      if Ends(resp) {
        break;
      }
      left := Rest(left);
    }
  }

  /** One command of the client: sent, then its answer read. */
  method Ask(serial: SerialPort, cmd: Bytes, clocks: seq<seq<bool>>) returns (heard: seq<Bytes>)
    requires serial.Valid() && serial.sock != null
    modifies serial`rxBuf, serial`rxHead, serial.Conn()`inn, serial.Conn()`recvModes, serial.Conn()`out
    ensures serial.Valid()
    ensures serial.sock.conn.out == WriteAll(old(serial.sock.conn.out), [cmd])
    ensures (heard, serial.View()) == HearAll(old(serial.View()), clocks)
  {
    hide Transfer.SendAll, WriteAll, HearAll;
    WriteOneOrTwo(serial.sock.conn.out, cmd, []);
    var _ := serial.WriteLine(cmd, CRLF);
    heard := HearReply(serial, clocks);
  }
}
