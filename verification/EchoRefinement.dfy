/** The benchmark's code against its protocol: as long as no transfer fails, the halves of the
    client's rounds and the turns of the server are runs of the transition system, and so is the
    whole benchmark put together from them. */
module EchoRefinement {
  import opened Prelude
  import Os
  import Transfer
  import opened Echo
  import opened EchoParties

  // ---- putting runs together ----

  lemma OneStep(tx: Bytes, total: nat, s: State, a: Action)
    requires Enabled(s, a)
    ensures IsRun(tx, total, s, [a]) && After(tx, total, s, [a]) == Do(tx, total, s, a)
  {
    hide Do, Enabled;
    var rest := [a][1..];
    assert rest == [] && IsRun(tx, total, Do(tx, total, s, a), rest);
  }

  lemma Stay(tx: Bytes, total: nat, s: State)
    ensures IsRun(tx, total, s, []) && After(tx, total, s, []) == s
  {
  }

  lemma {:induction false} RunAppend(tx: Bytes, total: nat, s: State, a: seq<Action>, b: seq<Action>)
    requires IsRun(tx, total, s, a) && IsRun(tx, total, After(tx, total, s, a), b)
    ensures IsRun(tx, total, s, a + b)
    ensures After(tx, total, s, a + b) == After(tx, total, After(tx, total, s, a), b)
    decreases |a|
  {
    hide Do, Enabled;
    if a == [] {
      assert a + b == b;
    } else {
      assert (a + b)[1..] == a[1..] + b;
      RunAppend(tx, total, Do(tx, total, s, a[0]), a[1..], b);
    }
  }

  lemma StepThen(tx: Bytes, total: nat, s: State, a: Action, rest: seq<Action>)
    requires Enabled(s, a) && IsRun(tx, total, Do(tx, total, s, a), rest)
    ensures IsRun(tx, total, s, [a] + rest)
    ensures After(tx, total, s, [a] + rest) == After(tx, total, Do(tx, total, s, a), rest)
  {
    OneStep(tx, total, s, a);
    RunAppend(tx, total, s, [a], rest);
  }

  // ---- the pieces ----

  /** A `send_all` of the client that succeeds. */
  lemma {:induction false} ClientSends(tx: Bytes, total: nat, s: State, net: Os.Outbound, data: Bytes, count: nat)
    returns (run: seq<Action>)
    requires count <= |data| && s.pc.Sending? && s.unsent == data[count..]
    requires Transfer.SendAll(net, data, count).ok
    ensures IsRun(tx, total, s, run)
    ensures After(tx, total, s, run) ==
            s.(pc := Receiving, unsent := [], totalSent := s.totalSent + s.current,
               c2s := s.c2s + data[count..], sent := s.sent + data[count..])
    decreases |data| - count
  {
    hide IsRun, After, NextRound;
    if count == |data| {
      OneStep(tx, total, s, ClientSent);
      run := [ClientSent];
      assert s.c2s + [] == s.c2s && s.sent + [] == s.sent;
    } else {
      var (k, net1) := Os.Send(net, data[count..]);
      var a := ClientSend(k);
      var piece, tail := data[count..][..k], data[count + k..];
      assert data[count..] == piece + tail && data[count..][k..] == tail;
      Assoc(s.c2s, piece, tail);
      Assoc(s.sent, piece, tail);
      var more := ClientSends(tx, total, Do(tx, total, s, a), net1, data, count + k);
      StepThen(tx, total, s, a, more);
      run := [a] + more;
    }
  }

  /** A `recv_all` of the client that succeeds. */
  lemma {:induction false} ClientReceives(tx: Bytes, total: nat, s: State, net: Os.Inbound)
    returns (run: seq<Action>)
    requires s.pc.Receiving? && |s.got| <= s.current && s.s2c == net.ahead
    requires Transfer.RecvAll(net, s.current, s.got).ok
    ensures IsRun(tx, total, s, run)
    ensures var r := Transfer.RecvAll(net, s.current, s.got);
            && s.got <= r.data
            && After(tx, total, s, run) ==
               NextRound(tx, total, s.(s2c := r.net.ahead, received := s.received + r.data[|s.got|..],
                                       rounds := s.rounds + 1))
    decreases s.current - |s.got|
  {
    hide IsRun, After, Os.Recv, Transfer.RecvAll;
    Transfer.RecvAllStep(net, s.current, s.got);
    if |s.got| == s.current {
      OneStep(tx, total, s, ClientReceived);
      run := [ClientReceived];
      assert s.received + [] == s.received && s.(s2c := net.ahead) == s;
    } else {
      var r := Os.Recv(net, s.current - |s.got|);
      FrontBack(net.ahead, r.data, r.net.ahead);
      var a := ClientRecv(r.ret);
      var t := Do(tx, total, s, a);
      var more := ClientReceives(tx, total, t, r.net);
      StepThen(tx, total, s, a, more);
      run := [a] + more;
      var all := Transfer.RecvAll(net, s.current, s.got).data;
      assert all == t.got + all[|t.got|..] == s.got + r.data + all[|t.got|..];
      Assoc(s.got, r.data, all[|t.got|..]);
      FrontBack(all, s.got, r.data + all[|t.got|..]);
      Assoc(s.received, r.data, all[|t.got|..]);
    }
  }

  lemma {:induction false} ServerSends(tx: Bytes, total: nat, s: State, net: Os.Outbound, data: Bytes, count: nat)
    returns (run: seq<Action>)
    requires count <= |data| && s.buffer == data[count..] && Transfer.SendAll(net, data, count).ok
    ensures IsRun(tx, total, s, run)
    ensures After(tx, total, s, run) == s.(buffer := [], s2c := s.s2c + data[count..])
    decreases |data| - count
  {
    hide IsRun, After, NextRound;
    if count == |data| {
      run := [];
      Stay(tx, total, s);
      assert s.s2c + [] == s.s2c;
    } else {
      var (k, net1) := Os.Send(net, data[count..]);
      var a := ServerSend(k);
      var piece, tail := data[count..][..k], data[count + k..];
      assert data[count..] == piece + tail && data[count..][k..] == tail;
      Assoc(s.s2c, piece, tail);
      var more := ServerSends(tx, total, Do(tx, total, s, a), net1, data, count + k);
      StepThen(tx, total, s, a, more);
      run := [a] + more;
    }
  }

  /** A turn of the server that goes on. */
  lemma ServerTurnIsRun(tx: Bytes, total: nat, s: State, v: Server) returns (run: seq<Action>)
    requires s.buffer == [] && s.c2s == v.inn.ahead && Turn(v).failure.None?
    ensures IsRun(tx, total, s, run)
    ensures var t := Turn(v);
            && v.taken <= t.taken
            && After(tx, total, s, run) == s.(c2s := t.inn.ahead, s2c := s.s2c + t.taken[|v.taken|..])
  {
    hide IsRun, After, Os.Recv, Transfer.SendAll;
    var r := Os.Recv(v.inn, SERVER_BUFFER);
    FrontBack(v.inn.ahead, r.data, r.net.ahead);
    FrontBack(Turn(v).taken, v.taken, r.data);
    var a := ServerRecv(r.ret);
    var t := Do(tx, total, s, a);
    assert r.data[0..] == r.data;
    var more := ServerSends(tx, total, t, v.out, r.data, 0);
    StepThen(tx, total, s, a, more);
    run := [a] + more;
  }

  // ---- the benchmark put together ----

  /** The server's turns until everything sent to it so far is on its way back. */
  function Drained(v: Server): Server
    decreases |v.inn.ahead|
  {
    if v.inn.ahead == [] || v.failure.Some? then v
    else
      var t := Turn(v);
      if t.failure.Some? then t else Drained(t)
  }

  lemma {:induction false} DrainedIsRun(tx: Bytes, total: nat, s: State, v: Server) returns (run: seq<Action>)
    requires s.buffer == [] && s.c2s == v.inn.ahead && Drained(v).failure.None?
    ensures IsRun(tx, total, s, run)
    ensures After(tx, total, s, run) == s.(c2s := [], s2c := s.s2c + v.inn.ahead)
    ensures Drained(v).inn.ahead == [] && Drained(v).out.sent == v.out.sent + v.inn.ahead
    decreases |v.inn.ahead|
  {
    hide IsRun, After, Turn;
    if v.inn.ahead == [] {
      run := [];
      Stay(tx, total, s);
      assert s.s2c + [] == s.s2c && v.out.sent + [] == v.out.sent;
    } else {
      var t := Turn(v);
      run := ServerTurnIsRun(tx, total, s, v);
      var d := TurnEchoes(v);
      FrontBack(t.taken, v.taken, d);
      var s1 := After(tx, total, s, run);
      var more := DrainedIsRun(tx, total, s1, t);
      RunAppend(tx, total, s, run, more);
      Assoc(s.s2c, d, t.inn.ahead);
      Assoc(v.out.sent, d, t.inn.ahead);
      run := run + more;
    }
  }

  datatype Pair = Pair(client: Client, server: Server)

  /** One round of the client with the server's turns in between, on the bytes each really sent. */
  function Exchange(tx: Bytes, total: nat, p: Pair): Pair
    requires p.client.totalSent < total
  {
    var c := SendChunk(tx, total, p.client);
    ChunkGrows(tx, total, p.client);
    if c.failure.Some? then Pair(c, p.server)
    else
      var v := Drained(p.server.(inn := Transfer.Delivered(p.server.inn, p.client.out, c.out)));
      if v.failure.Some? then Pair(c, v)
      else
        DrainedGrows(p.server.(inn := Transfer.Delivered(p.server.inn, p.client.out, c.out)));
        var n := Min(|tx|, total - p.client.totalSent);
        Pair(AwaitChunk(c.(inn := Transfer.Delivered(c.inn, p.server.out, v.out)), n), v)
  }

  lemma ChunkGrows(tx: Bytes, total: nat, c: Client)
    requires c.totalSent < total
    ensures var n := Min(|tx|, total - c.totalSent);
            var d := SendChunk(tx, total, c);
            c.out.sent <= d.out.sent && (d.failure.None? ==> d.out.sent == c.out.sent + tx[..n])
  {
    hide Transfer.SendAll;
    SendsFront(c.out, tx[..Min(|tx|, total - c.totalSent)]);
  }

  lemma {:induction false} DrainedGrows(v: Server)
    ensures v.out.sent <= Drained(v).out.sent
    decreases |v.inn.ahead|
  {
    hide Turn;
    if !(v.inn.ahead == [] || v.failure.Some?) {
      var d := TurnEchoes(v);
      if Turn(v).failure.None? {
        DrainedGrows(Turn(v));
      }
    }
  }

  function Exchanges(tx: Bytes, total: nat, p: Pair, limit: nat): Pair
    decreases limit
  {
    if limit == 0 || Stopped(p) || p.client.totalSent >= total then p
    else Exchanges(tx, total, Exchange(tx, total, p), limit - 1)
  }

  predicate Stopped(p: Pair) {
    p.client.failure.Some? || p.server.failure.Some?
  }

  /** Between two rounds: nothing is on its way, and the client has got back all it has sent. */
  ghost predicate AtHead(p: Pair) {
    && !Stopped(p)
    && p.client.inn.ahead == [] && p.server.inn.ahead == []
    && |p.client.taken| == p.client.totalSent
  }

  /** The protocol's state at that point. */
  function Head(tx: Bytes, total: nat, c: Client): State {
    NextRound(tx, total, State(Done, 0, [], [], c.totalSent, c.samples, [], [], [], c.taken, c.taken))
  }

  /** A round in which nothing fails is a run of the protocol from loop head to loop head, and the
      chunk has come back unchanged. */
  lemma ExchangeIsRun(tx: Bytes, total: nat, p: Pair) returns (run: seq<Action>)
    requires AtHead(p) && p.client.totalSent < total && !Stopped(Exchange(tx, total, p))
    ensures IsRun(tx, total, Head(tx, total, p.client), run)
    ensures var q := Exchange(tx, total, p);
            && AtHead(q)
            && After(tx, total, Head(tx, total, p.client), run) == Head(tx, total, q.client)
            && q.client.samples == p.client.samples + 1
            && q.client.taken == p.client.taken + tx[..Min(|tx|, total - p.client.totalSent)]
  {
    hide IsRun, After, Transfer.SendAll, Transfer.RecvAll, Turn, Drained, Transfer.Delivered;
    var c := p.client;
    var n := Min(|tx|, total - c.totalSent);
    var data := tx[..n];
    var s := Head(tx, total, c);
    assert data[0..] == data && [] + data == data;
    ChunkGrows(tx, total, c);
    var c1 := SendChunk(tx, total, c);
    Transfer.DeliveredIs(p.server.inn, c.out, c1.out, data);
    var v := p.server.(inn := Transfer.Delivered(p.server.inn, c.out, c1.out));
    assert v.inn.ahead == data;
    run := ClientSends(tx, total, s, c.out, data, 0);
    var s1 := After(tx, total, s, run);
    var drain := DrainedIsRun(tx, total, s1, v);
    RunAppend(tx, total, s, run, drain);
    run := run + drain;
    var s2 := After(tx, total, s, run);
    var w := Drained(v);
    DrainedGrows(v);
    Transfer.DeliveredIs(c1.inn, p.server.out, w.out, data);
    var inn := Transfer.Delivered(c1.inn, p.server.out, w.out);
    assert inn.ahead == data;
    Transfer.RecvAllFills(inn, n, []);
    var r := Transfer.RecvAll(inn, n, []);
    assert [] + inn.ahead == inn.ahead && |r.data| == n;
    assert r.net.ahead == [] && r.data == data by {
      assert r.data + r.net.ahead == data;
      assert data[n..] == [] && r.net.ahead == data[n..];
      assert r.data + [] == r.data;
    }
    var back := ClientReceives(tx, total, s2, inn);
    RunAppend(tx, total, s, run, back);
    run := run + back;
    assert r.data[0..] == r.data;
  }

  lemma {:induction false} ExchangesAreRun(tx: Bytes, total: nat, p: Pair, limit: nat) returns (run: seq<Action>)
    requires AtHead(p) && !Stopped(Exchanges(tx, total, p, limit))
    ensures IsRun(tx, total, Head(tx, total, p.client), run)
    ensures var q := Exchanges(tx, total, p, limit);
            && AtHead(q) && After(tx, total, Head(tx, total, p.client), run) == Head(tx, total, q.client)
            && (q.client.totalSent >= total || q.client.samples == p.client.samples + limit)
    decreases limit
  {
    hide IsRun, After, Exchange, Head, AtHead;
    if limit == 0 || p.client.totalSent >= total {
      run := [];
      Stay(tx, total, Head(tx, total, p.client));
      assert !Stopped(p) by {
        Running(p);
      }
    } else {
      Running(p);
      var q := Exchange(tx, total, p);
      StoppedStays(tx, total, q, limit - 1);
      run := ExchangeIsRun(tx, total, p);
      var more := ExchangesAreRun(tx, total, q, limit - 1);
      RunAppend(tx, total, Head(tx, total, p.client), run, more);
      run := run + more;
    }
  }

  lemma StoppedStays(tx: Bytes, total: nat, p: Pair, limit: nat)
    ensures Stopped(p) ==> Exchanges(tx, total, p, limit) == p
  {
  }

  lemma Running(p: Pair)
    requires AtHead(p)
    ensures !Stopped(p)
  {
  }

  /** The whole benchmark.  On two fresh connections, both loops put together are a run of the
      protocol from its first state; when no transfer fails and the rounds suffice they end in its
      final state: the whole pattern sent and received, nothing on its way. */
  lemma BenchmarkIsRun(tx: Bytes, total: nat, p: Pair, limit: nat) returns (run: seq<Action>)
    requires tx != [] && total <= limit * |tx|
    requires p.client == Start(p.client.inn, p.client.out) && p.server.failure.None?
    requires p.client.inn.ahead == [] && p.server.inn.ahead == []
    requires !Stopped(Exchanges(tx, total, p, limit))
    ensures IsRun(tx, total, Init(tx, total), run)
    ensures Final(tx, total, After(tx, total, Init(tx, total), run))
    ensures Exchanges(tx, total, p, limit).client.taken == Pattern(tx, total)
  {
    run := ExchangesAreRun(tx, total, p, limit);
    var q := Exchanges(tx, total, p, limit);
    assert Head(tx, total, p.client) == Init(tx, total);
    InitHolds(tx, total);
    RunKeeps(tx, total, Init(tx, total), run);
    hide Exchanges, IsRun, After, AtHead;
    AtTarget(tx, total, q.client, limit);
  }

  lemma AtTarget(tx: Bytes, total: nat, c: Client, limit: nat)
    requires tx != [] && total <= limit * |tx| && Inv(tx, total, Head(tx, total, c))
    requires c.totalSent >= total || c.samples == limit
    ensures Final(tx, total, Head(tx, total, c)) && c.taken == Pattern(tx, total)
  {
    hide Pattern;
  }
}
