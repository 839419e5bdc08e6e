/** The two halves of the benchmark as code over a socket. */
module EchoParties {
  import opened Prelude
  import Os
  import Transfer
  import opened Sockets
  import opened Echo

  /** The pattern the client fills its chunk buffer with. */
  function Fill(n: nat): (b: Bytes)
    ensures |b| == n
  {
    seq(n, i requires 0 <= i < n => (i * 73 + 19) % 256)
  }

  method NewChunk(n: nat) returns (tx: array<byte>)
    ensures fresh(tx) && tx[..] == Fill(n)
    ensures tx.Length == n && forall i :: 0 <= i < n ==> tx[i] == (i * 73 + 19) % 256
  {
    tx := new byte[n](i => 0);
    for i := 0 to n
      invariant forall j :: 0 <= j < i ==> tx[j] == (j * 73 + 19) % 256
    {
      tx[i] := (i * 73 + 19) % 256;
    }
  }

  // ---- the client ----

  datatype Failure = SendFailed | RecvFailed

  /** The client at the head of its loop; `samples` counts its round-trip samples, `taken` is all
      it has received. */
  datatype Client = Client(totalSent: nat, samples: nat, failure: Option<Failure>, taken: Bytes,
                           inn: Os.Inbound, out: Os.Outbound)

  function Start(inn: Os.Inbound, out: Os.Outbound): Client {
    Client(0, 0, None, [], inn, out)
  }

  /** The first half of a round: send the next chunk. */
  function SendChunk(tx: Bytes, total: nat, c: Client): Client
    requires c.totalSent < total
  {
    var data := tx[..Min(|tx|, total - c.totalSent)];
    var s := Transfer.SendAll(c.out, data, 0);
    if s.ok then c.(totalSent := c.totalSent + |data|, out := s.net)
    else c.(failure := Some(SendFailed), out := s.net)
  }

  /** The second half: wait until `n` bytes have come back. */
  function AwaitChunk(c: Client, n: nat): Client {
    var r := Transfer.RecvAll(c.inn, n, []);
    c.(samples := if r.ok then c.samples + 1 else c.samples,
       failure := if r.ok then None else Some(RecvFailed),
       taken := c.taken + r.data, inn := r.net)
  }

  function Round(tx: Bytes, total: nat, c: Client): Client
    requires c.totalSent < total
  {
    var d := SendChunk(tx, total, c);
    if d.failure.Some? then d else AwaitChunk(d, Min(|tx|, total - c.totalSent))
  }

  /** At most `limit` rounds. */
  function Rounds(tx: Bytes, total: nat, c: Client, limit: nat): Client
    decreases limit
  {
    if limit == 0 || c.failure.Some? || c.totalSent >= total then c
    else Rounds(tx, total, Round(tx, total, c), limit - 1)
  }

  /** The client's loop, watched for at most `limit` rounds. */
  method EchoClient(sock: Socket, chunk: nat, total: nat, limit: nat)
    returns (totalSent: nat, samples: nat, failure: Option<Failure>, ghost taken: Bytes)
    requires sock.Valid() && sock.handle != INVALID
    modifies sock.conn`inn, sock.conn`recvModes, sock.conn`out
    ensures Client(totalSent, samples, failure, taken, sock.conn.inn, sock.conn.out)
         == Rounds(Fill(chunk), total, Start(old(sock.conn.inn), old(sock.conn.out)), limit)
  {
    hide Fill, Transfer.SendAll, Transfer.RecvAll, Rounds;
    var tx := NewChunk(chunk);
    var rx := new byte[chunk](i => 0);
    totalSent, samples, failure, taken := 0, 0, None, [];
    ghost var goal := Rounds(tx[..], total, Start(sock.conn.inn, sock.conn.out), limit);
    while totalSent < total && samples < limit
      invariant tx[..] == Fill(chunk) && totalSent <= total && samples <= limit && failure == None
      invariant goal == Rounds(tx[..], total, Client(totalSent, samples, failure, taken, sock.conn.inn, sock.conn.out),
                               limit - samples)
      decreases limit - samples
    {
      RoundsStep(tx[..], total, Client(totalSent, samples, failure, taken, sock.conn.inn, sock.conn.out),
                 limit - samples);
      var current := Min(chunk, total - totalSent);
      var sent := sock.SendAll(tx[..current]);
      if !sent {
        failure := Some(SendFailed);
        break;
      }
      totalSent := totalSent + current;
      var received, got := sock.RecvAll(rx, 0, current);
      taken := taken + got;
      if !received {
        failure := Some(RecvFailed);
        break;
      }
      samples := samples + 1;
    }
    RoundsStep(tx[..], total, Client(totalSent, samples, failure, taken, sock.conn.inn, sock.conn.out),
                 limit - samples);
  }

  lemma RoundsStep(tx: Bytes, total: nat, c: Client, limit: nat)
    ensures Rounds(tx, total, c, limit) ==
            if limit == 0 || c.failure.Some? || c.totalSent >= total then c
            else if Round(tx, total, c).failure.Some? then Round(tx, total, c)
            else Rounds(tx, total, Round(tx, total, c), limit - 1)
  {
  }

  /** No transfer has failed: exactly the repeated pattern has gone out, as much has been taken off
      the stream, and there is one sample per chunk. */
  ghost predicate Kept(tx: Bytes, total: nat, start: Client, c: Client) {
    && c.failure.None? && c.inn.faults == start.inn.faults
    && |c.taken| == c.totalSent == Min(c.samples * |tx|, total)
    && (c.samples > 0 ==> (c.samples - 1) * |tx| < total)
    && (tx == [] ==> c.totalSent == 0)
    && c.out.sent == start.out.sent + Pattern(tx, c.totalSent)
    && start.inn.ahead == c.taken + c.inn.ahead
  }

  /** A transfer failed: in a send, a strict prefix of the next chunk went out; in a receive, less
      came back than was sent. */
  ghost predicate Broken(tx: Bytes, total: nat, start: Client, c: Client) {
    && tx != [] && c.totalSent <= total
    && start.inn.ahead == c.taken + c.inn.ahead
    && match c.failure
       case None => false
       case Some(SendFailed) =>
         && |c.taken| == c.totalSent && c.inn.faults == start.inn.faults
         && start.out.sent + Pattern(tx, c.totalSent) <= c.out.sent
         && c.out.sent < start.out.sent + Pattern(tx, Min(c.totalSent + |tx|, total))
       case Some(RecvFailed) =>
         && |c.taken| < c.totalSent && c.inn.faults == start.inn.faults + 1
         && c.out.sent == start.out.sent + Pattern(tx, c.totalSent)
  }

  /** The next chunk continues the pattern, and the total stays a multiple of the chunk size cut
      off at the target. */
  lemma NextChunk(tx: Bytes, total: nat, samples: nat, totalSent: nat)
    requires totalSent == Min(samples * |tx|, total) < total
    requires tx == [] ==> totalSent == 0
    ensures var n := Min(|tx|, total - totalSent);
            && (tx == [] ==> n == 0) && (tx != [] ==> n > 0)
            && Pattern(tx, totalSent + n) == Pattern(tx, totalSent) + tx[..n]
            && totalSent + n == Min((samples + 1) * |tx|, total)
            && samples * |tx| < total && totalSent + n == Min(totalSent + |tx|, total)
  {
    NextMultiple(samples, |tx|);
    if tx == [] {
      assert samples * |tx| == 0;
    } else {
      PatternGrows(tx, samples, Min(|tx|, total - totalSent));
    }
  }

  /** One round keeps the account or breaks off. */
  lemma RoundKeeps(tx: Bytes, total: nat, start: Client, c: Client)
    requires Kept(tx, total, start, c) && c.totalSent < total
    ensures var d := Round(tx, total, c);
            if d.failure.None? then Kept(tx, total, start, d) && d.samples == c.samples + 1
            else Broken(tx, total, start, d)
  {
    hide Pattern, Transfer.SendAll, Transfer.RecvAll;
    var data := tx[..Min(|tx|, total - c.totalSent)];
    NextChunk(tx, total, c.samples, c.totalSent);
    SendsFront(c.out, data);
    Assoc(start.out.sent, Pattern(tx, c.totalSent), data);
    var s := Transfer.SendAll(c.out, data, 0);
    if !s.ok {
      PrefixGrows(start.out.sent, Pattern(tx, c.totalSent), data, s.count);
    } else {
      Transfer.RecvAllFills(c.inn, |data|, []);
      var r := Transfer.RecvAll(c.inn, |data|, []);
      assert [] + c.inn.ahead == c.inn.ahead;
      Assoc(c.taken, r.data, r.net.ahead);
    }
  }

  lemma PrefixGrows(a: Bytes, b: Bytes, data: Bytes, k: nat)
    requires k < |data|
    ensures a + b <= a + b + data[..k] < a + (b + data)
  {
  }

  lemma {:induction false} RoundsKeep(tx: Bytes, total: nat, start: Client, c: Client, limit: nat)
    requires Kept(tx, total, start, c)
    ensures var r := Rounds(tx, total, c, limit);
            if r.failure.None? then
              && Kept(tx, total, start, r) && r.samples <= c.samples + limit
              && (r.totalSent == total || r.samples == c.samples + limit)
            else Broken(tx, total, start, r)
    decreases limit
  {
    hide Round, Broken;
    if limit > 0 && c.totalSent < total {
      RoundKeeps(tx, total, start, c);
      var d := Round(tx, total, c);
      if d.failure.None? {
        RoundsKeep(tx, total, start, d, limit - 1);
      }
    }
  }

  /** Whatever the transfers do: the account is kept until the first failure, and without one
      `limit` rounds bring the client to its target exactly when that many chunks reach it. */
  lemma EchoClientSends(tx: Bytes, total: nat, inn: Os.Inbound, out: Os.Outbound, limit: nat)
    ensures var r := Rounds(tx, total, Start(inn, out), limit);
            if r.failure.None? then
              Kept(tx, total, Start(inn, out), r) && (r.totalSent == total <==> total <= limit * |tx|)
            else Broken(tx, total, Start(inn, out), r)
  {
    var start := Start(inn, out);
    assert out.sent + [] == out.sent && [] + inn.ahead == inn.ahead;
    RoundsKeep(tx, total, start, start, limit);
    var r := Rounds(tx, total, start, limit);
    AtLeast(r.samples, limit, |tx|);
  }

  lemma AtLeast(a: nat, b: nat, n: nat)
    ensures a <= b ==> a * n <= b * n
  {
  }

  /** With chunk size 0 no number of rounds sends anything, receives anything or fails: the loop
      never ends unless there is nothing to send. */
  lemma {:induction false} EmptyChunkSpins(total: nat, c: Client, limit: nat)
    requires c.failure.None? && c.totalSent == 0 < total
    ensures Rounds([], total, c, limit) == c.(samples := c.samples + limit)
    decreases limit
  {
    if limit > 0 {
      var tx: Bytes := [];
      assert tx[..0] == [] && c.taken + [] == c.taken;
      assert Round(tx, total, c) == c.(samples := c.samples + 1);
      EmptyChunkSpins(total, c.(samples := c.samples + 1), limit - 1);
    }
  }

  lemma SendsFront(out: Os.Outbound, data: Bytes)
    ensures var r := Transfer.SendAll(out, data, 0);
            && r.count <= |data| && (r.ok <==> r.count == |data|)
            && r.net.sent == out.sent + data[..r.count]
            && (r.ok ==> r.net.sent == out.sent + data)
  {
    Transfer.SendAllTransmits(out, data, 0);
    assert data[..|data|] == data;
  }

  // ---- the server ----

  /** The server on one connection; `taken` is all it has received. */
  datatype Server = Server(taken: Bytes, failure: Option<Failure>, inn: Os.Inbound, out: Os.Outbound)

  /** One turn of its loop: send back whatever a recv hands over. */
  function Turn(v: Server): Server {
    var r := Os.Recv(v.inn, SERVER_BUFFER);
    if r.ret <= 0 then v.(failure := Some(RecvFailed), inn := r.net)
    else
      var s := Transfer.SendAll(v.out, r.data, 0);
      Server(v.taken + r.data, if s.ok then None else Some(SendFailed), r.net, s.net)
  }

  function Turns(v: Server): (t: Server)
    ensures t.failure.Some?
    decreases |v.inn.script| - v.inn.next
  {
    var t := Turn(v);
    if t.failure.Some? then t else Turns(t)
  }

  lemma TurnsStep(v: Server)
    ensures Turns(v) == if Turn(v).failure.Some? then Turn(v) else Turns(Turn(v))
  {
  }

  /** Serves one connection until a recv or a send fails. */
  method EchoConnection(sock: Socket) returns (total: nat, failure: Option<Failure>, ghost taken: Bytes)
    requires sock.Valid() && sock.handle != INVALID
    modifies sock.conn`inn, sock.conn`recvModes, sock.conn`out
    ensures total == |taken|
    ensures Server(taken, failure, sock.conn.inn, sock.conn.out)
         == Turns(Server([], None, old(sock.conn.inn), old(sock.conn.out)))
  {
    hide Os.Recv, Transfer.SendAll, Turns;
    var buffer := new byte[SERVER_BUFFER](i => 0);
    total, failure, taken := 0, None, [];
    ghost var goal := Turns(Server([], None, sock.conn.inn, sock.conn.out));
    while true
      invariant total == |taken|
      invariant goal == Turns(Server(taken, None, sock.conn.inn, sock.conn.out))
      decreases |sock.conn.inn.script| - sock.conn.inn.next
    {
      TurnsStep(Server(taken, None, sock.conn.inn, sock.conn.out));
      var r, d := sock.Recv(buffer, 0, SERVER_BUFFER);
      if r <= 0 {
        failure := Some(RecvFailed);
        break;
      }
      total, taken := total + r, taken + d;
      assert buffer[..r] == d;
      var ok := sock.SendAll(buffer[..r]);
      if !ok {
        failure := Some(SendFailed);
        break;
      }
    }
  }

  /** From `v` to `t` the server took `d` off its stream and sent all of it back, unless a send
      failed: then all but a non-empty end of it. */
  ghost predicate Echoed(v: Server, t: Server, d: Bytes) {
    && t.taken == v.taken + d && v.inn.ahead == d + t.inn.ahead
    && t.inn.faults == v.inn.faults + (if t.failure == Some(RecvFailed) then 1 else 0)
    && if t.failure == Some(SendFailed) then v.out.sent <= t.out.sent < v.out.sent + d
       else t.out.sent == v.out.sent + d
  }

  /** A turn is one recv for 32768 bytes. */
  lemma TurnAmount(v: Server)
    requires v.inn.next < |v.inn.script|
    ensures var t := Turn(v);
            var e := v.inn.script[v.inn.next];
            && t.inn.next == v.inn.next + 1
            && |t.taken| == |v.taken| + Max(0, Min(e.limit, Min(32768, Min(v.inn.avail + e.more, |v.inn.ahead|))))
  {
    hide Transfer.SendAll;
  }

  lemma TurnEchoes(v: Server) returns (d: Bytes)
    ensures Echoed(v, Turn(v), d) && (Turn(v).failure.None? ==> d != [])
  {
    hide Os.Recv, Transfer.SendAll;
    var r := Os.Recv(v.inn, SERVER_BUFFER);
    d := r.data;
    SendsFront(v.out, d);
    assert v.taken + [] == v.taken && v.out.sent + [] == v.out.sent;
  }

  /** Whatever the transfers do: what is received goes back in order, all of it when the peer hung
      up, a strict prefix of it when a send failed. */
  lemma {:induction false} ConnectionEchoes(v: Server) returns (d: Bytes)
    ensures Echoed(v, Turns(v), d)
    decreases |v.inn.script| - v.inn.next
  {
    d := TurnEchoes(v);
    var t := Turn(v);
    if t.failure.None? {
      var more := ConnectionEchoes(t);
      EchoedTwice(v, t, Turns(t), d, more);
      d := d + more;
    }
  }

  lemma EchoedTwice(u: Server, v: Server, t: Server, d: Bytes, e: Bytes)
    requires Echoed(u, v, d) && v.failure.None? && Echoed(v, t, e)
    ensures Echoed(u, t, d + e)
  {
    Assoc(u.taken, d, e);
    Assoc(d, e, t.inn.ahead);
    Assoc(u.out.sent, d, e);
    assert u.out.sent <= u.out.sent + d;
  }
}
