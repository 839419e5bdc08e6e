/** The operating system's side of one connected RFCOMM stream.

    The adversary is fixed in advance: the bytes the peer ever sends, and a finite schedule that
    says how many of them have arrived by each `recv`, how much that `recv` hands over or whether
    it fails, how much each `send` accepts, and whether each blocking-mode change works.  A claim
    about every schedule is a claim about every fragmentation, every failure and every timing. */
module Os {
  import opened Prelude

  /** One answer to `recv`: how many more bytes arrive first, then the most that is handed over.
      A limit of 0 is a closed peer, a negative one an error or a timeout. */
  datatype Delivery = Delivery(more: nat, limit: int)

  /** The receiving direction. */
  datatype Inbound = Inbound(
    ahead: seq<byte>,        // bytes the peer ever sends that recv has not handed over
    avail: nat,              // how many of those have arrived
    script: seq<Delivery>,   // answers to all recv calls, in order
    next: nat,               // how many of them have been used up
    faults: nat)             // recv calls that have failed

  /** The sending direction. */
  datatype Outbound = Outbound(
    sent: seq<byte>,         // bytes accepted from send, in order
    sends: seq<int>)         // answers to the send calls still to come

  /** The handle's blocking mode, and the answers to the mode changes still to come. */
  datatype Mode = Mode(blocking: bool, changes: seq<bool>)

  /** Arrived and not yet handed over: what FIONREAD counts. */
  function Pending(net: Inbound): seq<byte> {
    net.ahead[..Min(net.avail, |net.ahead|)]
  }

  /** Sent by the peer at some time, not arrived yet. */
  function Coming(net: Inbound): seq<byte> {
    net.ahead[Min(net.avail, |net.ahead|)..]
  }

  datatype Received = Received(ret: int, data: seq<byte>, net: Inbound)

  /** `::recv` on a non-empty buffer of `size` bytes.  A spent schedule keeps failing. */
  function Recv(net: Inbound, size: nat): (r: Received)
    requires size > 0
    ensures net.ahead == r.data + r.net.ahead && |Coming(r.net)| <= |Coming(net)|
    ensures r.net.script == net.script && net.next <= r.net.next
    ensures r.ret > 0 ==> |r.data| == r.ret <= size && net.next < r.net.next <= |net.script|
    ensures r.ret <= 0 ==> r.data == [] && r.net.ahead == net.ahead
    ensures r.net.faults == net.faults + (if r.ret > 0 then 0 else 1)
  {
    if net.next >= |net.script| then
      Received(-1, [], net.(faults := net.faults + 1))
    else
      var e := net.script[net.next];
      var avail := Min(net.avail + e.more, |net.ahead|);
      var k := Min(e.limit, Min(size, avail));
      if k > 0 then
        Received(k, net.ahead[..k], Inbound(net.ahead[k..], avail - k, net.script, net.next + 1, net.faults))
      else
        Received(if e.limit == 0 then 0 else -1, [],
                 Inbound(net.ahead, avail, net.script, net.next + 1, net.faults + 1))
  }

  /** `::send` of non-empty data: how many bytes were accepted, or -1 / 0. */
  function Send(net: Outbound, data: seq<byte>): (r: (int, Outbound))
    requires data != []
    ensures r.0 > 0 ==> r.0 <= |data| && r.1.sent == net.sent + data[..r.0]
    ensures r.0 <= 0 ==> r.1.sent == net.sent
  {
    if net.sends == [] then (-1, net)
    else
      var k := Min(net.sends[0], |data|);
      if k > 0 then (k, Outbound(net.sent + data[..k], net.sends[1..]))
      else (if k == 0 then 0 else -1, Outbound(net.sent, net.sends[1..]))
  }

  /** The pair of `fcntl` calls that switches blocking mode. */
  function SetBlocking(m: Mode, on: bool): (bool, Mode) {
    if m.changes == [] then (false, m)
    else if m.changes[0] then (true, Mode(on, m.changes[1..]))
    else (false, Mode(m.blocking, m.changes[1..]))
  }

  /** The schedule rules nothing out: whatever a recv may answer, some schedule answers it. */
  lemma EveryRecv(ahead: seq<byte>, size: nat, answer: int)
    requires size > 0 && -1 <= answer <= Min(size, |ahead|)
    ensures exists script :: Recv(Inbound(ahead, 0, script, 0, 0), size).ret == answer
  {
    var script := [Delivery(|ahead|, answer)];
    assert Recv(Inbound(ahead, 0, script, 0, 0), size).ret == answer;
  }

  lemma EverySend(data: seq<byte>, answer: int)
    requires data != [] && -1 <= answer <= |data|
    ensures exists sends :: Send(Outbound([], sends), data).0 == answer
  {
    var sends := [answer];
    assert Send(Outbound([], sends), data).0 == answer;
  }
}
