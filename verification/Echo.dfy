/** The benchmark pair in echo mode: the client sends a chunk and waits for all of it to come
    back, the server sends back whatever each recv hands it.

    Every send and recv may move any positive number of bytes and the parties may interleave in
    any way; what is ruled out is a failing send or recv. */
module Echo {
  import opened Prelude

  type Bytes = seq<byte>

  const SERVER_BUFFER: nat := 32 * 1024

  datatype ClientPc = Sending | Receiving | Done

  datatype State = State(
    pc: ClientPc,
    current: nat,        // size of the chunk under way
    unsent: Bytes,       // rest of it
    got: Bytes,          // what has come back of it
    totalSent: nat,      // as the client counts it: whole chunks
    rounds: nat,         // round-trip samples taken
    c2s: Bytes,
    buffer: Bytes,       // received by the server, not yet sent back
    s2c: Bytes,
    sent: Bytes,         // every byte the client's sends have put out
    received: Bytes)     // every byte the client's recvs have handed over

  datatype Action =
    | ClientSend(k: nat) | ClientSent | ClientRecv(k: nat) | ClientReceived
    | ServerRecv(k: nat) | ServerSend(k: nat)

  /** The loop head: start the next chunk, or stop. */
  function NextRound(tx: Bytes, total: nat, s: State): State {
    if s.totalSent < total then
      var current := Min(|tx|, total - s.totalSent);
      s.(pc := Sending, current := current, unsent := tx[..current], got := [])
    else s.(pc := Done, current := 0, unsent := [], got := [])
  }

  function Init(tx: Bytes, total: nat): State {
    NextRound(tx, total, State(Sending, 0, [], [], 0, 0, [], [], [], [], []))
  }

  predicate Enabled(s: State, a: Action) {
    match a
    case ClientSend(k) => s.pc.Sending? && 1 <= k <= |s.unsent|
    case ClientSent => s.pc.Sending? && s.unsent == []
    case ClientRecv(k) => s.pc.Receiving? && |s.got| < s.current && 1 <= k <= Min(s.current - |s.got|, |s.s2c|)
    case ClientReceived => s.pc.Receiving? && |s.got| >= s.current
    case ServerRecv(k) => s.buffer == [] && 1 <= k <= Min(SERVER_BUFFER, |s.c2s|)
    case ServerSend(k) => 1 <= k <= |s.buffer|
  }

  function Do(tx: Bytes, total: nat, s: State, a: Action): State
    requires Enabled(s, a)
  {
    match a
    case ClientSend(k) =>
      s.(unsent := s.unsent[k..], c2s := s.c2s + s.unsent[..k], sent := s.sent + s.unsent[..k])
    case ClientSent => s.(pc := Receiving, totalSent := s.totalSent + s.current)
    case ClientRecv(k) =>
      s.(s2c := s.s2c[k..], got := s.got + s.s2c[..k], received := s.received + s.s2c[..k])
    case ClientReceived => NextRound(tx, total, s.(rounds := s.rounds + 1))
    case ServerRecv(k) => s.(c2s := s.c2s[k..], buffer := s.c2s[..k])
    case ServerSend(k) => s.(buffer := s.buffer[k..], s2c := s.s2c + s.buffer[..k])
  }

  // ---- the invariant ----

  /** The first `n` bytes of the chunk buffer repeated over and over. */
  function Pattern(tx: Bytes, n: nat): Bytes
    requires tx != [] || n == 0
  {
    if n <= |tx| then tx[..n] else tx + Pattern(tx, n - |tx|)
  }

  /** In every interleaving: what was sent is what came back, then what is on its way. */
  predicate Ledger(s: State) {
    s.sent == s.received + (s.s2c + (s.buffer + s.c2s))
  }

  predicate Phase(tx: Bytes, total: nat, s: State)
    requires tx != []
  {
    match s.pc
    case Sending =>
      && s.totalSent == s.rounds * |tx| && s.totalSent < total
      && s.current == Min(|tx|, total - s.totalSent) && s.got == []
      && s.sent + s.unsent == Pattern(tx, s.totalSent) + tx[..s.current]
      && s.received == Pattern(tx, s.totalSent)
    case Receiving =>
      && s.totalSent == s.rounds * |tx| + s.current && 0 < s.current && s.totalSent <= total
      && s.current == Min(|tx|, total - s.rounds * |tx|)
      && s.unsent == [] && s.sent == Pattern(tx, s.totalSent - s.current) + tx[..s.current]
      && s.received == Pattern(tx, s.totalSent - s.current) + s.got
    case Done =>
      && s.totalSent == total && s.sent == s.received == Pattern(tx, total)
      && s.unsent == []
      && total <= s.rounds * |tx| < total + |tx|
  }

  predicate Inv(tx: Bytes, total: nat, s: State)
    requires tx != []
  {
    Ledger(s) && Phase(tx, total, s)
  }

  // ---- lemmas ----

  lemma Move(x: Bytes, y: Bytes, k: nat, z: Bytes)
    requires k <= |y|
    ensures (x + y[..k]) + (y[k..] + z) == x + (y + z)
    ensures (x + y[..k]) + y[k..] == x + y
  {
  }

  /** A chunk that starts on a multiple of the buffer size continues the pattern. */
  lemma {:induction false} PatternGrows(tx: Bytes, r: nat, n: nat)
    requires tx != [] && n <= |tx|
    ensures Pattern(tx, r * |tx| + n) == Pattern(tx, r * |tx|) + tx[..n]
    ensures |Pattern(tx, r * |tx|)| == r * |tx|
  {
    if r > 0 {
      var base := (r - 1) * |tx|;
      assert r * |tx| == base + |tx|;
      PatternGrows(tx, r - 1, n);
      if base == 0 {
        assert tx[..|tx|] == tx;
      } else {
        Assoc(tx, Pattern(tx, base), tx[..n]);
      }
    }
  }

  // ---- every step keeps the invariant ----

  /** Conservation alone, step by step. */
  lemma LedgerKept(tx: Bytes, total: nat, s: State, a: Action)
    requires Ledger(s) && Enabled(s, a)
    ensures Ledger(Do(tx, total, s, a))
  {
    match a
    case ClientSend(k) =>
      var d := s.unsent[..k];
      Assoc(s.received, s.s2c + (s.buffer + s.c2s), d);
      Assoc(s.s2c, s.buffer + s.c2s, d);
      Assoc(s.buffer, s.c2s, d);
    case ClientRecv(k) =>
      Move(s.received, s.s2c, k, s.buffer + s.c2s);
    case ServerRecv(k) =>
      assert [] + s.c2s == s.c2s[..k] + s.c2s[k..];
    case ServerSend(k) =>
      Move(s.s2c, s.buffer, k, s.c2s);
    case _ =>
  }

  /** When `recv_all` is satisfied it has been given exactly the chunk just sent, and nothing is
      left on its way. */
  lemma EchoComplete(tx: Bytes, total: nat, s: State)
    requires tx != [] && Inv(tx, total, s) && Enabled(s, ClientReceived)
    ensures s.got == tx[..s.current] && s.sent == s.received
    ensures s.s2c == [] && s.buffer == [] && s.c2s == []
  {
    hide Pattern;
    var b := Pattern(tx, s.totalSent - s.current);
    var way := s.s2c + (s.buffer + s.c2s);
    Assoc(b, s.got, way);
    FrontBack(s.sent, b, tx[..s.current]);
    FrontBack(s.sent, b, s.got + way);
    assert tx[..s.current] == s.got + way;
    assert |tx[..s.current]| == |s.got| + |way|;
  }

  lemma RoundDone(tx: Bytes, total: nat, s: State)
    requires tx != [] && Inv(tx, total, s) && Enabled(s, ClientReceived)
    ensures Phase(tx, total, Do(tx, total, s, ClientReceived))
  {
    hide Pattern;
    EchoComplete(tx, total, s);
    PatternGrows(tx, s.rounds, s.current);
    assert s.received == Pattern(tx, s.totalSent);
    NextMultiple(s.rounds, |tx|);
  }

  lemma NextMultiple(r: nat, c: nat)
    ensures (r + 1) * c == r * c + c
  {
  }

  lemma StepKeeps(tx: Bytes, total: nat, s: State, a: Action)
    requires tx != [] && Inv(tx, total, s) && Enabled(s, a)
    ensures Inv(tx, total, Do(tx, total, s, a))
  {
    LedgerKept(tx, total, s, a);
    match a
    case ClientSend(k) =>
      Move(s.sent, s.unsent, k, []);
    case ClientSent =>
      assert s.sent + [] == s.sent && Pattern(tx, s.totalSent) + [] == Pattern(tx, s.totalSent);
    case ClientRecv(k) =>
      Assoc(Pattern(tx, s.totalSent - s.current), s.got, s.s2c[..k]);
    case ClientReceived =>
      RoundDone(tx, total, s);
    case _ =>
  }

  lemma InitHolds(tx: Bytes, total: nat)
    requires tx != []
    ensures Inv(tx, total, Init(tx, total))
  {
  }

  // ---- no deadlock, no endless run ----

  predicate Final(tx: Bytes, total: nat, s: State)
    requires tx != []
  {
    && s.pc.Done? && s.totalSent == total
    && s.sent == s.received == Pattern(tx, total)
    && s.c2s == [] && s.buffer == [] && s.s2c == []
    && total <= s.rounds * |tx| < total + |tx|
  }

  lemma Progress(tx: Bytes, total: nat, s: State) returns (a: Action)
    requires tx != [] && Inv(tx, total, s) && !Final(tx, total, s)
    ensures Enabled(s, a)
  {
    assert |s.sent| == |s.received| + |s.s2c| + |s.buffer| + |s.c2s|;
    if s.buffer != [] {
      a := ServerSend(1);
    } else if s.c2s != [] {
      a := ServerRecv(1);
    } else if s.pc.Sending? {
      a := if s.unsent == [] then ClientSent else ClientSend(1);
    } else if s.pc.Receiving? {
      a := if |s.got| >= s.current then ClientReceived else ClientRecv(1);
    } else {
      assert false;
    }
  }

  /** Bytes of chunks not yet begun. */
  function NotBegun(total: nat, s: State): nat {
    Max(0, total - s.totalSent - if s.pc.Sending? then s.current else 0)
  }

  function Rank(total: nat, s: State): nat {
    4 * |s.unsent| + 3 * |s.c2s| + 2 * |s.buffer| + |s.s2c| + 6 * NotBegun(total, s)
    + match s.pc { case Sending => 2 case Receiving => 1 case Done => 0 }
  }

  lemma RankDrops(tx: Bytes, total: nat, s: State, a: Action)
    requires tx != [] && Inv(tx, total, s) && Enabled(s, a)
    ensures Rank(total, Do(tx, total, s, a)) < Rank(total, s)
  {
    hide Pattern, Ledger;
  }

  // ---- whole sessions ----

  predicate IsRun(tx: Bytes, total: nat, s: State, actions: seq<Action>)
    decreases |actions|
  {
    actions == [] || (Enabled(s, actions[0]) && IsRun(tx, total, Do(tx, total, s, actions[0]), actions[1..]))
  }

  function After(tx: Bytes, total: nat, s: State, actions: seq<Action>): State
    requires IsRun(tx, total, s, actions)
    decreases |actions|
  {
    if actions == [] then s else After(tx, total, Do(tx, total, s, actions[0]), actions[1..])
  }

  lemma {:induction false} RunKeeps(tx: Bytes, total: nat, s: State, actions: seq<Action>)
    requires tx != [] && Inv(tx, total, s) && IsRun(tx, total, s, actions)
    ensures Inv(tx, total, After(tx, total, s, actions))
    ensures Rank(total, After(tx, total, s, actions)) + |actions| <= Rank(total, s)
    decreases |actions|
  {
    if actions != [] {
      StepKeeps(tx, total, s, actions[0]);
      RankDrops(tx, total, s, actions[0]);
      RunKeeps(tx, total, Do(tx, total, s, actions[0]), actions[1..]);
    }
  }

  /** Under every interleaving and fragmentation nothing sent is lost or reordered, the session
      takes at most 6 steps a byte, and when it can go no further the whole target has gone out
      and come back, in as many rounds as chunks fit into it, rounded up. */
  lemma EchoSession(tx: Bytes, total: nat, actions: seq<Action>)
    requires tx != [] && IsRun(tx, total, Init(tx, total), actions)
    ensures var t := After(tx, total, Init(tx, total), actions);
            && t.sent == t.received + (t.s2c + (t.buffer + t.c2s))
            && |actions| <= 6 * total
            && ((forall a :: !Enabled(t, a)) ==> Final(tx, total, t))
  {
    hide Pattern, Do, Enabled;
    InitHolds(tx, total);
    RunKeeps(tx, total, Init(tx, total), actions);
    var t := After(tx, total, Init(tx, total), actions);
    assert Rank(total, Init(tx, total)) <= 6 * total;
    if !Final(tx, total, t) {
      var a := Progress(tx, total, t);
    }
  }
}
