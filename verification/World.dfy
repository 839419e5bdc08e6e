/** Whole programs: any number of sockets, serial ports and servers, created, used, handed over,
    closed and destroyed in any order, with every kernel and SDP outcome adversarial. */
module World {
  import opened Prelude
  import opened Syscalls
  import opened Lifecycle

  /** What an object holds.  A handle of -1 is none; a port owns its socket's handle. */
  datatype Obj = Absent | SocketObj(h: int) | PortObj(h: int) | ServerObj(s: ServerState)

  function Handle(o: Obj): int {
    match o
    case Absent => -1
    case SocketObj(h) => h
    case PortObj(h) => h
    case ServerObj(s) => s.fd
  }

  function Reg(o: Obj): Option<int> {
    if o.ServerObj? then o.s.reg else None
  }

  function Handles(o: Obj): set<int> {
    if Handle(o) >= 0 then {Handle(o)} else {}
  }

  function Sessions(o: Obj): set<int> {
    if Reg(o).Some? then {Reg(o).value} else {}
  }

  /** The kernel after everything `o` holds has been given back. */
  function Release(st: OsState, o: Obj): OsState {
    OsState(st.live - Handles(o), st.bound - Handles(o), st.listening - Handles(o),
            st.sessions - Sessions(o), st.published - Sessions(o))
  }

  /** The kernel once `o` holds what it holds. */
  function Acquire(st: OsState, o: Obj): OsState {
    var up := o.ServerObj? && o.s.fd >= 0;
    OsState(st.live + Handles(o),
            if up then st.bound[o.s.fd := o.s.channel] else st.bound,
            if up then st.listening + {o.s.fd} else st.listening,
            st.sessions + Sessions(o),
            if Reg(o).Some? then st.published[o.s.reg.value := o.s.channel] else st.published)
  }

  // ---- one object against the kernel ----

  /** A server without a handle has nothing; a registration needs a handle. */
  predicate Sound(o: Obj) {
    Handle(o) >= -1 && (o.ServerObj? && o.s.fd < 0 ==> o.s == CLOSED)
  }

  /** The kernel agrees that `o` holds what it says. */
  predicate Owns(st: OsState, o: Obj) {
    && Sound(o)
    && Handles(o) <= st.live
    && (o.ServerObj? && o.s.fd >= 0 ==>
        o.s.fd in st.listening && o.s.fd in st.bound && st.bound[o.s.fd] == o.s.channel)
    && (Reg(o).Some? ==> Reg(o).value in st.sessions && Reg(o).value in st.published
                         && st.published[Reg(o).value] == o.s.channel)
  }

  ghost predicate BackedBut(st: OsState, hs: set<int>, ss: set<int>) {
    forall x :: x in st.published && x !in ss ==>
      exists h :: h in st.listening && h in st.live && h in st.bound && h !in hs && st.bound[h] == st.published[x]
  }

  predicate Tidy(st: OsState) {
    st.bound.Keys <= st.live && st.listening <= st.live && st.published.Keys <= st.sessions
  }

  /** Unregister, end the session, close the handle: each step is safe, nothing else changes. */
  lemma CloseLocal(st: OsState, o: Obj, ok: bool)
    requires Owns(st, o) && Tidy(st) && BackedBut(st, Handles(o), Sessions(o))
    ensures var calls := UnregisterCalls(Reg(o), ok) + CloseCalls(Handle(o));
            Safe(st, calls) && Replay(st, calls) == Release(st, o)
    ensures Tidy(Release(st, o)) && Backed(Release(st, o))
  {
    var un, cl := UnregisterCalls(Reg(o), ok), CloseCalls(Handle(o));
    assert Backed(st) by {
      if Reg(o).Some? {
        assert o.s.fd in st.listening && o.s.fd in st.live && o.s.fd in st.bound;
      }
    }
    var mid := UnregisterLocal(st, o, ok);
    BackedAfterClose(mid, o);
    if cl != [] {
      assert Apply(mid, cl[0]) == Release(st, o);
      One(mid, cl[0]);
    }
    ReplayAppend(st, un, cl);
  }

  lemma UnregisterLocal(st: OsState, o: Obj, ok: bool) returns (mid: OsState)
    requires Owns(st, o) && Tidy(st) && Backed(st)
    ensures mid == st.(sessions := st.sessions - Sessions(o), published := st.published - Sessions(o))
    ensures var un := UnregisterCalls(Reg(o), ok);
            Safe(st, un) && Replay(st, un) == mid
  {
    mid := st.(sessions := st.sessions - Sessions(o), published := st.published - Sessions(o));
    var un := UnregisterCalls(Reg(o), ok);
    if un != [] {
      var s1 := Apply(st, un[0]);
      BackedShrinks(st, s1);
      BackedShrinks(st, Apply(s1, un[1]));
      assert un[1..][0] == un[1] && un[1..][1..] == [];
      assert Apply(s1, un[1]) == mid;
      assert Replay(s1, un[1..]) == mid;
    } else {
      assert mid == st;
    }
  }

  lemma BackedShrinks(a: OsState, b: OsState)
    requires Backed(a) && b.live == a.live && b.bound == a.bound && b.listening == a.listening
    requires forall x :: x in b.published ==> x in a.published && a.published[x] == b.published[x]
    ensures Backed(b)
  {
  }

  lemma BackedAfterClose(mid: OsState, o: Obj)
    requires BackedBut(mid, Handles(o), {})
    ensures Backed(mid.(live := mid.live - Handles(o), bound := mid.bound - Handles(o),
                        listening := mid.listening - Handles(o)))
  {
    var end := mid.(live := mid.live - Handles(o), bound := mid.bound - Handles(o),
                    listening := mid.listening - Handles(o));
    forall x | x in end.published
      ensures exists h :: h in end.listening && h in end.live && h in end.bound && end.bound[h] == end.published[x]
    {
      var h :| h in mid.listening && h in mid.live && h in mid.bound && h !in Handles(o)
               && mid.bound[h] == mid.published[x];
      assert h in end.listening && h in end.live && h in end.bound;
    }
  }

  // ---- bringing a server up ----

  /** Every bind that is tried and refused changes nothing; the one that works is the first. */
  lemma {:induction false} ScanLocal(st: OsState, fd: int, bindable: set<int>, ch: int)
    requires fd in st.live && Backed(st) && fd !in st.listening && 1 <= ch
    ensures var calls := ScanCalls(fd, bindable, ch);
            var c := Scan(bindable, ch);
            Safe(st, calls) && Replay(st, calls) == if c == 0 then st else st.(bound := st.bound[fd := c])
    decreases 31 - ch
  {
    if ch <= 30 {
      if ch in bindable {
        BackedAfterBind(st, fd, ch);
        One(st, Bind(fd, ch));
      } else {
        One(st, Use(fd));
        ScanLocal(st, fd, bindable, ch + 1);
        ReplayAppend(st, [Use(fd)], ScanCalls(fd, bindable, ch + 1));
      }
    }
  }

  /** Binding a handle that is not listening unbacks no record. */
  lemma BackedAfterBind(st: OsState, fd: int, ch: int)
    requires Backed(st) && fd !in st.listening
    ensures Backed(st.(bound := st.bound[fd := ch]))
  {
  }

  lemma BindLocal(st: OsState, channel: int, env: ListenEnv)
    requires env.fd in st.live && Backed(st) && env.fd !in st.listening
    ensures var calls := BindCalls(channel, env);
            var c := BoundChannel(channel, env);
            Safe(st, calls) && Replay(st, calls) == if c == 0 then st else st.(bound := st.bound[env.fd := c])
  {
    if channel == 0 {
      ScanLocal(st, env.fd, env.bindable, 1);
    } else if channel in env.bindable {
      BackedAfterBind(st, env.fd, channel);
      One(st, Bind(env.fd, channel));
    } else {
      One(st, Use(env.fd));
    }
  }

  lemma BackedGrows(a: OsState, b: OsState)
    requires Backed(a) && b.published == a.published
    requires a.live <= b.live && a.listening <= b.listening && b.bound == a.bound
    ensures Backed(b)
  {
  }

  /** A fresh handle that is given back leaves the kernel as it was. */
  lemma GiveBack(st: OsState, mid: OsState, fd: int)
    requires Tidy(st) && Backed(st) && fd !in st.live
    requires mid.live == st.live + {fd} && mid.listening == st.listening
    requires mid.sessions == st.sessions && mid.published == st.published
    requires mid.bound - {fd} == st.bound - {fd}
    ensures Lawful(mid, Close(fd)) && Apply(mid, Close(fd)) == st
  {
  }

  /** `listen` from a closed server: a server that is up, or no trace at all. */
  lemma BringLocal(st: OsState, channel: int, env: ListenEnv)
    requires Tidy(st) && Backed(st) && env.fd !in st.live
    ensures var b := Bring(channel, env);
            && Safe(st, b.calls)
            && Replay(st, b.calls) == (if b.ok then Acquire(st, ServerObj(b.server)) else st)
            && ListenResult(channel, env, b.ok, b.server)
  {
    BringExact(channel, env);
    if env.fd >= 0 {
      hide Scan, ScanCalls;
      var s1 := Apply(st, Open(env.fd));
      BackedGrows(st, s1);
      One(st, Open(env.fd));
      BindLocal(s1, channel, env);
      ReplayAppend(st, [Open(env.fd)], BindCalls(channel, env));
      var tried := [Open(env.fd)] + BindCalls(channel, env);
      var s2 := Replay(st, tried);
      var bound := BoundChannel(channel, env);
      assert Backed(s2) by {
        BackedAfterBind(s1, env.fd, bound);
      }
      if bound == 0 {
        GiveBack(st, s2, env.fd);
        Then(st, tried, Close(env.fd));
      } else if !env.listens {
        GiveBack(st, s2, env.fd);
        Then(st, tried, Use(env.fd));
        Then(st, tried + [Use(env.fd)], Close(env.fd));
      } else {
        BackedGrows(s2, Apply(s2, Listen(env.fd)));
        Then(st, tried, Listen(env.fd));
      }
    }
  }

  /** `Registration::create` for a server that is up: a backed record, or no trace at all. */
  lemma CreateLocal(st: OsState, fd: int, channel: int, sdp: SdpEnv)
    requires Tidy(st) && Backed(st) && sdp.session !in st.sessions
    requires fd in st.listening && fd in st.live && fd in st.bound && st.bound[fd] == channel
    ensures var (reg, calls) := CreateCalls(channel, sdp);
            && Safe(st, calls)
            && reg == (if sdp.hasRecord && sdp.session >= 0 && sdp.registers then Some(sdp.session) else None)
            && Replay(st, calls) == if reg.None? then st
                 else st.(sessions := st.sessions + {reg.value}, published := st.published[reg.value := channel])
  {
    if sdp.hasRecord && sdp.session >= 0 {
      var s1 := Apply(st, SdpOpen(sdp.session));
      BackedShrinks(st, s1);
      One(st, SdpOpen(sdp.session));
      if sdp.registers {
        BackedAfterRegister(s1, fd, channel, sdp.session);
        Then(st, [SdpOpen(sdp.session)], Register(sdp.session, channel));
      } else {
        var s2 := Apply(s1, SdpClose(sdp.session));
        assert s2.sessions == st.sessions && s2.published == st.published;
        Then(st, [SdpOpen(sdp.session)], SdpClose(sdp.session));
      }
    }
  }

  lemma BackedAfterRegister(st: OsState, fd: int, channel: int, x: int)
    requires Backed(st) && fd in st.listening && fd in st.live && fd in st.bound && st.bound[fd] == channel
    ensures Backed(st.(published := st.published[x := channel]))
  {
  }

  /** A look-up opens a session, ends it and leaves no trace. */
  lemma LookupLocal(st: OsState, l: Lookup)
    requires Tidy(st) && Backed(st) && l.session !in st.sessions
    ensures Safe(st, LookupCalls(l)) && Replay(st, LookupCalls(l)) == st
  {
    if l.session >= 0 {
      var s1 := Apply(st, SdpOpen(l.session));
      BackedShrinks(st, s1);
      One(st, SdpOpen(l.session));
      var s2 := Apply(s1, SdpClose(l.session));
      assert s2.sessions == st.sessions && s2.published == st.published;
      Then(st, [SdpOpen(l.session)], SdpClose(l.session));
    }
  }

  /** Connecting to a known channel, or to one that is looked up first. */
  function Reach(lookup: Option<Lookup>, env: DialEnv): (int, seq<Syscall>) {
    if lookup.Some? then DialBySdp(lookup.value, env) else Dial(env)
  }

  lemma ReachLocal(st: OsState, lookup: Option<Lookup>, env: DialEnv)
    requires Tidy(st) && Backed(st) && env.fd !in st.live
    requires lookup.Some? ==> lookup.value.session !in st.sessions
    ensures var (h, calls) := Reach(lookup, env);
            && Safe(st, calls)
            && h == (if (lookup.Some? ==> lookup.value.session >= 0 && lookup.value.found)
                        && env.fd >= 0 && env.connects then env.fd else -1)
            && Replay(st, calls) == Acquire(st, SocketObj(h))
  {
    hide Dial, LookupCalls;
    DialLocal(st, env);
    if lookup.Some? {
      LookupLocal(st, lookup.value);
      ReplayAppend(st, LookupCalls(lookup.value), Dial(env).1);
      assert Acquire(st, SocketObj(-1)) == st;
    }
  }

  lemma DialLocal(st: OsState, env: DialEnv)
    requires Tidy(st) && Backed(st) && env.fd !in st.live
    ensures var (h, calls) := Dial(env);
            && Safe(st, calls)
            && h == (if env.fd >= 0 && env.connects then env.fd else -1)
            && (Close(env.fd) in calls <==> env.fd >= 0 && !env.connects)
            && Replay(st, calls) == Acquire(st, SocketObj(h))
  {
    if env.fd >= 0 {
      var s1 := Apply(st, Open(env.fd));
      BackedGrows(st, s1);
      One(st, Open(env.fd));
      Then(st, [Open(env.fd)], Use(env.fd));
      if !env.connects {
        GiveBack(st, s1, env.fd);
        Then(st, [Open(env.fd)] + [Use(env.fd)], Close(env.fd));
      }
    }
  }

  // ---- many objects ----

  type Objects = map<nat, Obj>

  function Get(w: Objects, id: nat): Obj {
    if id in w then w[id] else Absent
  }

  /** The kernel agrees with every object. */
  predicate Agree(w: Objects, st: OsState) {
    forall id :: id in w ==> Owns(st, w[id])
  }

  /** Every open handle and every session is held by some object... */
  ghost predicate HandlesHeld(w: Objects, st: OsState) {
    forall h :: h in st.live ==> h >= 0 && exists id :: id in w && Handle(w[id]) == h
  }

  ghost predicate SessionsHeld(w: Objects, st: OsState) {
    forall x :: x in st.sessions ==> exists id :: id in w && Reg(w[id]) == Some(x)
  }

  /** ...and by one only. */
  predicate Disjoint(w: Objects) {
    forall a, b :: a in w && b in w && a != b ==>
      Handles(w[a]) !! Handles(w[b]) && Sessions(w[a]) !! Sessions(w[b])
  }

  ghost predicate Inv(w: Objects, st: OsState) {
    Tidy(st) && Agree(w, st) && HandlesHeld(w, st) && SessionsHeld(w, st) && Disjoint(w)
  }

  /** As long as the books are right every published record is backed, and those of the other
      objects are backed by the other objects. */
  lemma Alone(w: Objects, st: OsState, id: nat)
    requires Inv(w, st)
    ensures Tidy(st) && Owns(st, Get(w, id)) && Backed(st)
    ensures BackedBut(st, Handles(Get(w, id)), Sessions(Get(w, id)))
  {
    var o := Get(w, id);
    hide HandlesHeld;
    forall x | x in st.published
      ensures exists h :: h in st.listening && h in st.live && h in st.bound && st.bound[h] == st.published[x]
                          && (x !in Sessions(o) ==> h !in Handles(o))
    {
      var k :| k in w && Reg(w[k]) == Some(x);
      assert Owns(st, w[k]) && Handles(w[k]) == {w[k].s.fd};
      assert k != id ==> id !in w || Handles(w[k]) !! Handles(w[id]);
    }
  }

  /** What `o'` newly holds is not held by anybody else. */
  predicate Fresh(st: OsState, o: Obj, o': Obj) {
    && Sound(o')
    && Handles(o') !! (st.live - Handles(o))
    && Sessions(o') !! (st.sessions - Sessions(o))
    && (Reg(o').Some? ==> o'.s.fd >= 0)
  }

  lemma OthersStay(w: Objects, st: OsState, id: nat, o': Obj, k: nat)
    requires Inv(w, st) && k in w && k != id && Fresh(st, Get(w, id), o')
    ensures Handles(w[k]) !! Handles(Get(w, id)) && Sessions(w[k]) !! Sessions(Get(w, id))
    ensures Handles(w[k]) !! Handles(o') && Sessions(w[k]) !! Sessions(o')
    ensures Owns(Acquire(Release(st, Get(w, id)), o'), w[k])
  {
  }

  /** Replacing one object, together with what it holds, keeps the books. */
  lemma UpdateKeeps(w: Objects, st: OsState, id: nat, o': Obj)
    requires Inv(w, st) && Fresh(st, Get(w, id), o')
    ensures Inv(w[id := o'], Acquire(Release(st, Get(w, id)), o'))
  {
    hide HandlesHeld, SessionsHeld;
    var o := Get(w, id);
    var w', end := w[id := o'], Acquire(Release(st, o), o');
    forall k | k in w' ensures Owns(end, w'[k]) {
      if k != id {
        OthersStay(w, st, id, o', k);
      }
    }
    forall a, b | a in w' && b in w' && a != b
      ensures Handles(w'[a]) !! Handles(w'[b]) && Sessions(w'[a]) !! Sessions(w'[b])
    {
      if a == id {
        OthersStay(w, st, id, o', b);
      } else if b == id {
        OthersStay(w, st, id, o', a);
      }
    }
    UpdateHolds(w, st, id, o');
  }

  lemma UpdateHolds(w: Objects, st: OsState, id: nat, o': Obj)
    requires Inv(w, st) && Fresh(st, Get(w, id), o')
    ensures HandlesHeld(w[id := o'], Acquire(Release(st, Get(w, id)), o'))
    ensures SessionsHeld(w[id := o'], Acquire(Release(st, Get(w, id)), o'))
  {
    hide Agree, Disjoint, Tidy, Owns;
    var o := Get(w, id);
    var w', end := w[id := o'], Acquire(Release(st, o), o');
    forall h | h in end.live ensures h >= 0 && exists k :: k in w' && Handle(w'[k]) == h {
      if h in Handles(o') {
        assert Handle(w'[id]) == h;
      } else {
        var k :| k in w && Handle(w[k]) == h;
        assert k != id && w'[k] == w[k];
      }
    }
    forall x | x in end.sessions ensures exists k :: k in w' && Reg(w'[k]) == Some(x) {
      if x in Sessions(o') {
        assert Reg(w'[id]) == Some(x);
      } else {
        var k :| k in w && Reg(w[k]) == Some(x);
        assert k != id && w'[k] == w[k];
      }
    }
  }

  /** A port takes over the handle of a socket object that is given up. */
  function Moved(w: Objects, sock: nat, port: nat): Objects
    requires Get(w, sock).SocketObj?
  {
    w[sock := Absent][port := PortObj(w[sock].h)]
  }

  lemma MoveHolds(w: Objects, st: OsState, sock: nat, port: nat)
    requires HandlesHeld(w, st) && SessionsHeld(w, st)
    requires sock != port && Get(w, sock).SocketObj? && Get(w, port) == PortObj(-1)
    ensures HandlesHeld(Moved(w, sock, port), st) && SessionsHeld(Moved(w, sock, port), st)
  {
    var w' := Moved(w, sock, port);
    forall g | g in st.live ensures g >= 0 && exists k :: k in w' && Handle(w'[k]) == g {
      var k :| k in w && Handle(w[k]) == g;
      assert g >= 0;
      if k == sock {
        assert Handle(w'[port]) == g;
      } else {
        assert k != port && w'[k] == w[k];
      }
    }
    forall x | x in st.sessions ensures exists k :: k in w' && Reg(w'[k]) == Some(x) {
      var k :| k in w && Reg(w[k]) == Some(x);
      assert k != sock && k != port && w'[k] == w[k];
    }
  }

  lemma MoveDisjoint(w: Objects, sock: nat, port: nat)
    requires Disjoint(w) && sock != port && Get(w, sock).SocketObj? && Get(w, port) == PortObj(-1)
    ensures Disjoint(Moved(w, sock, port))
  {
    var w' := Moved(w, sock, port);
    forall a, b | a in w' && b in w' && a != b
      ensures Handles(w'[a]) !! Handles(w'[b]) && Sessions(w'[a]) !! Sessions(w'[b])
    {
      if a != sock && b != sock {
        var a0 := if a == port then sock else a;
        var b0 := if b == port then sock else b;
        assert Handles(w[a0]) !! Handles(w[b0]);
      }
    }
  }

  lemma MoveKeeps(w: Objects, st: OsState, sock: nat, port: nat)
    requires Inv(w, st) && sock != port && Get(w, sock).SocketObj? && Get(w, port) == PortObj(-1)
    ensures Inv(Moved(w, sock, port), st)
  {
    hide HandlesHeld, SessionsHeld, Disjoint;
    MoveHolds(w, st, sock, port);
    MoveDisjoint(w, sock, port);
    assert Owns(st, w[sock]);
  }

  // ---- the operations of a program ----

  datatype Op =
    | New(id: nat, o: Obj)                                   // a default-constructed object
    | Connect(id: nat, lookup: Option<Lookup>, dial: DialEnv)     // Client::connect, connect_by_sdp
    | Accept(server: nat, id: nat, fd: int)                  // Server::accept
    | CloseIt(id: nat, ok: bool)                             // close() of any of the three
    | Destroy(id: nat, ok: bool)                             // any destructor
    | Io(id: nat)                                            // send, recv, timeouts, ...
    | PortOpen(id: nat, lookup: Option<Lookup>, dial: DialEnv)
    | PortAttach(id: nat, sock: Option<nat>)
    | ServerUp(id: nat, ok: bool, ch: int, env: ListenEnv)
    | ServerUpWithSdp(id: nat, ok: bool, ch: int, env: ListenEnv, sdp: SdpEnv)

  function Emptied(o: Obj): Obj {
    match o
    case Absent => Absent
    case SocketObj(_) => SocketObj(-1)
    case PortObj(_) => PortObj(-1)
    case ServerObj(_) => ServerObj(CLOSED)
  }

  predicate NewSession(st: OsState, lookup: Option<Lookup>) {
    lookup.Some? ==> lookup.value.session !in st.sessions
  }

  /** Objects are of the right kind, and the kernel hands out only numbers nobody has. */
  predicate Allowed(w: Objects, st: OsState, op: Op) {
    match op
    case New(id, o) => Get(w, id) == Absent && o == Emptied(o)
    case Connect(id, lookup, dial) => Get(w, id) == Absent && dial.fd !in st.live && NewSession(st, lookup)
    case Accept(server, id, fd) => Get(w, server).ServerObj? && Get(w, id) == Absent && fd !in st.live
    case CloseIt(_, _) => true
    case Destroy(_, _) => true
    case Io(_) => true
    case PortOpen(id, lookup, dial) =>
      Get(w, id).PortObj? && dial.fd !in st.live - Handles(Get(w, id)) && NewSession(st, lookup)
    case PortAttach(id, sock) => Get(w, id).PortObj? && (sock.Some? ==> Get(w, sock.value).SocketObj?)
    case ServerUp(id, _, _, env) => Get(w, id).ServerObj? && env.fd !in st.live - Handles(Get(w, id))
    case ServerUpWithSdp(id, _, _, env, sdp) =>
      && Get(w, id).ServerObj? && env.fd !in st.live - Handles(Get(w, id))
      && sdp.session !in st.sessions - Sessions(Get(w, id))
  }

  function Drop(o: Obj, ok: bool): seq<Syscall> {
    UnregisterCalls(Reg(o), ok) + CloseCalls(Handle(o))
  }

  function Effect(w: Objects, op: Op): (Objects, seq<Syscall>) {
    match op
    case New(id, o) => (w[id := o], [])
    case Connect(id, lookup, dial) =>
      var (h, calls) := Reach(lookup, dial);
      (if h >= 0 then w[id := SocketObj(h)] else w, calls)
    case Accept(server, id, fd) =>
      var l := Handle(Get(w, server));
      if l < 0 then (w, [])
      else if fd < 0 then (w, [Use(l)])
      else (w[id := SocketObj(fd)], [Use(l)] + [Open(fd)])
    case CloseIt(id, ok) => (w[id := Emptied(Get(w, id))], Drop(Get(w, id), ok))
    case Destroy(id, ok) => (w[id := Absent], Drop(Get(w, id), ok))
    case Io(id) => (w, if Handle(Get(w, id)) >= 0 then [Use(Handle(Get(w, id)))] else [])
    case PortOpen(id, lookup, dial) =>
      var (h, calls) := Reach(lookup, dial);
      (w[id := PortObj(h)], Drop(Get(w, id), true) + calls)
    case PortAttach(id, sock) =>
      var w1 := w[id := PortObj(-1)];
      (if sock.Some? && Get(w1, sock.value).SocketObj? then Moved(w1, sock.value, id) else w1,
       Drop(Get(w, id), true))
    case ServerUp(id, ok, ch, env) =>
      var s := if Get(w, id).ServerObj? then Get(w, id).s else CLOSED;
      var l := ServerListen(s, ok, ch, env);
      (w[id := ServerObj(l.server)], l.calls)
    case ServerUpWithSdp(id, ok, ch, env, sdp) =>
      var s := if Get(w, id).ServerObj? then Get(w, id).s else CLOSED;
      var l := ServerListenWithSdp(s, ok, ch, env, sdp);
      (w[id := ServerObj(l.server)], l.calls)
  }

  // ---- one step ----

  /** The step is safe at each of its calls and the books are right after it. */
  ghost predicate Kept(w: Objects, st: OsState, op: Op) {
    var (w', calls) := Effect(w, op);
    Safe(st, calls) && Inv(w', Replay(st, calls))
  }

  lemma DropKeeps(w: Objects, st: OsState, id: nat, ok: bool, o': Obj)
    requires Inv(w, st) && o' == Emptied(o')
    ensures var calls := Drop(Get(w, id), ok);
            && Safe(st, calls) && Replay(st, calls) == Release(st, Get(w, id))
            && Inv(w[id := o'], Replay(st, calls))
            && Tidy(Replay(st, calls)) && Backed(Replay(st, calls))
  {
    hide Inv;
    Alone(w, st, id);
    CloseLocal(st, Get(w, id), ok);
    UpdateKeeps(w, st, id, o');
    assert Acquire(Release(st, Get(w, id)), o') == Release(st, Get(w, id));
  }

  lemma ConnectKeeps(w: Objects, st: OsState, id: nat, lookup: Option<Lookup>, dial: DialEnv)
    requires Inv(w, st) && Allowed(w, st, Connect(id, lookup, dial))
    ensures Kept(w, st, Connect(id, lookup, dial))
  {
    Alone(w, st, id);
    ReachLocal(st, lookup, dial);
    var h := Reach(lookup, dial).0;
    assert Release(st, Absent) == st;
    if h >= 0 {
      UpdateKeeps(w, st, id, SocketObj(h));
    } else {
      assert Acquire(st, SocketObj(h)) == st;
    }
  }

  lemma AcceptKeeps(w: Objects, st: OsState, server: nat, id: nat, fd: int)
    requires Inv(w, st) && Allowed(w, st, Accept(server, id, fd))
    ensures Kept(w, st, Accept(server, id, fd))
  {
    hide Inv, BackedBut;
    Alone(w, st, server);
    var l := Handle(Get(w, server));
    if l >= 0 {
      One(st, Use(l));
      if fd >= 0 {
        BackedGrows(st, Apply(st, Open(fd)));
        Then(st, [Use(l)], Open(fd));
        assert Release(st, Absent) == st;
        UpdateKeeps(w, st, id, SocketObj(fd));
        assert Acquire(st, SocketObj(fd)) == Apply(st, Open(fd));
      }
    }
  }

  lemma PortOpenKeeps(w: Objects, st: OsState, id: nat, lookup: Option<Lookup>, dial: DialEnv)
    requires Inv(w, st) && Allowed(w, st, PortOpen(id, lookup, dial))
    ensures Kept(w, st, PortOpen(id, lookup, dial))
  {
    hide Inv;
    var o := Get(w, id);
    DropKeeps(w, st, id, true, PortObj(-1));
    var mid := Replay(st, Drop(o, true));
    ReachLocal(mid, lookup, dial);
    ReplayAppend(st, Drop(o, true), Reach(lookup, dial).1);
    var h := Reach(lookup, dial).0;
    assert Release(mid, PortObj(-1)) == mid;
    UpdateKeeps(w[id := PortObj(-1)], mid, id, PortObj(h));
    assert w[id := PortObj(-1)][id := PortObj(h)] == w[id := PortObj(h)];
    assert Acquire(mid, PortObj(h)) == Acquire(mid, SocketObj(h));
  }

  lemma PortAttachKeeps(w: Objects, st: OsState, id: nat, sock: Option<nat>)
    requires Inv(w, st) && Allowed(w, st, PortAttach(id, sock))
    ensures Kept(w, st, PortAttach(id, sock))
  {
    hide Inv;
    DropKeeps(w, st, id, true, PortObj(-1));
    if sock.Some? {
      MoveKeeps(w[id := PortObj(-1)], Replay(st, Drop(Get(w, id), true)), sock.value, id);
    }
  }

  lemma ListenKeeps(w: Objects, st: OsState, id: nat, ok: bool, ch: int, env: ListenEnv)
    requires Inv(w, st) && Get(w, id).ServerObj? && env.fd !in st.live - Handles(Get(w, id))
    ensures var l := ServerListen(Get(w, id).s, ok, ch, env);
            && Safe(st, l.calls) && Inv(w[id := ServerObj(l.server)], Replay(st, l.calls))
            && (l.ok ==> l.server.fd >= 0 && l.server.reg == None)
            && (!l.ok ==> l.server == CLOSED && Replay(st, l.calls) == Release(st, Get(w, id)))
            && (l.ok ==> Tidy(Release(st, Get(w, id))) && l.server.fd !in Release(st, Get(w, id)).live
                         && Replay(st, l.calls) == Acquire(Release(st, Get(w, id)), ServerObj(l.server)))
  {
    hide Inv, Bring;
    var o := Get(w, id);
    DropKeeps(w, st, id, ok, ServerObj(CLOSED));
    var mid := Replay(st, Drop(o, ok));
    BringLocal(mid, ch, env);
    var b := Bring(ch, env);
    ReplayAppend(st, Drop(o, ok), b.calls);
    assert Release(mid, ServerObj(CLOSED)) == mid;
    if b.ok {
      UpdateKeeps(w[id := ServerObj(CLOSED)], mid, id, ServerObj(b.server));
      assert w[id := ServerObj(CLOSED)][id := ServerObj(b.server)] == w[id := ServerObj(b.server)];
    }
  }

  lemma ListenWithSdpKeeps(w: Objects, st: OsState, id: nat, ok: bool, ch: int, env: ListenEnv, sdp: SdpEnv)
    requires Inv(w, st) && Allowed(w, st, ServerUpWithSdp(id, ok, ch, env, sdp))
    ensures Kept(w, st, ServerUpWithSdp(id, ok, ch, env, sdp))
    ensures var l := ServerListenWithSdp(Get(w, id).s, ok, ch, env, sdp);
            !l.ok ==> l.server == CLOSED && Replay(st, l.calls) == Release(st, Get(w, id))
  {
    hide Inv, ServerListen;
    var l := ServerListen(Get(w, id).s, ok, ch, env);
    ListenKeeps(w, st, id, ok, ch, env);
    if l.ok {
      var mid, w1 := Replay(st, l.calls), w[id := ServerObj(l.server)];
      Alone(w1, mid, id);
      CreateLocal(mid, l.server.fd, l.server.channel, sdp);
      var (reg, calls) := CreateCalls(l.server.channel, sdp);
      ReplayAppend(st, l.calls, calls);
      if reg.Some? {
        var up := ServerObj(l.server.(reg := reg));
        UpdateKeeps(w1, mid, id, up);
        assert w1[id := up] == w[id := up];
        Restored(mid, ServerObj(l.server), up);
      } else {
        DropKeeps(w1, mid, id, ok, ServerObj(CLOSED));
        assert Drop(ServerObj(l.server), ok) == CloseCalls(l.server.fd);
        ReplayAppend(st, l.calls + calls, CloseCalls(l.server.fd));
        Undone(Release(st, Get(w, id)), l.server);
        assert w1[id := ServerObj(CLOSED)] == w[id := ServerObj(CLOSED)];
      }
    }
  }

  /** Bringing a server up and taking it down again leaves no trace. */
  lemma Undone(st: OsState, s: ServerState)
    requires Tidy(st) && s.fd >= 0 && s.reg == None && s.fd !in st.live
    ensures Release(Acquire(st, ServerObj(s)), ServerObj(s)) == st
  {
  }

  /** Publishing adds the record and nothing else. */
  lemma Restored(st: OsState, o: Obj, up: Obj)
    requires Owns(st, o) && Tidy(st) && o.ServerObj? && o.s.fd >= 0 && o.s.reg == None
    requires up.ServerObj? && up.s.fd == o.s.fd && up.s.channel == o.s.channel && up.s.reg.Some?
    ensures Acquire(Release(st, o), up)
            == st.(sessions := st.sessions + {up.s.reg.value},
                   published := st.published[up.s.reg.value := up.s.channel])
  {
  }

  lemma StepKeeps(w: Objects, st: OsState, op: Op)
    requires Inv(w, st) && Allowed(w, st, op)
    ensures Kept(w, st, op)
  {
    hide Inv, ServerListen, ServerListenWithSdp, Drop, Reach;
    match op
    case New(id, o) =>
      UpdateKeeps(w, st, id, o);
      assert Acquire(Release(st, Absent), o) == st;
    case Connect(id, lookup, dial) => ConnectKeeps(w, st, id, lookup, dial);
    case Accept(server, id, fd) => AcceptKeeps(w, st, server, id, fd);
    case CloseIt(id, ok) => DropKeeps(w, st, id, ok, Emptied(Get(w, id)));
    case Destroy(id, ok) => DropKeeps(w, st, id, ok, Absent);
    case Io(id) =>
      Alone(w, st, id);
      if Handle(Get(w, id)) >= 0 {
        One(st, Use(Handle(Get(w, id))));
      }
    case PortOpen(id, lookup, dial) => PortOpenKeeps(w, st, id, lookup, dial);
    case PortAttach(id, sock) => PortAttachKeeps(w, st, id, sock);
    case ServerUp(id, ok, ch, env) => ListenKeeps(w, st, id, ok, ch, env);
    case ServerUpWithSdp(id, ok, ch, env, sdp) => ListenWithSdpKeeps(w, st, id, ok, ch, env, sdp);
  }

  // ---- what one step does ----

  predicate Reached(lookup: Option<Lookup>, dial: DialEnv) {
    (lookup.Some? ==> lookup.value.session >= 0 && lookup.value.found) && dial.fd >= 0 && dial.connects
  }

  /** Handles and sessions before and after: what `old` held is gone, what `new` holds has come. */
  predicate Swapped(st: OsState, st': OsState, old_: Obj, new_: Obj) {
    && st'.live == st.live - Handles(old_) + Handles(new_)
    && st'.sessions == st.sessions - Sessions(old_) + Sessions(new_)
  }

  predicate OthersKept(w: Objects, w': Objects, ids: set<nat>) {
    forall k: nat :: k in w.Keys + w'.Keys && k !in ids ==> Get(w', k) == Get(w, k)
  }

  /** Each operation on the objects it names, and on no others. */
  ghost predicate Does(w: Objects, st: OsState, op: Op, w': Objects, st': OsState) {
    match op
    case New(id, o) => Get(w', id) == o && OthersKept(w, w', {id}) && st' == st
    case Connect(id, lookup, dial) =>
      var o := if Reached(lookup, dial) then SocketObj(dial.fd) else Absent;
      Get(w', id) == o && OthersKept(w, w', {id}) && Swapped(st, st', Absent, o)
    case Accept(server, id, fd) =>
      var o := if Handle(Get(w, server)) >= 0 && fd >= 0 then SocketObj(fd) else Absent;
      Get(w', id) == o && OthersKept(w, w', {id}) && Swapped(st, st', Absent, o)
    case CloseIt(id, _) =>
      && Handle(Get(w', id)) == -1 && Reg(Get(w', id)).None? && (Get(w', id).Absent? <==> Get(w, id).Absent?)
      && OthersKept(w, w', {id}) && Swapped(st, st', Get(w, id), Absent)
    case Destroy(id, _) =>
      Get(w', id) == Absent && OthersKept(w, w', {id}) && Swapped(st, st', Get(w, id), Absent)
    case Io(_) => w' == w && st' == st
    case PortOpen(id, lookup, dial) =>
      var o := PortObj(if Reached(lookup, dial) then dial.fd else -1);
      Get(w', id) == o && OthersKept(w, w', {id}) && Swapped(st, st', Get(w, id), o)
    case PortAttach(id, None) =>
      Get(w', id) == PortObj(-1) && OthersKept(w, w', {id}) && Swapped(st, st', Get(w, id), Absent)
    case PortAttach(id, Some(sock)) =>
      && Get(w', id) == PortObj(Handle(Get(w, sock))) && Handle(Get(w', sock)) == -1
      && OthersKept(w, w', {id, sock}) && Swapped(st, st', Get(w, id), Absent)
    case ServerUp(id, _, ch, env) =>
      && Get(w', id).ServerObj? && ListenResult(ch, env, Handle(Get(w', id)) >= 0, Get(w', id).s)
      && OthersKept(w, w', {id}) && Swapped(st, st', Get(w, id), Get(w', id))
    case ServerUpWithSdp(id, _, ch, env, sdp) =>
      && Get(w', id).ServerObj?
      && (if sdp.hasRecord && sdp.session >= 0 && sdp.registers then
            var s := Get(w', id).s;
            && ListenResult(ch, env, s.fd >= 0, s.(reg := None))
            && (s.fd >= 0 ==> s.reg == Some(sdp.session)
                              && sdp.session in st'.published && st'.published[sdp.session] == s.channel)
          else Get(w', id).s == ServerState(-1, 0, None))
      && OthersKept(w, w', {id}) && Swapped(st, st', Get(w, id), Get(w', id))
  }

  lemma StepDoes(w: Objects, st: OsState, op: Op)
    requires Inv(w, st) && Allowed(w, st, op)
    ensures var (w', calls) := Effect(w, op);
            Does(w, st, op, w', Replay(st, calls))
  {
    hide Inv, Drop, ServerListen, ServerListenWithSdp, ListenResult, Dial, Reach, Safe, OthersKept, Get;
    match op
    case New(id, o) => SetOne(w, id, o);
    case Connect(id, lookup, dial) => ConnectDoes(w, st, id, lookup, dial);
    case Accept(server, id, fd) =>
      SetOne(w, id, SocketObj(fd));
      AcceptDoes(st, Handle(Get(w, server)), fd);
    case CloseIt(id, ok) => CloseDoes(w, st, id, ok, Emptied(Get(w, id)));
    case Destroy(id, ok) => CloseDoes(w, st, id, ok, Absent);
    case Io(id) => AcceptDoes(st, Handle(Get(w, id)), -1);
    case PortOpen(id, lookup, dial) =>
      SetOne(w, id, PortObj(Reach(lookup, dial).0));
      OpenDoes(w, st, id, lookup, dial);
    case PortAttach(id, sock) =>
      CloseDoes(w, st, id, true, PortObj(-1));
      if sock.Some? {
        AttachDoes(w, id, sock.value);
      }
    case ServerUp(id, ok, ch, env) =>
      SetOne(w, id, ServerObj(ServerListen(Get(w, id).s, ok, ch, env).server));
      ListenDoes(w, st, id, ok, ch, env);
    case ServerUpWithSdp(id, ok, ch, env, sdp) => ListenWithSdpDoes(w, st, id, ok, ch, env, sdp);
  }

  lemma SetOne(w: Objects, id: nat, o: Obj)
    ensures Get(w[id := o], id) == o && OthersKept(w, w[id := o], {id}) && OthersKept(w, w, {id})
  {
  }

  lemma AttachDoes(w: Objects, id: nat, sock: nat)
    requires Get(w, id).PortObj? && Get(w, sock).SocketObj?
    ensures var w1 := w[id := PortObj(-1)];
            && Get(w1, sock) == Get(w, sock)
            && Get(Moved(w1, sock, id), id) == PortObj(Handle(Get(w, sock))) && Get(Moved(w1, sock, id), sock) == Absent
            && OthersKept(w, Moved(w1, sock, id), {id, sock})
  {
  }

  lemma CloseDoes(w: Objects, st: OsState, id: nat, ok: bool, o: Obj)
    requires Inv(w, st) && o == Emptied(o)
    ensures Get(w[id := o], id) == o && OthersKept(w, w[id := o], {id})
    ensures Swapped(st, Replay(st, Drop(Get(w, id), ok)), Get(w, id), Absent)
  {
    hide Inv, Drop, Safe, OthersKept;
    SetOne(w, id, o);
    DropKeeps(w, st, id, ok, o);
  }

  lemma ConnectDoes(w: Objects, st: OsState, id: nat, lookup: Option<Lookup>, dial: DialEnv)
    requires Inv(w, st) && Allowed(w, st, Connect(id, lookup, dial))
    ensures var (w', calls) := Effect(w, Connect(id, lookup, dial));
            Does(w, st, Connect(id, lookup, dial), w', Replay(st, calls))
  {
    hide Inv, Reach, Safe, OthersKept;
    Alone(w, st, id);
    ReachLocal(st, lookup, dial);
    SetOne(w, id, SocketObj(dial.fd));
  }

  lemma AcceptDoes(st: OsState, l: int, fd: int)
    ensures Replay(st, [Use(l)]) == st
    ensures Replay(st, [Use(l)] + [Open(fd)]) == Apply(st, Open(fd))
    ensures Replay(st, []) == st
  {
    ReplayOne(st, Use(l));
    ReplayOne(st, Open(fd));
    ReplayAppend(st, [Use(l)], [Open(fd)]);
  }

  lemma ReplayOne(st: OsState, c: Syscall)
    ensures Replay(st, [c]) == Apply(st, c) && Replay(st, []) == st
  {
    var rest := [c][1..];
    assert rest == [];
  }

  lemma OpenDoes(w: Objects, st: OsState, id: nat, lookup: Option<Lookup>, dial: DialEnv)
    requires Inv(w, st) && Allowed(w, st, PortOpen(id, lookup, dial))
    ensures var h := Reach(lookup, dial).0;
            && h == (if Reached(lookup, dial) then dial.fd else -1)
            && Swapped(st, Replay(st, Drop(Get(w, id), true) + Reach(lookup, dial).1), Get(w, id), PortObj(h))
  {
    hide Inv, Drop, Reach, Safe;
    DropKeeps(w, st, id, true, PortObj(-1));
    var mid := Replay(st, Drop(Get(w, id), true));
    ReachLocal(mid, lookup, dial);
    ReplayAppend(st, Drop(Get(w, id), true), Reach(lookup, dial).1);
  }

  lemma ListenDoes(w: Objects, st: OsState, id: nat, ok: bool, ch: int, env: ListenEnv)
    requires Inv(w, st) && Get(w, id).ServerObj? && env.fd !in st.live - Handles(Get(w, id))
    ensures var l := ServerListen(Get(w, id).s, ok, ch, env);
            && ListenResult(ch, env, l.ok, l.server) && (l.ok <==> l.server.fd >= 0) && l.server.reg == None
            && Swapped(st, Replay(st, l.calls), Get(w, id), ServerObj(l.server))
  {
    hide Inv, Safe, Drop;
    BringExact(ch, env);
    ListenKeeps(w, st, id, ok, ch, env);
    hide Bring;
  }

  lemma ListenWithSdpDoes(w: Objects, st: OsState, id: nat, ok: bool, ch: int, env: ListenEnv, sdp: SdpEnv)
    requires Inv(w, st) && Allowed(w, st, ServerUpWithSdp(id, ok, ch, env, sdp))
    ensures var (w', calls) := Effect(w, ServerUpWithSdp(id, ok, ch, env, sdp));
            Does(w, st, ServerUpWithSdp(id, ok, ch, env, sdp), w', Replay(st, calls))
  {
    var s := Get(w, id).s;
    ListenWithSdpExact(s, ok, ch, env, sdp);
    hide Inv, Safe, ListenResult, ServerListenWithSdp, OthersKept;
    SetOne(w, id, ServerObj(ServerListenWithSdp(s, ok, ch, env, sdp).server));
    ListenWithSdpSwaps(w, st, id, ok, ch, env, sdp);
  }

  lemma ListenWithSdpSwaps(w: Objects, st: OsState, id: nat, ok: bool, ch: int, env: ListenEnv, sdp: SdpEnv)
    requires Inv(w, st) && Allowed(w, st, ServerUpWithSdp(id, ok, ch, env, sdp))
    ensures var l := ServerListenWithSdp(Get(w, id).s, ok, ch, env, sdp);
            var st' := Replay(st, l.calls);
            && Swapped(st, st', Get(w, id), ServerObj(l.server))
            && (l.ok ==> l.server.reg.Some? && l.server.reg.value in st'.published
                         && st'.published[l.server.reg.value] == l.server.channel)
  {
    hide Inv, Safe, Drop, ServerListen;
    ListenWithSdpKeeps(w, st, id, ok, ch, env, sdp);
    var up := ServerListen(Get(w, id).s, ok, ch, env);
    if up.ok {
      ListenKeeps(w, st, id, ok, ch, env);
      var mid, w1 := Replay(st, up.calls), w[id := ServerObj(up.server)];
      Alone(w1, mid, id);
      CreateLocal(mid, up.server.fd, up.server.channel, sdp);
      ReplayAppend(st, up.calls, CreateCalls(up.server.channel, sdp).1);
    }
  }

  // ---- whole programs ----

  predicate IsRun(w: Objects, st: OsState, ops: seq<Op>)
    decreases |ops|
  {
    ops == [] || (Allowed(w, st, ops[0])
                  && IsRun(Effect(w, ops[0]).0, Replay(st, Effect(w, ops[0]).1), ops[1..]))
  }

  /** The objects at the end of a run and the calls it made. */
  function Run(w: Objects, ops: seq<Op>): (Objects, seq<Syscall>)
    decreases |ops|
  {
    if ops == [] then (w, [])
    else
      var (w1, calls) := Effect(w, ops[0]);
      var (w2, rest) := Run(w1, ops[1..]);
      (w2, calls + rest)
  }

  lemma {:induction false} RunKeeps(w: Objects, st: OsState, ops: seq<Op>)
    requires Inv(w, st) && IsRun(w, st, ops)
    ensures Safe(st, Run(w, ops).1) && Inv(Run(w, ops).0, Replay(st, Run(w, ops).1))
    decreases |ops|
  {
    hide Inv, Effect, Allowed;
    if ops != [] {
      StepKeeps(w, st, ops[0]);
      var (w1, calls) := Effect(w, ops[0]);
      RunKeeps(w1, Replay(st, calls), ops[1..]);
      ReplayAppend(st, calls, Run(w1, ops[1..]).1);
    }
  }

  function Opens(log: seq<Syscall>, h: int): nat {
    if log == [] then 0 else (if log[0] == Open(h) then 1 else 0) + Opens(log[1..], h)
  }

  function Closes(log: seq<Syscall>, h: int): nat {
    if log == [] then 0 else (if log[0] == Close(h) then 1 else 0) + Closes(log[1..], h)
  }

  /** In a safe trace a handle is open exactly when it was opened once more than closed. */
  lemma {:induction false} Balance(st: OsState, log: seq<Syscall>, h: int)
    requires Safe(st, log)
    ensures (if h in st.live then 1 else 0) + Opens(log, h)
         == Closes(log, h) + (if h in Replay(st, log).live then 1 else 0)
    decreases |log|
  {
    if log != [] {
      Balance(Apply(st, log[0]), log[1..], h);
    }
  }

  lemma HandleHolder(w: Objects, st: OsState, h: int) returns (id: nat)
    requires HandlesHeld(w, st) && h in st.live
    ensures id in w && Handle(w[id]) == h >= 0
  {
    id :| id in w && Handle(w[id]) == h;
  }

  lemma SessionHolder(w: Objects, st: OsState, x: int) returns (id: nat)
    requires SessionsHeld(w, st) && x in st.sessions
    ensures id in w && Reg(w[id]) == Some(x)
  {
    id :| id in w && Reg(w[id]) == Some(x);
  }

  lemma AllGone(w: Objects, st: OsState)
    requires Inv(w, st) && forall id :: id in w ==> w[id] == Absent
    ensures st.live == {} && st.sessions == {} && st.published == map[]
  {
    forall h ensures h !in st.live {
      if h in st.live {
        var id := HandleHolder(w, st, h);
        assert false;
      }
    }
    forall x ensures x !in st.sessions {
      if x in st.sessions {
        var id := SessionHolder(w, st, x);
        assert false;
      }
    }
    assert st.published.Keys == {};
  }

  /** Every program, whatever the outcomes.  At every single system call: no handle is used or
      closed unless it is open, and every published record names the channel of an open listening
      handle.  Once all objects are gone nothing is open or published and every handle has been
      closed exactly as often as it was opened. */
  lemma ProgramIsSafe(ops: seq<Op>)
    requires IsRun(map[], BOOT, ops)
    ensures var (w, log) := Run(map[], ops);
            var st := Replay(BOOT, log);
            && Safe(BOOT, log) && Backed(st)
            && ((forall id :: id in w ==> w[id] == Absent) ==>
                && st.live == {} && st.sessions == {} && st.published == map[]
                && forall h :: Opens(log, h) == Closes(log, h))
  {
    hide Effect, Allowed;
    RunKeeps(map[], BOOT, ops);
    var (w, log) := Run(map[], ops);
    var st := Replay(BOOT, log);
    Alone(w, st, 0);
    if forall id :: id in w ==> w[id] == Absent {
      AllGone(w, st);
      forall h ensures Opens(log, h) == Closes(log, h) {
        Balance(BOOT, log, h);
      }
    }
  }

  /** A `listen_with_sdp` that fails leaves its server closed on channel 0, and the kernel as it
      would be had the server only been closed: nothing open, nothing published. */
  lemma FailedListenLeavesNothing(w: Objects, st: OsState, id: nat, ok: bool, ch: int, env: ListenEnv, sdp: SdpEnv)
    requires Inv(w, st) && Allowed(w, st, ServerUpWithSdp(id, ok, ch, env, sdp))
    requires !ServerListenWithSdp(Get(w, id).s, ok, ch, env, sdp).ok
    ensures var l := ServerListenWithSdp(Get(w, id).s, ok, ch, env, sdp);
            && l.server == CLOSED
            && Replay(st, l.calls) == Replay(st, ServerCloseCalls(Get(w, id).s, ok))
  {
    hide Inv;
    ListenWithSdpKeeps(w, st, id, ok, ch, env, sdp);
    DropKeeps(w, st, id, ok, Absent);
  }
}
