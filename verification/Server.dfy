/** `rfcomm::Server`, `rfcomm::sdp::Registration` and `rfcomm::Client` as objects. */
module Servers {
  import opened Prelude
  import opened Syscalls
  import opened Kernels
  import opened Lifecycle
  import opened Sockets
  import Addresses
  import Numerals
  import Platform
  import SdpSearch

  class Registration {
    const os: Kernel
    var session: Option<int>
    var record: Option<SdpSearch.Record>
    var registered: bool

    constructor (os: Kernel)
      ensures this.os == os && session == None && record == None && !registered
    {
      this.os := os;
      session, record, registered := None, None, false;
    }

    /** Idempotent; also what the destructor does. */
    method Unregister(ok: bool)
      requires registered ==> session.Some? && record.Some?
      requires session.Some? ==> registered
      modifies this, os
      ensures session == None && record == None && !registered
      ensures os.log == old(os.log) + UnregisterCalls(old(session), ok)
      ensures os.log == old(os.log) +
              match old(session) {
                case Some(s) => [Syscall.Unregister(s, ok), SdpClose(s)]
                case None => []
              }
    {
      if session.Some? && record.Some? && registered {
        os.Note(Syscall.Unregister(session.value, ok));
        registered := false;
      }
      if session.Some? {
        os.Note(SdpClose(session.value));
        session := None;
      }
      record := None;
    }
  }

  /** `Registration::create`. */
  method CreateRegistration(os: Kernel, channel: byte, sdp: SdpEnv) returns (reg: Registration?)
    modifies os
    ensures reg != null <==> sdp.hasRecord && sdp.session >= 0 && sdp.registers
    ensures reg != null ==>
              && reg.session == Some(sdp.session)
              && reg.record == Some(SdpSearch.Record(Some(
                   [[[SdpSearch.UuidElement(0x0100)], [SdpSearch.UuidElement(0x0003), SdpSearch.UInt8(channel)]]])))
    ensures os.log == old(os.log) +
            if !sdp.hasRecord || sdp.session < 0 then []
            else if sdp.registers then [SdpOpen(sdp.session), Register(sdp.session, channel)]
            else [SdpOpen(sdp.session), SdpClose(sdp.session)]
    ensures var c := CreateCalls(channel, sdp);
            && (reg != null <==> c.0.Some?)
            && (reg != null ==> fresh(reg) && reg.os == os && reg.session == c.0 && reg.registered)
            && os.log == old(os.log) + c.1
  {
    reg := new Registration(os);
    if !sdp.hasRecord {
      return null;
    }
    var l2cap: SdpSearch.Chain := [SdpSearch.UuidElement(SdpSearch.L2CAP)];
    var protocols: SdpSearch.Stack := [l2cap];
    var rfcomm: SdpSearch.Chain := [SdpSearch.UuidElement(SdpSearch.RFCOMM)];
    rfcomm := rfcomm + [SdpSearch.UInt8(channel)];
    protocols := protocols + [rfcomm];
    assert rfcomm == [SdpSearch.UuidElement(0x0003), SdpSearch.UInt8(channel)];
    assert protocols == [l2cap, rfcomm];
    reg.record := Some(SdpSearch.Record(Some([protocols])));
    if sdp.session < 0 {
      return null;
    }
    os.Note(SdpOpen(sdp.session));
    reg.session := Some(sdp.session);
    if !sdp.registers {
      os.Note(SdpClose(sdp.session));
      reg.session := None;
      return null;
    }
    os.Note(Register(sdp.session, channel));
    reg.registered := true;
  }

  class Server {
    const os: Kernel
    var listenFd: int
    var channel: byte
    var sdpReg: Registration?

    ghost predicate Valid()
      reads this, sdpReg
    {
      && (sdpReg != null ==>
          sdpReg.os == os && sdpReg.registered && sdpReg.session.Some? && sdpReg.record.Some?)
      && (listenFd == -1 ==> channel == 0)
      && listenFd >= -1
    }

    ghost function State(): ServerState
      reads this, sdpReg
    {
      ServerState(listenFd, channel, if sdpReg == null then None else sdpReg.session)
    }

    constructor (os: Kernel)
      ensures Valid() && this.os == os && State() == CLOSED
    {
      this.os := os;
      listenFd, channel, sdpReg := -1, 0, null;
    }

    /** Unpublish first, then give the handle back; also what the destructor does. */
    method Close(unregOk: bool)
      requires Valid()
      modifies this, os, sdpReg
      ensures Valid() && State() == CLOSED
      ensures os.log == old(os.log) + ServerCloseCalls(old(State()), unregOk)
      ensures os.log == old(os.log) +
              (match old(State()).reg {
                 case Some(s) => [Syscall.Unregister(s, unregOk), SdpClose(s)]
                 case None => []
               }) + if old(listenFd) >= 0 then [Syscall.Close(old(listenFd))] else []
    {
      if sdpReg != null {
        sdpReg.Unregister(unregOk);
        sdpReg := null;
      }
      if listenFd != -1 {
        os.Note(Syscall.Close(listenFd));
        listenFd := -1;
      }
      channel := 0;
    }

    /** The bind of `listen`: the channel asked for, or the scan for one; 0 when it fails. */
    method BindChannel(ch: byte, env: ListenEnv) returns (bound: byte)
      modifies os
      ensures bound as int == BoundChannel(ch, env) && os.log == old(os.log) + BindCalls(ch, env)
    {
      bound := 0;
      if ch != 0 {
        if ch in env.bindable {
          os.Note(Bind(env.fd, ch));
          bound := ch;
        } else {
          os.Note(Use(env.fd));
        }
      } else {
        var c := 1;
        while c <= 30
          invariant 1 <= c <= 31 && bound == 0
          invariant Scan(env.bindable, 1) == Scan(env.bindable, c)
          invariant os.log + ScanCalls(env.fd, env.bindable, c) == old(os.log) + ScanCalls(env.fd, env.bindable, 1)
        {
          if c in env.bindable {
            os.Note(Bind(env.fd, c));
            bound := c;
            break;
          }
          Assoc(os.log, [Use(env.fd)], ScanCalls(env.fd, env.bindable, c + 1));
          os.Note(Use(env.fd));
          c := c + 1;
        }
        assert c == 31 ==> os.log + [] == os.log;
      }
    }

    method Listen(ch: byte, env: ListenEnv, unregOk: bool) returns (ok: bool)
      requires Valid()
      modifies this, os, sdpReg
      ensures Valid()
      ensures var l := ServerListen(old(State()), unregOk, ch, env);
              ok == l.ok && State() == l.server && os.log == old(os.log) + l.calls
      ensures ListenResult(ch, env, ok, State())
    {
      BringExact(ch, env);
      Close(unregOk);
      if env.fd < 0 {
        assert Bring(ch, env).calls == [];
        assert ServerCloseCalls(old(State()), unregOk) + [] == ServerCloseCalls(old(State()), unregOk);
        return false;
      }
      ghost var start := os.log;
      os.Note(Open(env.fd));
      var bound := BindChannel(ch, env);
      Assoc(start, [Open(env.fd)], BindCalls(ch, env));
      hide BindCalls, BoundChannel, Scan, ScanCalls, ServerCloseCalls;
      var tried := [Open(env.fd)] + BindCalls(ch, env);
      assert os.log == start + tried;
      Assoc(start, tried, [Syscall.Close(env.fd)]);
      Assoc(start, tried, [Use(env.fd)]);
      Assoc(start, tried + [Use(env.fd)], [Syscall.Close(env.fd)]);
      Assoc(start, tried, [Syscall.Listen(env.fd)]);
      Assoc(old(os.log), ServerCloseCalls(old(State()), unregOk), Bring(ch, env).calls);
      if bound == 0 {
        os.Note(Syscall.Close(env.fd));
        return false;
      }
      if !env.listens {
        os.Note(Use(env.fd));
        os.Note(Syscall.Close(env.fd));
        return false;
      }
      os.Note(Syscall.Listen(env.fd));
      listenFd := env.fd;
      channel := bound;
      return true;
    }

    method ListenWithSdp(ch: byte, env: ListenEnv, sdp: SdpEnv, unregOk: bool) returns (ok: bool)
      requires Valid()
      modifies this, os, sdpReg
      ensures Valid()
      ensures var l := ServerListenWithSdp(old(State()), unregOk, ch, env, sdp);
              ok == l.ok && State() == l.server && os.log == old(os.log) + l.calls
      ensures var up := if ok then State().(reg := None) else State();
              if sdp.hasRecord && sdp.session >= 0 && sdp.registers then ListenResult(ch, env, ok, up)
              else !ok && up == ServerState(-1, 0, None)
      ensures ok ==> sdpReg != null && sdpReg.session == Some(sdp.session)
                     && channel != 0 && sdpReg.record == Some(SdpSearch.RecordFor(channel))
    {
      hide ServerListen;
      var up := Listen(ch, env, unregOk);
      if !up {
        return false;
      }
      ghost var l := ServerListen(old(State()), unregOk, ch, env).calls;
      ghost var c := CreateCalls(channel, sdp).1;
      sdpReg := CreateRegistration(os, channel, sdp);
      Assoc(old(os.log), l, c);
      Assoc(old(os.log), l + c, CloseCalls(listenFd));
      if sdpReg == null {
        Close(true);
        return false;
      }
      return true;
    }

    /** `accept` returns `fd`, a negative one being a failure, with stream `conn` behind it and the
        peer's address and channel filled in. */
    method Accept(fd: int, conn: Connection, remote: array<byte>, remoteCh: byte, local: Option<byte>)
      returns (s: Socket?)
      requires Valid() && conn.open && remote.Length == 6
      modifies os
      ensures if listenFd == -1 then s == null && os.log == old(os.log)
              else if fd < 0 then s == null && os.log == old(os.log) + [Use(listenFd)]
              else
                && s != null && fresh(s) && s.Valid() && s.os == os && s.handle == fd && s.conn == conn
                && s.peer.bytes == Numerals.Reverse(remote[..]) && s.peerCh == remoteCh
                && os.log == old(os.log) + ([Use(listenFd)] + [Open(fd)])
    {
      if listenFd == -1 {
        return null;
      }
      os.Note(Use(listenFd));
      if fd < 0 {
        return null;
      }
      os.Note(Open(fd));
      var peer := Platform.BdaddrToAddress(remote);
      s := new Socket.FromNative(os, fd, conn, peer, remoteCh, local);
    }
  }

  /** `Client::connect`: the handle goes into the returned socket or is given back. */
  method Connect(os: Kernel, addr: Addresses.Address, channel: byte, env: DialEnv, conn: Connection)
    returns (s: Socket?)
    requires conn.open
    modifies os
    ensures s != null <==> env.fd >= 0 && env.connects
    ensures os.log == old(os.log) +
            if env.fd < 0 then []
            else if env.connects then [Open(env.fd), Use(env.fd)]
            else [Open(env.fd), Use(env.fd), Syscall.Close(env.fd)]
    ensures var d := Dial(env);
            && os.log == old(os.log) + d.1
            && (s != null <==> d.0 >= 0)
            && (s != null ==>
                && fresh(s) && s.Valid() && s.os == os && s.handle == d.0 && s.conn == conn
                && s.peer == addr && s.peerCh == channel)
  {
    if env.fd < 0 {
      return null;
    }
    os.Note(Open(env.fd));
    os.Note(Use(env.fd));
    if !env.connects {
      os.Note(Syscall.Close(env.fd));
      return null;
    }
    s := new Socket.FromNative(os, env.fd, conn, addr, channel, env.local);
  }

  /** What a look-up comes to when the query answers `response`. */
  function LookupOf(session: int, status: int, response: seq<SdpSearch.Record>): Lookup {
    Lookup(session, status == 0 && SdpSearch.FirstHit(SdpSearch.Chains(response)).Some?)
  }

  /** `Client::connect_by_sdp`: the session of the look-up is over before the connection is tried,
      and the connection goes to the channel the search found. */
  method ConnectBySdp(os: Kernel, session: int, status: int, response: seq<SdpSearch.Record>,
                      addr: Addresses.Address, env: DialEnv, conn: Connection)
    returns (s: Socket?)
    requires conn.open
    modifies os
    ensures s != null <==>
            && session >= 0 && status == 0 && SdpSearch.FirstHit(SdpSearch.Chains(response)).Some?
            && env.fd >= 0 && env.connects
    ensures var d := DialBySdp(LookupOf(session, status, response), env);
            && os.log == old(os.log) + d.1
            && (s != null <==> d.0 >= 0)
            && (s != null ==>
                && fresh(s) && s.Valid() && s.os == os && s.handle == d.0 && s.conn == conn
                && s.peer == addr && Some(s.peerCh) == SdpSearch.FirstHit(SdpSearch.Chains(response)))
  {
    if session >= 0 {
      os.Note(SdpOpen(session));
      os.Note(SdpClose(session));
    }
    var channel := SdpSearch.ResolveChannel(session >= 0, status, response);
    if channel == None {
      return null;
    }
    s := Connect(os, addr, channel.value, env, conn);
  }
}
