/** What the library's objects own, and which system calls each lifecycle operation makes.

    The outcomes the kernel or the SDP daemon decide are parameters. */
module Lifecycle {
  import opened Prelude
  import opened Syscalls

  // ---- servers ----

  /** Listening handle (-1 when closed), its channel (0 when closed), and the SDP session of the
      registration that is up, if any. */
  datatype ServerState = ServerState(fd: int, channel: int, reg: Option<int>)

  const CLOSED := ServerState(-1, 0, None)

  /** socket() returns `fd`; bind works on exactly the channels in `bindable`. */
  datatype ListenEnv = ListenEnv(fd: int, bindable: set<int>, listens: bool)

  /** What happens to `Registration::create`; a negative session is a failed connect. */
  datatype SdpEnv = SdpEnv(hasRecord: bool, session: int, registers: bool)

  function CloseCalls(h: int): seq<Syscall> {
    if h >= 0 then [Close(h)] else []
  }

  function UnregisterCalls(reg: Option<int>, ok: bool): seq<Syscall> {
    if reg.Some? then [Unregister(reg.value, ok), SdpClose(reg.value)] else []
  }

  function ServerCloseCalls(s: ServerState, ok: bool): seq<Syscall> {
    UnregisterCalls(s.reg, ok) + CloseCalls(s.fd)
  }

  /** The first bindable channel from `ch` to 30, or 0. */
  function Scan(bindable: set<int>, ch: int): int
    decreases 31 - ch
  {
    if ch > 30 then 0 else if ch in bindable then ch else Scan(bindable, ch + 1)
  }

  /** The bind attempts of the scan. */
  function ScanCalls(fd: int, bindable: set<int>, ch: int): seq<Syscall>
    decreases 31 - ch
  {
    if ch > 30 then []
    else if ch in bindable then [Bind(fd, ch)]
    else [Use(fd)] + ScanCalls(fd, bindable, ch + 1)
  }

  function BoundChannel(channel: int, env: ListenEnv): int {
    if channel != 0 then (if channel in env.bindable then channel else 0) else Scan(env.bindable, 1)
  }

  function BindCalls(channel: int, env: ListenEnv): seq<Syscall> {
    if channel != 0 then [if channel in env.bindable then Bind(env.fd, channel) else Use(env.fd)]
    else ScanCalls(env.fd, env.bindable, 1)
  }

  datatype Listened = Listened(ok: bool, server: ServerState, calls: seq<Syscall>)

  /** Everything `listen` does after closing what was there before. */
  function Bring(channel: int, env: ListenEnv): Listened {
    if env.fd < 0 then Listened(false, CLOSED, [])
    else
      var bound := BoundChannel(channel, env);
      var calls := [Open(env.fd)] + BindCalls(channel, env);
      if bound == 0 then Listened(false, CLOSED, calls + [Close(env.fd)])
      else if !env.listens then Listened(false, CLOSED, calls + [Use(env.fd)] + [Close(env.fd)])
      else Listened(true, ServerState(env.fd, bound, None), calls + [Listen(env.fd)])
  }

  /** What `Registration::create` does for a server listening on `channel`. */
  function CreateCalls(channel: int, sdp: SdpEnv): (Option<int>, seq<Syscall>) {
    if !sdp.hasRecord || sdp.session < 0 then (None, [])
    else if !sdp.registers then (None, [SdpOpen(sdp.session)] + [SdpClose(sdp.session)])
    else (Some(sdp.session), [SdpOpen(sdp.session)] + [Register(sdp.session, channel)])
  }

  function ServerListen(s: ServerState, unregOk: bool, channel: int, env: ListenEnv): Listened {
    var b := Bring(channel, env);
    b.(calls := ServerCloseCalls(s, unregOk) + b.calls)
  }

  function ServerListenWithSdp(s: ServerState, unregOk: bool, channel: int, env: ListenEnv, sdp: SdpEnv): Listened {
    var l := ServerListen(s, unregOk, channel, env);
    if !l.ok then l
    else
      var (reg, calls) := CreateCalls(l.server.channel, sdp);
      if reg.Some? then Listened(true, l.server.(reg := reg), l.calls + calls)
      else Listened(false, CLOSED, l.calls + calls + CloseCalls(l.server.fd))
  }

  /** What a `listen` on `channel` must come to: an asked-for channel is taken or the call fails;
      0 asks for the least channel of 1..30 that can be bound. */
  ghost predicate ListenResult(channel: int, env: ListenEnv, ok: bool, server: ServerState) {
    && (ok <==>
        && env.fd >= 0 && env.listens
        && if channel != 0 then channel in env.bindable else exists c :: 1 <= c <= 30 && c in env.bindable)
    && (!ok ==> server == ServerState(-1, 0, None))
    && (ok ==> server.fd == env.fd && server.reg == None)
    && (ok && channel != 0 ==> server.channel == channel)
    && (ok && channel == 0 ==>
        && 1 <= server.channel <= 30 && server.channel in env.bindable
        && forall c :: 1 <= c < server.channel ==> c !in env.bindable)
  }

  lemma BringExact(channel: int, env: ListenEnv)
    ensures ListenResult(channel, env, Bring(channel, env).ok, Bring(channel, env).server)
  {
    ScanIsLeast(env.bindable, 1);
    if channel != 0 && channel in env.bindable {
      assert BoundChannel(channel, env) == channel;
    } else if channel == 0 && exists c :: 1 <= c <= 30 && c in env.bindable {
      var c :| 1 <= c <= 30 && c in env.bindable;
      assert Scan(env.bindable, 1) != 0;
    }
  }

  /** `n` calls on `fd` that change nothing. */
  function Uses(fd: int, n: int): seq<Syscall> {
    seq(Max(0, n), _ => Use(fd))
  }

  lemma {:induction false} ScanTries(fd: int, bindable: set<int>, ch: int)
    requires 1 <= ch <= 31
    ensures var c := Scan(bindable, ch);
            ScanCalls(fd, bindable, ch) ==
            if c == 0 then Uses(fd, 31 - ch) else if c < ch then [] else Uses(fd, c - ch) + [Bind(fd, c)]
    ensures Scan(bindable, ch) == 0 || Scan(bindable, ch) >= ch
    decreases 31 - ch
  {
    if ch <= 30 && ch !in bindable {
      ScanTries(fd, bindable, ch + 1);
      var c := Scan(bindable, ch);
      var n := if c == 0 then 31 - ch else c - ch;
      assert Uses(fd, n) == [Use(fd)] + Uses(fd, n - 1);
      if c != 0 {
        Assoc([Use(fd)], Uses(fd, n - 1), [Bind(fd, c)]);
      }
    }
  }

  /** The calls of a `listen` whose socket could be made: an asked-for channel is tried alone, the
      scan tries upwards from 1 and stops at the first that works; the handle is closed exactly
      when binding or listening failed. */
  lemma BringTries(channel: int, env: ListenEnv)
    requires env.fd >= 0
    ensures var b := Bring(channel, env);
            var c := Scan(env.bindable, 1);
            var tries :=
              if channel != 0 then [if channel in env.bindable then Bind(env.fd, channel) else Use(env.fd)]
              else if c == 0 then Uses(env.fd, 30)
              else Uses(env.fd, c - 1) + [Bind(env.fd, c)];
            var bound := if channel != 0 then channel in env.bindable else c != 0;
            b.calls == [Open(env.fd)] + tries +
              if !bound then [Close(env.fd)]
              else if !env.listens then [Use(env.fd)] + [Close(env.fd)]
              else [Listen(env.fd)]
    ensures Bring(channel, env.(fd := -1)) == Listened(false, ServerState(-1, 0, None), [])
  {
    hide Scan, ScanCalls, Uses;
    ScanTries(env.fd, env.bindable, 1);
    Assoc([Open(env.fd)] + BindCalls(channel, env), [Use(env.fd)], [Close(env.fd)]);
  }

  /** The scan takes the least bindable channel of 1..30, and fails exactly when there is none. */
  lemma {:induction false} ScanIsLeast(bindable: set<int>, ch: int)
    requires 1 <= ch
    ensures var c := Scan(bindable, ch);
            if c == 0 then forall k :: ch <= k <= 30 ==> k !in bindable
            else ch <= c <= 30 && c in bindable && forall k :: ch <= k < c ==> k !in bindable
    decreases 31 - ch
  {
    if ch <= 30 && ch !in bindable {
      ScanIsLeast(bindable, ch + 1);
    }
  }

  // ---- connecting ----

  /** socket() returns `fd`, connect() succeeds or not, getsockname() names a local channel or not. */
  datatype DialEnv = DialEnv(fd: int, connects: bool, local: Option<byte>)

  /** The handle `Client::connect` ends up with, or -1. */
  function Dial(env: DialEnv): (int, seq<Syscall>) {
    if env.fd < 0 then (-1, [])
    else if env.connects then (env.fd, [Open(env.fd)] + [Use(env.fd)])
    else (-1, [Open(env.fd)] + [Use(env.fd)] + [Close(env.fd)])
  }

  /** The channel look-up of `connect_by_sdp`: its session (negative when there is none) and
      whether the search finds a channel. */
  datatype Lookup = Lookup(session: int, found: bool)

  function LookupCalls(l: Lookup): seq<Syscall> {
    if l.session >= 0 then [SdpOpen(l.session)] + [SdpClose(l.session)] else []
  }

  function DialBySdp(l: Lookup, env: DialEnv): (int, seq<Syscall>) {
    if l.session >= 0 && l.found then (Dial(env).0, LookupCalls(l) + Dial(env).1)
    else (-1, LookupCalls(l))
  }

  /** A connection stands exactly when the socket could be made and connecting worked; the handle
      is closed again exactly when connecting failed. */
  lemma DialExact(env: DialEnv)
    ensures Dial(env).0 == if env.fd >= 0 && env.connects then env.fd else -1
    ensures Dial(env).1 ==
            if env.fd < 0 then []
            else if env.connects then [Open(env.fd)] + [Use(env.fd)]
            else [Open(env.fd)] + [Use(env.fd)] + [Close(env.fd)]
    ensures Close(env.fd) in Dial(env).1 <==> env.fd >= 0 && !env.connects
  {
  }

  /** Over a look-up, in addition only when its session is up and a channel was found. */
  lemma DialBySdpExact(l: Lookup, env: DialEnv)
    ensures DialBySdp(l, env).0 ==
            if l.session >= 0 && l.found && env.fd >= 0 && env.connects then env.fd else -1
    ensures DialBySdp(l, env).1 ==
            (if l.session >= 0 then [SdpOpen(l.session)] + [SdpClose(l.session)] else [])
            + (if l.session >= 0 && l.found then Dial(env).1 else [])
  {
  }

  /** A registration stands exactly when there is a record, a session and a successful register
      call, which names the channel; a session that cannot register is ended again. */
  lemma CreateExact(channel: int, sdp: SdpEnv)
    ensures CreateCalls(channel, sdp).0 ==
            if sdp.hasRecord && sdp.session >= 0 && sdp.registers then Some(sdp.session) else None
    ensures CreateCalls(channel, sdp).1 ==
            if !sdp.hasRecord || sdp.session < 0 then []
            else [SdpOpen(sdp.session)]
                 + [if sdp.registers then Register(sdp.session, channel) else SdpClose(sdp.session)]
  {
  }

  /** `listen_with_sdp` comes to what `listen` comes to, with the registration on top, if one can
      be made; otherwise to a closed server. */
  lemma ListenWithSdpExact(s: ServerState, unregOk: bool, channel: int, env: ListenEnv, sdp: SdpEnv)
    ensures var l := ServerListenWithSdp(s, unregOk, channel, env, sdp);
            if sdp.hasRecord && sdp.session >= 0 && sdp.registers then
              && ListenResult(channel, env, l.ok, l.server.(reg := None))
              && (l.ok <==> l.server.fd >= 0) && (l.ok ==> l.server.reg == Some(sdp.session))
              && (!l.ok ==> l.server.reg == None)
            else !l.ok && l.server == ServerState(-1, 0, None)
  {
    hide Scan, ScanCalls;
    BringExact(channel, env);
  }
}
