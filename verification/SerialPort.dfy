/** `rfcomm::SerialPort`: the read-ahead cache over one socket. */
module SerialPorts {
  import opened Prelude
  import Os
  import Transfer
  import P = PortSpec
  import opened Syscalls
  import opened Kernels
  import opened Lifecycle
  import opened Sockets
  import Addresses
  import SdpSearch
  import Servers

  /** At least one recv was made since then, and all of them in this mode. */
  predicate MadeRecvs(before: seq<bool>, after: seq<bool>, blocking: bool) {
    before < after && forall i :: |before| <= i < |after| ==> after[i] == blocking
  }

  class SerialPort {
    const os: Kernel
    var sock: Socket?
    var rxBuf: seq<byte>
    var rxHead: nat

    /** What every operation keeps.  A closed port never carries bytes over to the next session. */
    ghost predicate Valid()
      reads this, sock, Conn()
    {
      && rxHead <= |rxBuf| <= P.CHUNK
      && (sock == null ==> rxBuf == [])
      && (sock != null ==> sock.os == os && sock.Valid() && sock.handle != INVALID)
    }

    /** The connection behind an open port. */
    ghost function Conn(): set<Connection>
      reads this, sock
    {
      if sock == null then {} else {sock.conn}
    }

    /** The port as its readers see it. */
    ghost function View(): P.Port
      requires sock != null && rxHead <= |rxBuf|
      reads this, sock, Conn()
    {
      P.Port(rxBuf[rxHead..], sock.conn.inn)
    }

    constructor (os: Kernel)
      ensures Valid() && this.os == os && sock == null && rxBuf == []
    {
      this.os := os;
      sock, rxBuf, rxHead := null, [], 0;
    }

    predicate IsOpen()
      reads this, sock
    {
      sock != null && sock.handle != INVALID
    }

    method ClearRxCache()
      modifies this`rxBuf, this`rxHead
      ensures rxBuf == [] && rxHead == 0
    {
      rxBuf, rxHead := [], 0;
    }

    function CachedBytesAvailable(): (n: nat)
      requires rxHead <= |rxBuf|
      reads this
      ensures n == |rxBuf[rxHead..]|
    {
      |rxBuf| - rxHead
    }

    /** Also right on a partly read cache; only an exhausted one keeps the buffer within bounds. */
    method RefillRxCache() returns (ok: bool)
      requires rxHead <= |rxBuf|
      requires sock != null && sock.Valid() && sock.handle != INVALID
      modifies this`rxBuf, this`rxHead, sock.conn`inn, sock.conn`recvModes
      ensures rxHead <= |rxBuf|
      ensures (ok, View()) == P.Refill(old(View()))
      ensures old(rxHead == |rxBuf|) ==> rxHead == 0 && |rxBuf| <= P.CHUNK && (ok <==> rxBuf != [])
    {
      hide Os.Recv;
      if rxHead >= |rxBuf| {
        ClearRxCache();
      }
      var chunk := new byte[P.CHUNK];
      var r, data := sock.Recv(chunk, 0, P.CHUNK);
      if r <= 0 {
        assert old(View()).cache + data == old(View()).cache;
        return false;
      }
      assert chunk[..r] == data;
      if rxHead > 0 {
        rxBuf := rxBuf[rxHead..];
        rxHead := 0;
      }
      rxBuf := rxBuf + chunk[..r];
      return true;
    }

    /** Hands over cached bytes into `buffer[from..]`, as many as fit. */
    method TakeFromCache(buffer: array<byte>, from: nat) returns (copied: nat, ghost got: seq<byte>)
      requires rxHead <= |rxBuf| && from <= buffer.Length
      modifies this`rxHead, buffer
      ensures rxHead <= |rxBuf| && Wrote(buffer, from, got) && copied == |got|
      ensures copied == Min(|old(rxBuf[rxHead..])|, buffer.Length - from)
      ensures old(rxBuf[rxHead..]) == got + rxBuf[rxHead..]
    {
      copied := Min(CachedBytesAvailable(), buffer.Length - from);
      got := rxBuf[rxHead..rxHead + copied];
      forall i | 0 <= i < copied {
        buffer[from + i] := rxBuf[rxHead + i];
      }
      rxHead := rxHead + copied;
    }

    /** Reads into `buffer[from..]`. */
    method Read(buffer: array<byte>, from: nat) returns (copied: nat, ghost got: seq<byte>)
      requires Valid() && from <= buffer.Length
      modifies this`rxHead, buffer, Conn()`inn, Conn()`recvModes
      ensures Valid()
      ensures Wrote(buffer, from, got) && copied == |got| <= buffer.Length - from
      ensures if sock == null || from == buffer.Length then got == [] && (sock != null ==> View() == old(View()))
              else (got, View()) == P.Read(old(View()), buffer.Length - from)
    {
      hide Os.Recv;
      if !IsOpen() || from == buffer.Length {
        return 0, [];
      }
      ghost var before := View();
      copied, got := 0, [];
      if CachedBytesAvailable() > 0 {
        copied, got := TakeFromCache(buffer, from);
        FrontBack(before.cache, got, rxBuf[rxHead..]);
        if copied == buffer.Length - from {
          return;
        }
      }
      assert rxBuf[rxHead..] == [] && got == before.cache;
      var r, data := sock.Recv(buffer, from + copied, buffer.Length);
      got := got + data;
      if r > 0 {
        copied := copied + r;
      }
    }

    method ReadExact(buffer: array<byte>) returns (ok: bool, ghost got: seq<byte>)
      requires Valid()
      modifies this`rxHead, buffer, Conn()`inn, Conn()`recvModes
      ensures Valid()
      ensures Wrote(buffer, 0, got)
      ensures if sock == null then ok == (buffer.Length == 0) && got == []
              else P.Filled(ok, got, View()) == P.ReadExact(old(View()), buffer.Length, [])
    {
      hide Os.Recv, P.Read, P.ReadExact;
      var total := 0;
      got := [];
      ghost var goal := if sock != null then Some(P.ReadExact(View(), buffer.Length, [])) else None;
      while total < buffer.Length
        invariant total == |got| <= buffer.Length && Valid() && Wrote(buffer, 0, got)
        invariant sock == null ==> got == []
        invariant sock != null ==> goal == Some(P.ReadExact(View(), buffer.Length, got))
      {
        ghost var before := if sock != null then Some(View()) else None;
        var n, d := Read(buffer, total);
        if before.Some? {
          P.ReadExactStep(before.value, buffer.Length, got);
        }
        if n == 0 {
          return false, got;
        }
        got := got + d;
        total := total + n;
      }
      if sock != null {
        P.ReadExactStep(View(), buffer.Length, got);
      }
      return true, got;
    }

    method ReadByte() returns (b: Option<byte>)
      requires Valid()
      modifies this`rxBuf, this`rxHead, Conn()`inn, Conn()`recvModes
      ensures Valid()
      ensures sock != null ==> (b, View()) == P.ReadByte(old(View()))
      ensures sock == null ==> b == None
    {
      hide Os.Recv;
      if !IsOpen() {
        return None;
      }
      if CachedBytesAvailable() == 0 {
        var ok := RefillRxCache();
        if !ok {
          return None;
        }
      }
      if CachedBytesAvailable() > 0 {
        b := Some(rxBuf[rxHead]);
        rxHead := rxHead + 1;
        return;
      }
      return None;
    }

    /** The inner loop of `read_line`: `line` grows by cached bytes up to the delimiter, if it is
        there; otherwise the cache is used up. */
    method TakeCached(line: seq<byte>, d: byte, ghost clock: seq<bool>) returns (more: seq<byte>, done: bool)
      requires rxHead <= |rxBuf| && sock != null
      modifies this`rxHead
      ensures rxHead <= |rxBuf|
      ensures !done ==> rxHead == |rxBuf|
      ensures P.ReadLine(old(View()), line, d, clock) ==
              if done then P.Line(more, P.Terminated, View()) else P.ReadLine(View(), more, d, clock)
    {
      hide P.Refill, P.ReadLine;
      more := line;
      while CachedBytesAvailable() > 0
        invariant rxHead <= |rxBuf|
        invariant P.ReadLine(old(View()), line, d, clock) == P.ReadLine(View(), more, d, clock)
        decreases |rxBuf| - rxHead
      {
        ghost var v := View();
        P.ReadLineStep(v, more, d, clock);
        var c := rxBuf[rxHead];
        rxHead := rxHead + 1;
        assert c == v.cache[0] && View() == v.(cache := v.cache[1..]);
        if c == d {
          if more != [] && more[|more| - 1] == CR {
            more := more[..|more| - 1];
          }
          return more, true;
        }
        more := more + [c];
      }
      return more, false;
    }

    /** `clock` holds the outcomes of the deadline tests, made only for a positive timeout. */
    method ReadLine(d: byte, timeout: int, clock: seq<bool>) returns (line: seq<byte>)
      requires Valid()
      modifies this`rxBuf, this`rxHead, Conn()`inn, Conn()`recvModes
      ensures Valid()
      ensures sock == null ==> line == []
      ensures sock != null ==>
                var r := P.ReadLine(old(View()), [], d, if timeout > 0 then clock else []);
                line == r.text && View() == r.port
    {
      if !IsOpen() {
        return [];
      }
      hide Os.Recv, P.Refill, P.ReadLine;
      line := [];
      var tests := if timeout > 0 then clock else [];
      ghost var goal := P.ReadLine(View(), [], d, tests);
      while true
        invariant Valid()
        invariant timeout <= 0 ==> tests == []
        invariant goal == P.ReadLine(View(), line, d, tests)
        decreases |sock.conn.inn.script| - sock.conn.inn.next
      {
        var done;
        line, done := TakeCached(line, d, tests);
        if done {
          return line;
        }
        P.ReadLineStep(View(), line, d, tests);
        if timeout > 0 {
          if tests != [] && tests[0] {
            break;
          }
          tests := if tests == [] then [] else tests[1..];
        }
        var ok := RefillRxCache();
        if !ok {
          break;
        }
      }
      return line;
    }

    /** The loop of `purge`: reads and forgets until a recv fails. */
    method DrainSocket(ghost cache: seq<byte>)
      requires sock != null && sock.Valid() && sock.handle != INVALID
      modifies sock.conn`inn, sock.conn`recvModes
      ensures sock.conn.inn == P.Drain(old(sock.conn.inn), cache).1
      ensures MadeRecvs(old(sock.conn.recvModes), sock.conn.recvModes, sock.conn.mode.blocking)
    {
      hide Os.Recv, P.Drain;
      ghost var dropped := cache;
      var drainBuf := new byte[P.CHUNK];
      while true
        invariant P.Drain(old(sock.conn.inn), cache) == P.Drain(sock.conn.inn, dropped)
        invariant sock.conn.recvModes == old(sock.conn.recvModes)
                  || MadeRecvs(old(sock.conn.recvModes), sock.conn.recvModes, sock.conn.mode.blocking)
        decreases |sock.conn.inn.script| - sock.conn.inn.next
      {
        P.DrainStep(sock.conn.inn, dropped);
        var r, d := sock.Recv(drainBuf, 0, P.CHUNK);
        if r <= 0 {
          break;
        }
        dropped := dropped + d;
      }
    }

    /** Without the Rx flag nothing changes; the Tx flag has no effect of its own.  Once switching
        to non-blocking mode has worked, no recv of the drain can block. */
    method Purge(flags: P.PurgeFlags)
      requires Valid()
      modifies this`rxBuf, this`rxHead, Conn()`inn, Conn()`recvModes, Conn()`mode
      ensures Valid()
      ensures sock != null ==>
                && View() == (if flags.rx then P.PurgeRx(old(View())).1 else old(View()))
                && sock.conn.mode == (if flags.rx then P.PurgeMode(old(sock.conn.mode)) else old(sock.conn.mode))
      ensures sock != null && flags.rx ==>
                var m := old(sock.conn.mode);
                var blocking := m.blocking && !(m.changes != [] && m.changes[0]);
                MadeRecvs(old(sock.conn.recvModes), sock.conn.recvModes, blocking)
    {
      hide Os.Recv;
      if flags.rx {
        ClearRxCache();
        if sock != null {
          var _ := sock.SetBlocking(false);
          DrainSocket(old(rxBuf[rxHead..]));
          var _ := sock.SetBlocking(true);
        }
      }
    }

    method GetRxQueueStatus(ioctlOk: bool) returns (n: nat)
      requires Valid()
      ensures n == if sock == null then 0 else P.QueueStatus(View(), ioctlOk)
      ensures sock != null ==>
                n == |rxBuf| - rxHead + if ioctlOk then Min(sock.conn.inn.avail, |sock.conn.inn.ahead|) else 0
    {
      if !IsOpen() {
        return 0;
      }
      var inCache := CachedBytesAvailable();
      var socketPending := 0;
      if ioctlOk {
        socketPending := |Os.Pending(sock.conn.inn)|;
      }
      return inCache + socketPending;
    }

    method WriteLine(line: seq<byte>, eol: seq<byte>) returns (ok: bool)
      requires Valid()
      modifies Conn()`out
      ensures Valid()
      ensures sock == null ==> !ok
      ensures sock != null ==>
                var r := Transfer.SendAll(old(sock.conn.out), line + eol, 0);
                ok == r.ok && sock.conn.out == r.net
    {
      if !IsOpen() {
        return false;
      }
      var fullLine := line + eol;
      ok := sock.SendAll(fullLine);
    }

    method Write(data: seq<byte>) returns (n: nat)
      requires Valid()
      modifies Conn()`out
      ensures Valid()
      ensures sock == null || data == [] ==> n == 0
      ensures sock != null && data != [] ==>
                var r := Os.Send(old(sock.conn.out), data);
                sock.conn.out == r.1 && n == Max(0, r.0)
    {
      if !IsOpen() || data == [] {
        return 0;
      }
      var sent := sock.Send(data);
      n := if sent > 0 then sent else 0;
    }

    /** The cached bytes go with the session; the handle is given back once. */
    method Close()
      requires Valid()
      modifies this, os, Conn()`open, if sock != null then {sock} else {}
      ensures Valid() && sock == null
      ensures os.log == old(os.log) + (if old(sock) != null then [Syscall.Close(old(sock.handle))] else [])
    {
      ClearRxCache();
      if sock != null {
        sock.Close();
        sock := null;
      }
    }

    /** Takes over a connected socket; whatever the previous session left in the cache is gone. */
    method Attach(s: Socket?) returns (ok: bool)
      requires Valid() && (s != null ==> s.os == os && s.Valid() && s != sock)
      requires s != null && sock != null ==> s.conn != sock.conn
      modifies this, os, Conn()`open, if sock != null then {sock} else {}
      ensures Valid()
      ensures ok <==> s != null && s.handle != INVALID
      ensures if ok then sock == s && View() == P.Port([], s.conn.inn) else sock == null
      ensures os.log == old(os.log) + (if old(sock) != null then [Syscall.Close(old(sock.handle))] else [])
    {
      Close();
      if s == null || !s.IsOpen() {
        return false;
      }
      sock := s;
      return true;
    }

    /** `open` on what `Client::connect` makes of `dial`, with stream `conn` behind the handle. */
    method Open(addr: Addresses.Address, channel: byte, dial: DialEnv, conn: Connection) returns (ok: bool)
      requires Valid() && conn.open && (sock != null ==> conn != sock.conn)
      modifies this, os, Conn()`open, if sock != null then {sock} else {}
      ensures Valid()
      ensures ok <==> dial.fd >= 0 && dial.connects
      ensures if ok then
                && sock != null && sock.handle == dial.fd && View() == P.Port([], conn.inn)
                && sock.peer == addr && sock.peerCh == channel
              else sock == null
      ensures os.log ==
              old(os.log) + (if old(sock) != null then [Syscall.Close(old(sock.handle))] else []) + Dial(dial).1
    {
      Close();
      sock := Servers.Connect(os, addr, channel, dial, conn);
      return sock != null;
    }

    /** `open_by_uuid`, likewise on `Client::connect_by_sdp`. */
    method OpenByUuid(session: int, status: int, response: seq<SdpSearch.Record>,
                      addr: Addresses.Address, dial: DialEnv, conn: Connection)
      returns (ok: bool)
      requires Valid() && conn.open && (sock != null ==> conn != sock.conn)
      modifies this, os, Conn()`open, if sock != null then {sock} else {}
      ensures Valid()
      ensures var d := DialBySdp(Servers.LookupOf(session, status, response), dial);
              && (ok <==> d.0 >= 0)
              && (ok ==> d.0 == dial.fd && dial.connects && session >= 0 && status == 0)
              && (if ok then
                    && sock != null && sock.handle == d.0 && View() == P.Port([], conn.inn) && sock.peer == addr
                    && Some(sock.peerCh) == SdpSearch.FirstHit(SdpSearch.Chains(response))
                  else sock == null)
              && os.log == old(os.log) + (if old(sock) != null then [Syscall.Close(old(sock.handle))] else []) + d.1
    {
      Close();
      sock := Servers.ConnectBySdp(os, session, status, response, addr, dial, conn);
      return sock != null;
    }
  }
}
