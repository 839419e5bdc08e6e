/** `rfcomm::Socket`: a handle and the transfers on it. */
module Sockets {
  import opened Prelude
  import Addresses
  import Os
  import Transfer
  import opened Syscalls
  import opened Kernels
  import opened Lifecycle

  const INVALID: int := -1

  class Socket {
    const os: Kernel
    const conn: Connection
    const peer: Addresses.Address
    const peerCh: byte
    const localCh: byte
    var handle: int

    ghost predicate Valid()
      reads this, conn`open
    {
      IsOpen() ==> handle >= 0 && conn.open
    }

    predicate IsOpen()
      reads this
    {
      handle != INVALID
    }

    /** `from_native` on a connected handle; `local` is the channel `getsockname` names, if it works. */
    constructor FromNative(os: Kernel, handle: int, conn: Connection,
                           peer: Addresses.Address, peerCh: byte, local: Option<byte>)
      requires handle >= 0 && conn.open
      ensures this.os == os && this.conn == conn && this.handle == handle
      ensures this.peer == peer && this.peerCh == peerCh
      ensures localCh == match local { case Some(ch) => ch case None => 0 }
      ensures Valid() && IsOpen()
    {
      this.peer, this.peerCh := peer, peerCh;
      localCh := if local.Some? then local.value else 0;
      this.os := os;
      this.conn := conn;
      this.handle := handle;
    }

    method Send(data: seq<byte>) returns (sent: int)
      requires Valid()
      modifies conn`out
      ensures (sent, conn.out) ==
              if handle == INVALID || data == [] then (0, old(conn.out)) else Os.Send(old(conn.out), data)
    {
      if !IsOpen() || data == [] {
        return 0;
      }
      sent := conn.Send(data);
    }

    method SendAll(data: seq<byte>) returns (ok: bool)
      requires Valid()
      modifies conn`out
      ensures if handle != INVALID then
                var r := Transfer.SendAll(old(conn.out), data, 0);
                ok == r.ok && conn.out == r.net
              else ok == (data == []) && conn.out == old(conn.out)
    {
      var totalSent := 0;
      while totalSent < |data|
        invariant totalSent <= |data|
        invariant handle == INVALID ==> totalSent == 0 && conn.out == old(conn.out)
        invariant handle != INVALID ==>
            Transfer.SendAll(old(conn.out), data, 0) == Transfer.SendAll(conn.out, data, totalSent)
      {
        var sent := Send(data[totalSent..]);
        if sent <= 0 {
          return false;
        }
        totalSent := totalSent + sent;
      }
      return true;
    }

    /** Fills (part of) `buffer[from..to]` with `data`. */
    method Recv(buffer: array<byte>, from: nat, to: nat) returns (ret: int, ghost data: seq<byte>)
      requires Valid() && from <= to <= buffer.Length
      modifies conn`inn, conn`recvModes, buffer
      ensures Wrote(buffer, from, data)
      ensures |data| == Max(ret, 0) <= to - from
      ensures old(conn.inn).ahead == data + conn.inn.ahead
      ensures ret <= 0 ==> data == [] && conn.inn.ahead == old(conn.inn).ahead
      ensures if handle == INVALID || from == to then ret == 0 && conn.inn == old(conn.inn)
              else Os.Received(ret, data, conn.inn) == Os.Recv(old(conn.inn), to - from)
      ensures conn.recvModes ==
              old(conn.recvModes) + if handle == INVALID || from == to then [] else [conn.mode.blocking]
    {
      hide Os.Recv;
      if !IsOpen() || from == to {
        return 0, [];
      }
      var bytes;
      ret, bytes := conn.Recv(to - from);
      forall i | 0 <= i < |bytes| {
        buffer[from + i] := bytes[i];
      }
      data := bytes;
    }

    method RecvAll(buffer: array<byte>, from: nat, to: nat) returns (ok: bool, ghost got: seq<byte>)
      requires Valid() && from <= to <= buffer.Length
      modifies conn`inn, conn`recvModes, buffer
      ensures Wrote(buffer, from, got)
      ensures if handle != INVALID then
                Transfer.RecvResult(ok, got, conn.inn) == Transfer.RecvAll(old(conn.inn), to - from, [])
              else ok == (from == to) && got == [] && conn.inn == old(conn.inn)
    {
      hide Os.Recv, Transfer.RecvAll;
      var total := 0;
      got := [];
      ghost var goal := Transfer.RecvAll(conn.inn, to - from, []);
      while total < to - from
        invariant 0 <= total == |got| <= to - from
        invariant Wrote(buffer, from, got)
        invariant handle == INVALID ==> got == [] && conn.inn == old(conn.inn)
        invariant handle != INVALID ==> goal == Transfer.RecvAll(conn.inn, to - from, got)
      {
        Transfer.RecvAllStep(conn.inn, to - from, got);
        var r, d := Recv(buffer, from + total, to);
        if r <= 0 {
          return false, got;
        }
        got := got + d;
        total := total + r;
      }
      Transfer.RecvAllStep(conn.inn, to - from, got);
      return true, got;
    }

    method SetBlocking(on: bool) returns (ok: bool)
      requires Valid()
      modifies conn`mode
      ensures (ok, conn.mode) ==
              if handle == INVALID then (false, old(conn.mode)) else Os.SetBlocking(old(conn.mode), on)
    {
      if !IsOpen() {
        return false;
      }
      ok := conn.SetBlocking(on);
    }

    /** `close`, and equally the destructor: the handle is given back once and forgotten. */
    method Close()
      requires Valid()
      modifies this, os, conn`open
      ensures Valid() && !IsOpen()
      ensures os.log == old(os.log) + (if old(handle) >= 0 then [Syscall.Close(old(handle))] else [])
      ensures conn.open == (old(conn.open) && !old(IsOpen()))
    {
      if handle != INVALID {
        conn.open := false;
        os.Note(Syscall.Close(handle));
        handle := INVALID;
      }
    }
  }
}
