/** The kernel as mutable objects.  Outcomes that the kernel alone decides are parameters or part
    of a stream's schedule, so a claim about a caller holds for every choice of them. */
module Kernels {
  import opened Prelude
  import Os
  import opened Syscalls

  /** The kernel's end of one connected stream.  Calls on a closed handle are not allowed. */
  class Connection {
    var open: bool
    var inn: Os.Inbound
    var out: Os.Outbound
    var mode: Os.Mode
    ghost var recvModes: seq<bool>    // whether each recv so far was made in blocking mode

    constructor (inn: Os.Inbound, out: Os.Outbound, mode: Os.Mode)
      ensures open && this.inn == inn && this.out == out && this.mode == mode
    {
      open := true;
      this.inn, this.out, this.mode := inn, out, mode;
      recvModes := [];
    }

    method Recv(size: nat) returns (ret: int, data: seq<byte>)
      requires open && size > 0
      modifies this`inn, this`recvModes
      ensures var r := Os.Recv(old(inn), size);
              ret == r.ret && data == r.data && inn == r.net
      ensures recvModes == old(recvModes) + [mode.blocking]
    {
      recvModes := recvModes + [mode.blocking];
      var r := Os.Recv(inn, size);
      ret, data, inn := r.ret, r.data, r.net;
    }

    method Send(data: seq<byte>) returns (ret: int)
      requires open && data != []
      modifies this`out
      ensures (ret, out) == Os.Send(old(out), data)
    {
      var r := Os.Send(out, data);
      ret, out := r.0, r.1;
    }

    method SetBlocking(on: bool) returns (ok: bool)
      requires open
      modifies this`mode
      ensures (ok, mode) == Os.SetBlocking(old(mode), on)
    {
      var r := Os.SetBlocking(mode, on);
      ok, mode := r.0, r.1;
    }
  }

  /** The lifecycle calls made so far. */
  class Kernel {
    ghost var log: seq<Syscall>

    constructor ()
      ensures log == []
    {
      log := [];
    }

    ghost method Note(c: Syscall)
      modifies this
      ensures log == old(log) + [c]
    {
      log := log + [c];
    }
  }
}
