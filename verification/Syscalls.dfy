/** The lifecycle system calls as a trace, and what makes a trace safe. */
module Syscalls {
  datatype Syscall =
    | Open(h: int)                  // socket() or accept() returned h
    | Use(h: int)                   // any call on h that changes nothing below
    | Bind(h: int, ch: int)         // successful bind to an RFCOMM channel
    | Listen(h: int)                // successful listen
    | Close(h: int)
    | SdpOpen(s: int)               // sdp_connect returned session s
    | Register(s: int, ch: int)     // record for channel ch published on session s
    | Unregister(s: int, ok: bool)  // sdp_record_unregister, whose result the library ignores
    | SdpClose(s: int)              // ends the session and whatever it still publishes

  datatype OsState = OsState(
    live: set<int>,
    bound: map<int, int>,
    listening: set<int>,
    sessions: set<int>,
    published: map<int, int>)

  const BOOT := OsState({}, map[], {}, {}, map[])

  function Apply(st: OsState, c: Syscall): OsState {
    match c
    case Open(h) => st.(live := st.live + {h})
    case Use(_) => st
    case Bind(h, ch) => st.(bound := st.bound[h := ch])
    case Listen(h) => st.(listening := st.listening + {h})
    case Close(h) => st.(live := st.live - {h}, bound := st.bound - {h}, listening := st.listening - {h})
    case SdpOpen(s) => st.(sessions := st.sessions + {s})
    case Register(s, ch) => st.(published := st.published[s := ch])
    case Unregister(s, ok) => if ok then st.(published := st.published - {s}) else st
    case SdpClose(s) => st.(sessions := st.sessions - {s}, published := st.published - {s})
  }

  /** No call on a handle or session that is not open, and none opened twice. */
  predicate Lawful(st: OsState, c: Syscall) {
    match c
    case Open(h) => h !in st.live
    case Use(h) => h in st.live
    case Bind(h, _) => h in st.live
    case Listen(h) => h in st.live && h in st.bound
    case Close(h) => h in st.live
    case SdpOpen(s) => s !in st.sessions
    case Register(s, _) => s in st.sessions
    case Unregister(s, _) => s in st.sessions && s in st.published
    case SdpClose(s) => s in st.sessions
  }

  /** Every published record names the channel of an open listening handle. */
  ghost predicate Backed(st: OsState) {
    forall s :: s in st.published ==>
      exists h :: h in st.listening && h in st.live && h in st.bound && st.bound[h] == st.published[s]
  }

  function Replay(st: OsState, log: seq<Syscall>): OsState
    decreases |log|
  {
    if log == [] then st else Replay(Apply(st, log[0]), log[1..])
  }

  /** Every call of the trace is lawful where it happens and leaves every record backed. */
  ghost predicate Safe(st: OsState, log: seq<Syscall>)
    decreases |log|
  {
    log == [] || (Lawful(st, log[0]) && Backed(Apply(st, log[0])) && Safe(Apply(st, log[0]), log[1..]))
  }

  lemma {:induction false} ReplayAppend(st: OsState, a: seq<Syscall>, b: seq<Syscall>)
    ensures Replay(st, a + b) == Replay(Replay(st, a), b)
    ensures Safe(st, a) && Safe(Replay(st, a), b) ==> Safe(st, a + b)
    decreases |a|
  {
    if a == [] {
      assert a + b == b;
    } else {
      assert (a + b)[1..] == a[1..] + b;
      ReplayAppend(Apply(st, a[0]), a[1..], b);
    }
  }

  lemma One(st: OsState, c: Syscall)
    requires Lawful(st, c) && Backed(Apply(st, c))
    ensures Safe(st, [c]) && Replay(st, [c]) == Apply(st, c)
  {
  }

  /** One more call behind a safe trace. */
  lemma Then(st: OsState, log: seq<Syscall>, c: Syscall)
    requires Safe(st, log) && Lawful(Replay(st, log), c) && Backed(Apply(Replay(st, log), c))
    ensures Safe(st, log + [c]) && Replay(st, log + [c]) == Apply(Replay(st, log), c)
  {
    One(Replay(st, log), c);
    ReplayAppend(st, log, [c]);
  }
}
