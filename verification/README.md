# SimpleRFCOMM in Dafny

A verified model of the stateful part of SimpleRFCOMM: the serial port's read-ahead cache, the
transfer loops below it, the line framing and the two demo protocols above it, the text and number
forms of addresses and UUIDs, the life of handles and SDP records, and the SDP channel search.

`dafny verify dfyconfig.toml` checks the whole project.

## How the system is modelled

**The kernel is an adversary fixed in advance** (`Os.dfy`). A connected stream carries the bytes the
peer ever sends and a finite schedule: for each `recv` how many more bytes have arrived and how much
is handed over at most, or that it fails; for each `send` how much is accepted or that it fails; for
each mode change whether it works. A spent schedule keeps failing. A lemma about every schedule is
a lemma about every fragmentation, every timing and every failure, and the schedule is also the
measure on which the blocking loops end.

**Code that mutates objects is code on classes**: `Sockets.Socket`, `SerialPorts.SerialPort`,
`Servers.Registration`, `Servers.Server`, over the kernel objects of `Kernel.dfy`. Each method is
proved equal to a function of the old state (`PortSpec`, `Transfer`, `Lifecycle`), and the laws are
proved about those functions over whole runs. Calls on a stream need its handle to be open; every
other call that opens, binds, publishes or closes something is written to a log of system calls.

**The three tiers of the stream.**

- `PortSpec`, `ReaderLaws` and `PortRuns`: each reader takes bytes off the front of one stream
  (cache, then pending, then not yet arrived), so any run of readers and purges conserves it, and
  the readers that do not depend on timing answer exactly as a plain list of bytes would; which recvs
  are made, for how much, and what ends a line is stated on the schedule itself.
- `Framing`: for which lines and line ends `write_line` then `read_line` is the identity, exactly.
- `AtProtocol`, `Echo`: two parties and two FIFOs as transition systems, with an invariant that every
  step keeps, freedom from deadlock and a rank that every step lowers. `AtParties` and `EchoParties`
  are the imperative halves; `AtRefinement` and `EchoRefinement` show that their turns, and each demo
  put together from them, are runs of the transition systems.

**Handles and records.** `Lifecycle` says which system calls every operation makes, `Syscalls` what
makes a trace of them safe, and `World` lets any number of sockets, ports and servers be created,
connected, accepted, attached, listened on, closed and destroyed in any order with every outcome
open. New handle and session numbers are only assumed not to be open at that moment, so numbers
may be reused.

**Codecs.** `Addresses`, `Uuids` and `Platform` keep the scanners as loops over mutable buffers,
proved against an explicit language and value. The Base UUID and the printed form are those of
section 2.5.1 of the Bluetooth Core Specification Vol 3 Part B and section 3 of RFC 4122.

## Where code and documentation part, and false properties

The model follows the code.

- `read_exact` is documented to stop at the first timeout (API_GUIDE.md:222). The code outlives one
  failed `recv`, exactly when it strikes right after a non-empty cache shorter than the request has
  been drained (`PortSpec.ReadExactCorrect`, condition `SwallowsFault`; input in
  `PortSpec.FaultOutlived`).
- `read_line` is documented to strip a trailing `\r` (API_GUIDE.md:224). It does so only in front of
  the delimiter: a line cut short by a timeout keeps it, and two pieces then make up the whole line
  if and only if the cut did not fall between `\r` and the delimiter (`PortSpec.ResumedLine`; input in
  `PortSpec.BadCut`).
- `purge` leaves the port blocking if and only if the switch back worked, or neither switch worked
  and it was blocking before; its result is not checked (`PortSpec.PurgeRestoresBlocking`; input in
  `PortSpec.PurgeLeavesNonBlocking`). The documented Tx purge has no effect
  (`SerialPorts.SerialPort.Purge`).
- The round trip of framed lines is false for a line that holds `\n`, with a bare `\n` as line end also
  for a line that ends in `\r`, and with any other line end for every non-empty list
  (`Framing.RoundTrip`; inputs in `Framing.Unframed`).
- The AT server's loop only tests `is_open()`, which a vanished peer does not change. It ends when it
  reads AT+QUIT and in no other way (`AtParties.EndsAtQuit`, `AtParties.OnlyQuitEnds`), so without a
  peer it spins (`AtParties.DeadPeerSpins`).
- The benchmark client accepts chunk size 0, with which its loop never ends
  (`EchoParties.EmptyChunkSpins`).
- The UUID parser takes dashes anywhere, or none, not just the documented form
  (`Uuids.OnlyDigitsMatter`).
- A record for channel 0 never resolves (`SdpSearch.RegisteredResolves`).

## Model

| member | source | states |
|---|---|---|
| Os.Recv | src/socket.cpp:88-89 | whatever the schedule says, `recv` hands over a non-empty front of the stream no longer than the buffer, or nothing and fails |
| Os.EveryRecv | src/socket.cpp:88-89 | whatever a recv may answer some schedule answers: the model rules out no failure, end of stream or fragment size |
| Os.EverySend | src/socket.cpp:63-64 | the same for send |
| Sockets.Socket.FromNative | src/socket.cpp:29-54 | the new socket owns the handle it was given and carries the peer's address and channel, and the local channel or 0 when that cannot be asked |
| Sockets.Socket.Send | src/socket.cpp:56-66 | 0 and no call for a closed socket or empty data, otherwise one `send` |
| Sockets.Socket.Recv | src/socket.cpp:81-91 | one `recv` into the asked part of the buffer, nothing else in the buffer touched; 0 and no call for a closed socket or empty range |
| Sockets.Socket.SendAll | src/socket.cpp:68-79 | the loop computes `Transfer.SendAll` on the kernel's schedule of partial sends |
| Transfer.SendAllTransmits | src/socket.cpp:68-79 | exactly the data goes out when true, a strict prefix when false |
| Transfer.SendAllUses | src/socket.cpp:68-79 | each send is for all that is left; when true every answer used was positive and the last one needed; when false the last answer used is the only non-positive one, or all were positive and there are no more: a failed send ends the transfer |
| Sockets.Socket.RecvAll | src/socket.cpp:93-104 | the loop computes `Transfer.RecvAll` on the kernel's schedule, into the asked part of the buffer only |
| Transfer.RecvAllFills | src/socket.cpp:93-104 | exactly the next n bytes of the stream when true; a strict prefix of them, after exactly one failed recv, when false |
| Transfer.RecvAllAsksForAll | src/socket.cpp:93-104 | each recv is for all that is left: an answer that can give that much is the last one |
| Transfer.TransferIsIdentity | src/socket.cpp:68-104 | a `send_all` and a `recv_all` of the same length that both succeed are the identity on bytes, and whatever is sent on the stream afterwards stays ahead of the receiver |
| Sockets.Socket.SetBlocking | src/socket.cpp:157-168 | false for a closed socket, otherwise the mode switch and whether it worked |
| Sockets.Socket.Close | src/socket.cpp:174-179 | also what the destructor (lines 12-17) does: an open handle is closed once and forgotten, a closed one is left alone |
| SerialPorts.SerialPort.RefillRxCache | src/serial_port.cpp:45-68 | from any state, partly read cache included, the logical cache grows by exactly what `recv` gave; an exhausted cache stays within 4096 bytes |
| PortSpec.RefillConserves | src/serial_port.cpp:45-68 | a refill takes nothing off the logical stream and only appends to the cache, or leaves it unchanged on failure |
| ReaderLaws.RefillAmount | src/serial_port.cpp:53-58 | a refill is one recv for 4096 bytes |
| SerialPorts.SerialPort.CachedBytesAvailable | src/serial_port.cpp:40-42 | the length of the unread part of the cache |
| SerialPorts.SerialPort.Read | src/serial_port.cpp:167-193 | cache first, then at most one `recv` into the rest of the buffer; the cache bound is kept |
| PortSpec.ReadConserves | src/serial_port.cpp:167-193 | `read` hands over the front of the stream; a full cache serves it without a `recv` |
| ReaderLaws.ReadAmount | src/serial_port.cpp:186-190 | a read the cache cannot serve is one recv for all that is missing |
| SerialPorts.SerialPort.ReadExact | src/serial_port.cpp:199-210 | the loop computes `PortSpec.ReadExact`; on a closed port true just for the empty buffer |
| PortSpec.ReadExactCorrect | src/serial_port.cpp:199-210 | true with the next n bytes of the stream, or false with a strict prefix of them; it outlives at most one failed recv and only right after draining a cache of 1 to n-1 bytes |
| PortSpec.FaultOutlived | src/serial_port.cpp:199-210 | an input on which a recv fails and `read_exact` succeeds |
| SerialPorts.SerialPort.ReadByte | src/serial_port.cpp:212-227 | the next cached byte, after a refill if the cache was exhausted |
| PortSpec.ReadByteConserves | src/serial_port.cpp:212-227 | exactly that byte leaves the stream; none only after a failed recv with nothing cached |
| ReaderLaws.ReadByteAmount | src/serial_port.cpp:212-227 | on an exhausted cache one whole refill is made and the rest of it stays cached |
| SerialPorts.SerialPort.TakeCached | src/serial_port.cpp:236-247 | scanning the cache moves `read_line` on without changing what it will come to |
| SerialPorts.SerialPort.ReadLine | src/serial_port.cpp:229-264 | the nested loops, with any outcomes of the deadline test, compute `PortSpec.ReadLine` |
| PortSpec.ReadLineCorrect | src/serial_port.cpp:229-264 | terminated: the stream up to its first delimiter less one `\r`, the stream left just past it; otherwise: exactly the bytes consumed, no delimiter among them, nothing stripped, cache empty |
| PortSpec.ReadLineIsBytewise | src/serial_port.cpp:212-264 | while no deadline passes the cached reader equals a loop over `read_byte` that stops at the delimiter and strips one `\r` |
| ReaderLaws.DeadlineEndsLine | src/serial_port.cpp:249-255 | a deadline that has passed when the cache runs out while the line is open ends it there with exactly the bytes so far, before another recv |
| ReaderLaws.FailureEndsLine | src/serial_port.cpp:257-263 | a failed recv after an unfired test ends the line with exactly the bytes so far |
| ReaderLaws.DelimiterEndsLine | src/serial_port.cpp:237-247 | a delimiter in that recv's bytes ends the line, and what follows it stays cached |
| ReaderLaws.LineEnding | src/serial_port.cpp:235-263 | a line times out if and only if a test made on an exhausted cache fires while it is open, and fails if and only if the recv after an unfired test fails |
| PortSpec.ResumedLine | src/serial_port.cpp:235-263 | a cut-short line and its continuation make up the uninterrupted line if and only if the cut was not between `\r` and the delimiter |
| PortSpec.BadCut | src/serial_port.cpp:235-263 | an input on which the two pieces make up a carriage return and the line is empty |
| SerialPorts.SerialPort.DrainSocket | src/serial_port.cpp:317-320 | the loop reads and forgets what `PortSpec.Drain` says |
| SerialPorts.SerialPort.Purge | src/serial_port.cpp:312-325 | with Rx: cache emptied, socket drained, mode switched off and on, and no recv of the drain blocks once switching off has worked; without Rx nothing changes |
| PortSpec.PurgeConserves | src/serial_port.cpp:312-325 | the discarded bytes are the cache and what follows it in the stream, up to exactly one failed recv |
| ReaderLaws.DrainRecvs | src/serial_port.cpp:319-320 | the drain is recvs for 4096 bytes up to and including the first that fails, and drops what they hand over |
| PortSpec.PurgeQuiet | src/serial_port.cpp:312-325 | if during the drain nothing arrives and recv fails only on nothing pending, exactly cache and pending are discarded, nothing is cached or pending afterwards, and the port is blocking when both mode changes worked; later arrivals are free |
| PortSpec.QuietWindow | src/serial_port.cpp:318-320 | a condition on the next answers of the schedule, one for each pending byte and one more, under which the drain is such |
| PortRuns.AfterPurge | src/serial_port.cpp:312-325 | then every byte any later call takes arrived after the purge, however bytes arrive and recvs fail from then on |
| PortRuns.ReadAfterPurge | src/serial_port.cpp:312-325 | an instance: one byte cached, one pending, one that arrives after the purge and is the one read |
| PortSpec.PurgeRestoresBlocking | src/serial_port.cpp:318-322 | the exact condition on the two mode changes under which the port is blocking afterwards |
| ReaderLaws.PurgeChanges | src/serial_port.cpp:318-321 | exactly two mode changes are tried, off first |
| PortSpec.PurgeLeavesNonBlocking | src/serial_port.cpp:318-322 | an input on which a purge leaves a blocking port non-blocking |
| SerialPorts.SerialPort.GetRxQueueStatus | src/serial_port.cpp:296-310 | cached plus pending bytes; cached only when the ioctl fails; 0 when closed |
| PortSpec.QueueStatusAccounts | src/serial_port.cpp:296-310 | over any calls the queue status falls by exactly the bytes taken and rises by exactly the arrivals |
| ReaderLaws.QueueStatusIsReadable | src/serial_port.cpp:296-310 | the queue status is what a read can hand over without more arriving, and a failed ioctl leaves out exactly the pending bytes |
| SerialPorts.SerialPort.Write | src/serial_port.cpp:266-270 | one `send`, failures reported as 0 |
| SerialPorts.SerialPort.WriteLine | src/serial_port.cpp:284-290 | `send_all` of the line followed by the line end; false when closed |
| SerialPorts.SerialPort.Close | src/serial_port.cpp:124-132 | cache emptied, handle closed once, socket given up |
| SerialPorts.SerialPort.Attach | src/serial_port.cpp:114-122 | the old session is closed, the new one starts with an empty cache on the given socket; false and closed for a missing or closed socket |
| SerialPorts.SerialPort.Open | src/serial_port.cpp:78-87 | closes first, then connects to the given address and channel; an empty cache on the new stream, or a closed port |
| SerialPorts.SerialPort.OpenByUuid | src/serial_port.cpp:95-104 | the same over the SDP look-up, on the channel it finds |
| PortRuns.StepConserves | src/serial_port.cpp:167-325 | each call takes a front piece of the stream that its answer accounts for: the data, plus for a terminated line the delimiter and at most one `\r`, or what a purge drops |
| PortRuns.RunConserves | src/serial_port.cpp:167-325 | over any interleaving of calls each call takes its piece off the front of the stream it finds, and the stream at the start is those pieces in order, then the stream at the end: nothing lost, duplicated or reordered |
| PortRuns.RunLedger | src/serial_port.cpp:167-325 | the same as a ledger that balances at every call and over the run: cache, pending and arrivals equal consumed, then cache, then pending |
| PortRuns.RunIsIdeal | src/serial_port.cpp:199-264 | a run of exact, byte and line reads without a failed recv answers as reads from a plain byte list do |
| PortRuns.FragmentationInvisible | src/serial_port.cpp:199-264 | two ports on the same peer output, however cached and fragmented, answer such a run alike |
| Framing.WriteLinesSends | src/serial_port.cpp:284-290 | lines written without a failing send put exactly their concatenation with line ends on the wire |
| Framing.LineExact | src/serial_port.cpp:229-290 | for every line end: one line reads back as itself with exactly its own bytes consumed if and only if it holds no `\n` and the line end is `\r\n`, or `\n` and the line does not end in `\r` |
| Framing.RoundTrip | src/serial_port.cpp:229-290 | for every line end, however sends and recvs cut the bytes and whatever is cached: lines written come back as the same list with the stream left just behind them if and only if each fits; with `\r\n` or `\n` the list alone comes back only then |
| Framing.Unframed | src/serial_port.cpp:229-290 | the two inputs on which a line does not come back: a `\n` in it, and a `\r` at its end before a bare `\n` |
| AtProtocol.ActsAlone | examples/serial_port_demo.cpp:49-72 | when the server completes a line it is the command the client waits on, and cache, FIFO and client buffer behind it are empty |
| AtProtocol.HearsReply | examples/serial_port_demo.cpp:98-119 | a line the client completes is the next line of the reply, and exactly the rest of the reply is behind it |
| AtProtocol.StepKeeps | examples/serial_port_demo.cpp:49-119 | every step of either party keeps the lock-step invariant |
| AtProtocol.Progress | examples/serial_port_demo.cpp:49-119 | until every command is answered some step can be taken: no deadlock |
| AtProtocol.RankDrops | examples/serial_port_demo.cpp:49-119 | every step lowers the bytes still to be sent, taken and scanned: no endless run |
| AtProtocol.LockStep | examples/serial_port_demo.cpp:49-119 | in every run from the start: AT+PURGE has discarded nothing, server and client have handled prefixes in order, and a run that can go no further has the reply function mapped over all commands as transcript, which on characters are the answers to them |
| AtParties.Respond | examples/serial_port_demo.cpp:58-71 | on characters: AT and AT+PURGE are answered OK, AT+INFO by the information line and OK, AT+QUIT by BYE, anything else by the error line, each line in turn whether or not a send works; purge just for AT+PURGE, quit just for AT+QUIT |
| AtParties.ReplyIsAnswer | examples/serial_port_demo.cpp:58-71 | the protocol's reply function written out gives exactly those characters |
| AtProtocol.ReplyAnswers | examples/serial_port_demo.cpp:58-71 | the last line of a reply is BYE if and only if the command is AT+QUIT, OK if and only if it is one of the other three, and starts with ERROR if and only if it is none of the four; only AT+INFO gets a line before it |
| AtProtocol.RepliesAnswer | examples/serial_port_demo.cpp:49-72 | the replies to a list of commands are such answers, command by command |
| AtProtocol.DemoTranscript | examples/serial_port_demo.cpp:98-119 | the demo's four commands get the five lines OK, information, OK, OK, BYE |
| AtProtocol.EndsExact | examples/serial_port_demo.cpp:115-117 | the client stops at OK, BYE and lines that start with ERROR, and at no others |
| AtParties.ServeOnce | examples/serial_port_demo.cpp:49-72 | one turn of the server's loop computes `AtParties.Turn`: skipped on an empty line, otherwise answered, going on unless it was AT+QUIT |
| AtParties.ServeLoop | examples/serial_port_demo.cpp:49-72 | the loop, watched for any number of turns, computes the iterated turn |
| AtParties.EndsAtQuit | examples/serial_port_demo.cpp:49-72 | whatever arrives, fails or times out, the loop ends in turn n if and only if the line read there is AT+QUIT and no earlier one is |
| AtParties.OnlyQuitEnds | examples/serial_port_demo.cpp:49-72 | if the peer never sends the text AT+QUIT no number of turns ends the loop, whatever fails or times out |
| AtParties.WriteAllSends | examples/serial_port_demo.cpp:58-71 | ignoring the results of `write_line` is harmless when no send fails: exactly the encoded reply goes out |
| AtParties.HearReply | examples/serial_port_demo.cpp:111-118 | the client's inner loop reads lines up to an ending or empty one, under any deadlines |
| AtParties.HearAllExact | examples/serial_port_demo.cpp:111-118 | the lines heard are the lines read one after the other, up to the first that is OK, BYE or starts with ERROR, or up to the first empty one, which is not kept; not one read more is made |
| AtParties.Ask | examples/serial_port_demo.cpp:98-119 | one command sent and its answer read |
| AtParties.HearsReplyExactly | examples/serial_port_demo.cpp:111-118 | if the reply to a command is at the front of the stream the client reads exactly its lines and not a byte further |
| AtParties.DeadPeerSpins | examples/serial_port_demo.cpp:49-54 | once every recv answers 0 or an error and nothing is cached, any number of turns under any deadlines goes on, answers nothing and leaves the stream as it is |
| AtRefinement.ServerTurnIsRun | examples/serial_port_demo.cpp:49-72 | a turn of the server's code without failures is a run of the protocol to the same queues, cache and discarded bytes, whatever part of the client's command is already on its way |
| AtRefinement.ClientSends | examples/serial_port_demo.cpp:98-100 | sending a command is a run of the protocol's client steps |
| AtRefinement.ClientHears | examples/serial_port_demo.cpp:111-118 | reading an answer is a run of the protocol up to the client's next command, whatever part of the answer is already on its way |
| AtRefinement.ExchangeIsRun | examples/serial_port_demo.cpp:49-119 | a command sent, served and its answer read, on the bytes each side really sent, is a run from one command to the next, discards nothing and adds exactly the reply to the transcript |
| AtRefinement.DemoIsRun | examples/serial_port_demo.cpp:49-119 | both loops put together, on any schedules that let no transfer fail, have the reply function mapped over the commands as transcript, on characters the answers to them, and are a run of the protocol from its first to its final state |
| EchoParties.NewChunk | examples/client_bench.cpp:78-82 | the chunk buffer holds (i * 73 + 19) mod 256 at every index i |
| EchoParties.EchoClient | examples/client_bench.cpp:98-121 | the loop, watched for any number of rounds and for every chunk size, computes the iterated round |
| EchoParties.RoundKeeps | examples/client_bench.cpp:98-121 | one round keeps the account of pattern sent, bytes taken and samples, or breaks off in one of the two exact ways |
| EchoParties.EchoClientSends | examples/client_bench.cpp:98-121 | whatever the transfers do, exactly the repeated pattern goes out and as much is taken, one sample a chunk, until the first failure; without one the target is reached if and only if the rounds times the chunk size reach it; a failed send leaves a strict prefix of the chunk sent, a failed receive less taken than sent |
| EchoParties.EmptyChunkSpins | examples/client_bench.cpp:98-121 | with chunk size 0 any number of rounds sends and receives nothing and does not fail: the loop never ends |
| EchoParties.EchoConnection | examples/server_bench.cpp:69-83 | the server's loop computes the iterated turn |
| EchoParties.ConnectionEchoes | examples/server_bench.cpp:69-83 | what is received goes back in order and unchanged: all of it when a recv ended the loop, a strict prefix when a send failed |
| EchoParties.TurnAmount | examples/server_bench.cpp:65-75 | a turn is one recv for 32768 bytes |
| Echo.LedgerKept | examples/client_bench.cpp:98-121 | every step keeps sent = received, then server-to-client, then the server's buffer, then client-to-server |
| Echo.EchoComplete | examples/client_bench.cpp:111-116 | each satisfied `recv_all` has got exactly the chunk just sent and nothing is left on its way |
| Echo.StepKeeps | examples/client_bench.cpp:98-121 | every step of either party keeps ledger and phase |
| Echo.Progress | examples/server_bench.cpp:69-83 | until the target is reached some step can be taken |
| Echo.EchoSession | examples/client_bench.cpp:98-121 | in every interleaving the ledger holds, there are at most 6 steps a byte, and a run that can go no further has sent and got back the whole target in chunks-rounded-up rounds |
| EchoRefinement.ClientSends | examples/client_bench.cpp:104-109 | sending a chunk is a run of the protocol's client steps |
| EchoRefinement.ClientReceives | examples/client_bench.cpp:111-120 | waiting for a chunk is a run of the protocol's client steps up to the next loop head |
| EchoRefinement.ServerTurnIsRun | examples/server_bench.cpp:69-83 | a turn of the server that goes on is a run of the protocol's server steps |
| EchoRefinement.ExchangeIsRun | examples/client_bench.cpp:98-121 | a round with the server's turns in between, on the bytes each side really sent, is a run from loop head to loop head and the chunk comes back unchanged |
| EchoRefinement.BenchmarkIsRun | examples/client_bench.cpp:98-121 | both loops put together, when no transfer fails, are a run of the protocol from its first to its final state: the whole pattern sent and got back, nothing on its way |
| Addresses.TryParse | include/simple_rfcomm/types.hpp:35-67 | accepts exactly the 17-character texts with hex pairs and `:` or `-` between them, and returns the bytes the pairs denote |
| Addresses.AcceptedExact | include/simple_rfcomm/types.hpp:35-67 | character by character: a text is read as an address if and only if it spells its six bytes in upper- or lower-case digits with `:` or `-` between them |
| Numerals.DigitTable | include/simple_rfcomm/types.hpp:42-45 | the digits that are read and printed, as a table |
| Addresses.ToString | include/simple_rfcomm/types.hpp:77-85 | the upper-case colon form |
| Addresses.RenderExact | include/simple_rfcomm/types.hpp:77-85 | character by character: two upper-case digits a byte and colons between them |
| Addresses.ParseInvertsPrint | include/simple_rfcomm/types.hpp:35-85 | every address is read back from its printed form |
| Addresses.PrintCanonicalizes | include/simple_rfcomm/types.hpp:35-85 | printing what was parsed gives the upper-case colon form of the text |
| Addresses.ToUint64 | include/simple_rfcomm/types.hpp:90-96 | the six bytes weighted with their powers of 256, most significant first, without overflow of 64 bits |
| Addresses.FromUint64 | include/simple_rfcomm/types.hpp:101-108 | the last six base-256 digits of any 64-bit number |
| Addresses.NumericRoundTrip | include/simple_rfcomm/types.hpp:90-108 | the conversions invert each other, the number taken modulo 2^48 |
| Addresses.OrderIsNumeric | include/simple_rfcomm/types.hpp:26 | the default lexicographic order is the order of the numbers |
| Uuids.TryParseShort | include/simple_rfcomm/types.hpp:150-162 | four characters are accepted exactly when all are hex digits, as a 16-bit UUID |
| Uuids.TryParse | include/simple_rfcomm/types.hpp:149-190 | accepts exactly four hex digits, or any other text whose dash-free form is 32 hex digits, with the value they denote |
| Uuids.AcceptedExact | include/simple_rfcomm/types.hpp:149-190 | character by character: a text is read as a UUID if and only if it spells, dashes left out, its sixteen bytes, or in four characters the two free bytes of the Base UUID |
| Uuids.DashlessJoin | include/simple_rfcomm/types.hpp:170 | leaving out dashes is done piece by piece |
| Uuids.NoDash | include/simple_rfcomm/types.hpp:170 | and changes nothing in a text without dashes |
| Uuids.ToString | include/simple_rfcomm/types.hpp:200-208 | the lower-case 8-4-4-4-12 form |
| Uuids.RenderExact | include/simple_rfcomm/types.hpp:200-208 | the printed form is groups of 4, 2, 2, 2 and 6 bytes in lower-case digits with dashes between them |
| Uuids.ParseInvertsPrint | include/simple_rfcomm/types.hpp:149-208 | every UUID is read back from its printed form |
| Uuids.OnlyDigitsMatter | include/simple_rfcomm/types.hpp:169-189 | dash placement and letter case change neither acceptance nor value |
| Uuids.ShortFormIsBaseUuid | include/simple_rfcomm/types.hpp:126-162 | a four-digit form and its 32-digit expansion in the Base UUID are the same UUID |
| Platform.AddressToBdaddr | src/platform.hpp:107-114 | BlueZ's address is the bytes reversed |
| Platform.BdaddrToAddress | src/platform.hpp:116-122 | and back |
| Platform.EncodingsAgree | src/platform.hpp:40-114 | BlueZ's bytes read little-endian are Winsock's 64-bit address, and the reversal undoes itself |
| Platform.UuidToGuid | src/platform.hpp:48-63 | each field is its bytes weighted with their powers of 256, most significant first; the last eight bytes are copied |
| Platform.GuidToUuid | src/platform.hpp:65-79 | the bytes are the base-256 digits of the fields |
| Platform.GuidRoundTrip | src/platform.hpp:48-79 | the two conversions invert each other |
| Lifecycle.ScanIsLeast | src/server.cpp:96-105 | the scan finds the least bindable channel from 1 to 30, and none exactly when no channel there is bindable |
| Lifecycle.BringExact | src/server.cpp:90-119 | `listen` on a channel other than 0 succeeds if and only if there is a socket, that channel can be bound and listening works, and is then on that channel; on 0 if and only if some channel of 1..30 can be bound, and is then on the least |
| Lifecycle.BringTries | src/server.cpp:90-119 | an asked-for channel is tried alone, the scan upwards from 1 up to the first that works; the handle is closed exactly when binding or listening failed |
| Lifecycle.ListenWithSdpExact | src/server.cpp:123-140 | `listen_with_sdp` comes to what `listen` comes to with the registration on top, or to a closed server when none can be made |
| Lifecycle.CreateExact | src/sdp_linux.cpp:96-108 | a registration stands if and only if there is a record, a session and a successful register call, which names the channel; a session that cannot register is ended |
| Lifecycle.DialExact | src/client.cpp:43-70 | the handle is the socket's if and only if there is one and connect worked, and is closed if and only if connect failed |
| Lifecycle.DialBySdpExact | src/client.cpp:74-84 | over a look-up in addition only if its session was up and a channel was found |
| Servers.Registration.Unregister | src/sdp_linux.cpp:18-29 | exactly: unregister, then end the session; a second call does nothing; the record is forgotten |
| Servers.CreateRegistration | src/sdp_linux.cpp:49-109 | a registration with the protocol tree L2CAP, RFCOMM, channel if and only if record, session and register call work; otherwise no session is left behind |
| Servers.Server.Close | src/server.cpp:16-26 | the record goes before the handle; channel 0 afterwards |
| Servers.Server.Listen | src/server.cpp:38-121 | every branch, the channel scan included, makes exactly the calls of `Lifecycle.ServerListen`; succeeds exactly as `BringExact` says and ends on the channel asked for, or on the least one |
| Servers.Server.ListenWithSdp | src/server.cpp:123-140 | likewise, and only with a successful registration, whose record names the non-zero channel the server is on; a failed registration closes the server again |
| Servers.Server.Accept | src/server.cpp:142-169 | a socket that owns the accepted handle and names the peer's address and channel, or none |
| Servers.Connect | src/client.cpp:42-71 | a socket if and only if the handle could be made and connect worked; the handle is closed otherwise |
| Servers.ConnectBySdp | src/client.cpp:74-84 | a socket if and only if in addition the look-up found a channel, which is the one connected to; the look-up's session is over before the connection is tried |
| World.CloseLocal | src/server.cpp:16-26 | closing gives back exactly what the object holds, each call safe and no record ever unbacked |
| World.BringLocal | src/server.cpp:76-120 | a failed `listen` leaves the kernel as it was; a successful one leaves one bound listening handle, on the channel asked for or the least one |
| World.CreateLocal | src/sdp_linux.cpp:96-108 | a registration that cannot be made leaves the kernel as it was; otherwise one backed record is added, exactly when record, session and register call work |
| World.ReachLocal | src/client.cpp:42-84 | a failed connect, looked up or not, leaves the kernel as it was; a successful one leaves one handle, exactly when look-up, socket and connect work |
| World.MoveKeeps | src/serial_port.cpp:114-122 | attaching moves the handle from the socket to the port and keeps the books |
| World.StepKeeps | src/server.cpp:16-169 | every operation of every object is safe at each of its calls, and keeps that each open handle and session is held by exactly one object |
| World.StepDoes | src/server.cpp:16-169 | what each operation does to the objects it names and to the open handles and sessions, and that it leaves all other objects alone |
| World.ProgramIsSafe | src/socket.cpp:12-17 | in every program: no handle is used or closed unless open, every published record names the channel of an open listening handle after every call, and once all objects are gone each handle was closed as often as opened and nothing is open or published |
| World.FailedListenLeavesNothing | src/server.cpp:123-140 | a failed `listen_with_sdp` leaves channel 0 and the kernel as after a plain close |
| SdpSearch.ScanChain | src/sdp_linux.cpp:140-150 | the loop finds the candidate of one descriptor chain |
| SdpSearch.ResolveChannel | src/sdp_linux.cpp:111-172 | the four nested loops return v if and only if v is non-zero, named by the chain at some place of the response, and no chain at an earlier record, stack or descriptor names a non-zero one |
| SdpSearch.LatestUuidExact | src/sdp_linux.cpp:143-146 | a position counts if and only if some RFCOMM UUID precedes it with no UUID in between |
| SdpSearch.CandidateExact | src/sdp_linux.cpp:142-150 | the candidate is the first UINT8 at such a position |
| SdpSearch.FirstHitExact | src/sdp_linux.cpp:130-160 | the answer is v if and only if v is non-zero, the candidate of some chain, and no earlier chain has a non-zero candidate |
| SdpSearch.SearchExact | src/sdp_linux.cpp:132-160 | that search on places, over every stack of every record that has protocols, is the search on the flat list of chains |
| SdpSearch.RegisteredResolves | src/sdp_linux.cpp:77-90 | behind records without a usable channel, and whatever follows, a registered record resolves to its channel if and only if that is not 0 |

## Left out

- The Windows branches and `sdp_win.cpp`: foreign calls with little logic; the Linux branches are modelled, and of the Windows helpers the address and GUID conversions.
- Real time: the deadline test of `read_line` is an arbitrary list of outcomes, used only for a positive timeout; throughput and round-trip times are not modelled.
- `underlying_socket()`: it lets a caller read or close the stream behind the cache, which no ledger survives.
- Moved-from objects and default-constructed `Socket` values: `open` and `listen` need a live object.
- Setters, modem lines, `flush`, `set_timeouts`, buffer sizes, `recv_some`, `write_byte`, the throwing `parse` wrappers and the text overloads of `open`: plain.
- `setsockopt`, `getsockname` and ordinary transfers are not in the log of system calls of the classes; that they need an open handle is the precondition of `Connection`'s methods, and in `World` they are the operation `Io`.
- `sdp_record_unregister`'s result is ignored by the code; `sdp_close` is taken to end whatever the session still publishes, as BlueZ does for non-persistent records.
- BlueZ memory: `resolve_channel` skips some frees on its early breaks, so nothing is claimed about it; its `proto[10]` is an unbounded sequence, and the UUID union is read as one 16-bit value.
- Bind outcomes are a set of bindable channels fixed for the duration of one `listen`.
- The benchmark without echo (a plain sequence of `send_all` and of `recv`), `chat_echo.cpp`, argument parsing and console output.
- Sockets.Socket.FromNative: does not state the buffer sizes the code asks for, because no result depends on them.
- AtParties.ServeLoop: stops watching after a given number of turns, because the loop itself need not end; every statement about it is for all such numbers.
- EchoParties.EchoClient: stops watching after a given number of rounds, for the same reason.
- AtProtocol.LockStep: rules out failing transfers and passing deadlines, and takes non-empty commands without `\n` with AT+QUIT only last; commands are sent one at a time as the client does.
- AtRefinement.DemoIsRun: puts the two loops together turn by turn; that every other interleaving ends the same way is `AtProtocol.LockStep`.
- EchoRefinement.BenchmarkIsRun: likewise, with `Echo.EchoSession` for every other interleaving.
- Echo.EchoSession: needs a non-empty chunk buffer; what chunk size 0 does is `EchoParties.EmptyChunkSpins`.
