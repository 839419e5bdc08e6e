/** The AT-command demo as a two-party protocol: a stop-and-wait client, a server with a
    read-ahead cache that can be told to purge it, and a byte FIFO each way.

    Every send and recv may move any positive number of bytes and the parties may interleave in
    any way; what is ruled out is a failing send or recv and an expiring deadline. */
module AtProtocol {
  import opened Prelude
  import opened PortSpec
  import opened Framing

  type Bytes = seq<byte>

  const AT: Bytes := [65, 84]                                  // AT
  const AT_INFO: Bytes := [65, 84, 43, 73, 78, 70, 79]         // AT+INFO
  const AT_PURGE: Bytes := [65, 84, 43, 80, 85, 82, 71, 69]    // AT+PURGE
  const AT_QUIT: Bytes := [65, 84, 43, 81, 85, 73, 84]         // AT+QUIT
  const OK: Bytes := [79, 75]                                  // OK
  const BYE: Bytes := [66, 89, 69]                             // BYE
  const ERROR: Bytes := [69, 82, 82, 79, 82]                   // ERROR
  const UNKNOWN_1: Bytes := [58, 32, 85, 78, 75, 78, 79, 87, 78, 32]
  const UNKNOWN_2: Bytes := [67, 79, 77, 77, 65, 78, 68]
  const UNKNOWN: Bytes := ERROR + UNKNOWN_1 + UNKNOWN_2        // ERROR: UNKNOWN COMMAND
  const INFO_1: Bytes := [43, 73, 78, 70, 79, 58, 32]
  const INFO_2: Bytes := [83, 105, 109, 112, 108, 101, 82, 70, 67, 79, 77, 77, 32]
  const INFO_3: Bytes := [70, 84, 68, 73, 32]
  const INFO_4: Bytes := [86, 105, 114, 116, 117, 97, 108, 32]
  const INFO_5: Bytes := [68, 101, 118, 105, 99, 101, 32]
  const INFO_6: Bytes := [118, 49, 46, 48]
  // +INFO: SimpleRFCOMM FTDI Virtual Device v1.0
  const INFO: Bytes := INFO_1 + INFO_2 + INFO_3 + INFO_4 + INFO_5 + INFO_6

  /** The lines the server answers to a command. */
  function Reply(cmd: Bytes): seq<Bytes> {
    if cmd == AT then [OK]
    else if cmd == AT_INFO then [INFO, OK]
    else if cmd == AT_PURGE then [OK]
    else if cmd == AT_QUIT then [BYE]
    else [UNKNOWN]
  }

  /** The lines that make the client go on to its next command. */
  predicate Ends(line: Bytes) {
    line == OK || line == BYE || ERROR <= line
  }

  // ---- the same on characters ----

  function Ascii(s: string): (b: Bytes)
    ensures |b| == |s|
  {
    seq(|s|, i requires 0 <= i < |s| => s[i] as int % 256)
  }

  /** The text in the answer to AT+INFO. */
  function InfoText(): Bytes {
    Ascii("+INFO: ") + Ascii("SimpleRFCOMM ") + Ascii("FTDI Virtual ") + Ascii("Device v1.0")
  }

  function UnknownText(): Bytes {
    Ascii("ERROR: ") + Ascii("UNKNOWN COMMAND")
  }

  lemma Spelled()
    ensures AT == Ascii("AT") && AT_INFO == Ascii("AT+INFO")
    ensures AT_PURGE == Ascii("AT+PURGE") && AT_QUIT == Ascii("AT+QUIT")
    ensures OK == Ascii("OK") && BYE == Ascii("BYE") && ERROR == Ascii("ERROR")
    ensures CRLF == Ascii("\r\n")
  {
  }

  lemma SpelledTexts()
    ensures INFO == InfoText() && UNKNOWN == UnknownText()
  {
    hide Ascii;
    SpelledInfo();
    SpelledUnknown();
    Assoc(INFO_1 + INFO_2, INFO_3, INFO_4);
    Assoc(INFO_1 + INFO_2 + INFO_3 + INFO_4, INFO_5, INFO_6);
    assert UNKNOWN_1 == UNKNOWN_1[..2] + UNKNOWN_1[2..];
    Assoc(ERROR, UNKNOWN_1[..2], UNKNOWN_1[2..]);
    Assoc(ERROR + UNKNOWN_1[..2], UNKNOWN_1[2..], UNKNOWN_2);
  }

  lemma SpelledInfo()
    ensures INFO_1 == Ascii("+INFO: ") && INFO_2 == Ascii("SimpleRFCOMM ")
    ensures INFO_3 + INFO_4 == Ascii("FTDI Virtual ") && INFO_5 + INFO_6 == Ascii("Device v1.0")
  {
  }

  lemma SpelledUnknown()
    ensures ERROR + UNKNOWN_1[..2] == Ascii("ERROR: ") && UNKNOWN_1[2..] + UNKNOWN_2 == Ascii("UNKNOWN COMMAND")
  {
  }

  predicate Known(cmd: Bytes) {
    cmd == Ascii("AT") || cmd == Ascii("AT+INFO") || cmd == Ascii("AT+PURGE") || cmd == Ascii("AT+QUIT")
  }

  /** What the last line of an answer says about the command. */
  predicate Closes(cmd: Bytes, line: Bytes) {
    && (line == Ascii("BYE") <==> cmd == Ascii("AT+QUIT"))
    && (line == Ascii("OK") <==> Known(cmd) && cmd != Ascii("AT+QUIT"))
    && (Ascii("ERROR") <= line <==> !Known(cmd))
    && (!Known(cmd) ==> line == UnknownText())
  }

  /** `lines` are the answers to `cmds`: one line each, and an information line before the one
      for AT+INFO. */
  predicate Answered(cmds: seq<Bytes>, lines: seq<Bytes>) {
    if cmds == [] then lines == []
    else if cmds[0] == Ascii("AT+INFO") then
      |lines| >= 2 && lines[0] == InfoText() && Closes(cmds[0], lines[1]) && Answered(cmds[1..], lines[2..])
    else |lines| >= 1 && Closes(cmds[0], lines[0]) && Answered(cmds[1..], lines[1..])
  }

  lemma ReplyAnswers(cmd: Bytes)
    ensures if cmd == Ascii("AT+INFO") then
              |Reply(cmd)| == 2 && Reply(cmd)[0] == InfoText() && Closes(cmd, Reply(cmd)[1])
            else |Reply(cmd)| == 1 && Closes(cmd, Reply(cmd)[0])
  {
    hide Ascii, InfoText, UnknownText;
    Spelled();
    SpelledTexts();
    Different();
  }

  lemma Different()
    ensures OK != BYE && !(ERROR <= OK) && !(ERROR <= BYE) && UNKNOWN != OK && UNKNOWN != BYE && ERROR <= UNKNOWN
    ensures AT != AT_INFO && AT != AT_PURGE && AT != AT_QUIT
    ensures AT_INFO != AT_PURGE && AT_INFO != AT_QUIT && AT_PURGE != AT_QUIT
  {
    assert UNKNOWN[..5] == ERROR;
    assert AT_INFO[3] != AT_PURGE[3] && AT_INFO[3] != AT_QUIT[3] && AT_PURGE[3] != AT_QUIT[3];
  }

  /** The lines the client stops at. */
  lemma EndsExact(line: Bytes)
    ensures Ends(line) <==> line == Ascii("OK") || line == Ascii("BYE") || Ascii("ERROR") <= line
  {
    hide Ascii;
    Spelled();
  }

  lemma {:induction false} RepliesFrom(cmds: seq<Bytes>)
    requires cmds != []
    ensures Replies(cmds) == Reply(cmds[0]) + Replies(cmds[1..])
  {
    hide Reply;
    var n := |cmds| - 1;
    if n == 0 {
      assert cmds[..0] == [] && cmds[1..] == [];
      assert [] + Reply(cmds[0]) == Reply(cmds[0]) + [];
    } else {
      RepliesFrom(cmds[..n]);
      assert cmds[..n][1..] == cmds[1..][..n - 1] && cmds[1..][n - 1] == cmds[n];
      Assoc(Reply(cmds[0]), Replies(cmds[1..][..n - 1]), Reply(cmds[n]));
    }
  }

  /** The reply function mapped over commands is answers to them. */
  lemma {:induction false} RepliesAnswer(cmds: seq<Bytes>)
    ensures Answered(cmds, Replies(cmds))
  {
    hide Reply, Ascii, Closes, InfoText;
    if cmds != [] {
      RepliesFrom(cmds);
      ReplyAnswers(cmds[0]);
      RepliesAnswer(cmds[1..]);
      var all := Replies(cmds);
      var n := |Reply(cmds[0])|;
      assert all[n..] == Replies(cmds[1..]) && all[..n] == Reply(cmds[0]);
      assert all[0] == Reply(cmds[0])[0] && all[n - 1] == Reply(cmds[0])[n - 1];
    }
  }

  /** The commands of the demo's client. */
  function DemoCommands(): seq<Bytes> {
    [Ascii("AT"), Ascii("AT+INFO"), Ascii("AT+PURGE"), Ascii("AT+QUIT")]
  }

  /** What it must hear: they are commands as the protocol wants them, with five lines of answers. */
  lemma DemoTranscript()
    ensures Commands(DemoCommands())
    ensures Replies(DemoCommands()) == [Ascii("OK"), InfoText(), Ascii("OK"), Ascii("OK"), Ascii("BYE")]
  {
    hide Ascii, InfoText;
    Spelled();
    SpelledTexts();
    Different();
    var c: seq<Bytes> := DemoCommands();
    RepliesFrom(c);
    RepliesFrom(c[1..]);
    RepliesFrom(c[2..]);
    RepliesFrom(c[3..]);
    assert c[1..][1..] == c[2..] && c[2..][1..] == c[3..] && |c[3..][1..]| == 0;
    assert Reply(c[0]) == [OK] && Reply(c[1]) == [INFO, OK] && Reply(c[2]) == [OK] && Reply(c[3]) == [BYE];
  }

  // ---- the two parties ----

  datatype ServerPc = Reading | Purging | Replying(quit: bool) | Finished
  datatype Server = Server(pc: ServerPc, acc: Bytes, cache: Bytes, unsent: Bytes, handled: seq<Bytes>)

  datatype ClientPc = Sending | Receiving | Done
  datatype Client = Client(pc: ClientPc, index: nat, unsent: Bytes, acc: Bytes, cache: Bytes, transcript: seq<Bytes>)

  datatype State = State(
    server: Server,
    client: Client,
    c2s: Bytes,          // accepted from the client, not yet taken by the server
    s2c: Bytes,          // accepted from the server, not yet taken by the client
    discarded: Bytes)    // dropped by AT+PURGE

  datatype Action =
    | ServerRefill(k: nat) | ServerScan | ServerPurge(k: nat) | ServerPurgeEnd | ServerSend(k: nat) | ServerLoop
    | ClientSend(k: nat) | ClientListen | ClientRefill(k: nat) | ClientScan

  function NextCommand(cmds: seq<Bytes>, i: nat, transcript: seq<Bytes>): Client {
    if i < |cmds| then Client(Sending, i, cmds[i] + CRLF, [], [], transcript)
    else Client(Done, i, [], [], [], transcript)
  }

  function Init(cmds: seq<Bytes>): State {
    State(Server(Reading, [], [], [], []), NextCommand(cmds, 0, []), [], [], [])
  }

  predicate Enabled(s: State, a: Action) {
    match a
    case ServerRefill(k) => s.server.pc.Reading? && s.server.cache == [] && 1 <= k <= Min(CHUNK, |s.c2s|)
    case ServerScan => s.server.pc.Reading? && s.server.cache != []
    case ServerPurge(k) => s.server.pc.Purging? && 1 <= k <= Min(CHUNK, |s.c2s|)
    case ServerPurgeEnd => s.server.pc.Purging?
    case ServerSend(k) => s.server.pc.Replying? && 1 <= k <= |s.server.unsent|
    case ServerLoop => s.server.pc.Replying? && s.server.unsent == []
    case ClientSend(k) => s.client.pc.Sending? && 1 <= k <= |s.client.unsent|
    case ClientListen => s.client.pc.Sending? && s.client.unsent == []
    case ClientRefill(k) => s.client.pc.Receiving? && s.client.cache == [] && 1 <= k <= Min(CHUNK, |s.s2c|)
    case ClientScan => s.client.pc.Receiving? && s.client.cache != []
  }

  /** The server reads a complete line `cmd`, with `rest` of its cache behind it. */
  function Act(s: State, cmd: Bytes, rest: Bytes): State {
    if cmd == [] then
      s.(server := Server(Reading, [], rest, [], s.server.handled))
    else if cmd == AT_PURGE then
      s.(server := Server(Purging, [], [], [], s.server.handled + [cmd]), discarded := s.discarded + rest)
    else
      s.(server := Server(Replying(cmd == AT_QUIT), [], rest, Encode(Reply(cmd), CRLF), s.server.handled + [cmd]))
  }

  /** The client reads a complete line `resp`, with `rest` of its cache behind it. */
  function Hear(cmds: seq<Bytes>, s: State, resp: Bytes, rest: Bytes): State {
    var c := s.client;
    if resp == [] then
      s.(client := NextCommand(cmds, c.index + 1, c.transcript).(cache := rest))
    else if Ends(resp) then
      s.(client := NextCommand(cmds, c.index + 1, c.transcript + [resp]).(cache := rest))
    else
      s.(client := c.(acc := [], cache := rest, transcript := c.transcript + [resp]))
  }

  function Do(cmds: seq<Bytes>, s: State, a: Action): State
    requires Enabled(s, a)
  {
    var v, c := s.server, s.client;
    match a
    case ServerRefill(k) => s.(server := v.(cache := s.c2s[..k]), c2s := s.c2s[k..])
    case ServerScan =>
      if v.cache[0] == LF then Act(s, StripCR(v.acc), v.cache[1..])
      else s.(server := v.(acc := v.acc + v.cache[..1], cache := v.cache[1..]))
    case ServerPurge(k) => s.(c2s := s.c2s[k..], discarded := s.discarded + s.c2s[..k])
    case ServerPurgeEnd => s.(server := v.(pc := Replying(false), unsent := Encode(Reply(AT_PURGE), CRLF)))
    case ServerSend(k) => s.(server := v.(unsent := v.unsent[k..]), s2c := s.s2c + v.unsent[..k])
    case ServerLoop => s.(server := v.(pc := if v.pc.quit then Finished else Reading))
    case ClientSend(k) => s.(client := c.(unsent := c.unsent[k..]), c2s := s.c2s + c.unsent[..k])
    case ClientListen => s.(client := c.(pc := Receiving))
    case ClientRefill(k) => s.(client := c.(cache := s.s2c[..k]), s2c := s.s2c[k..])
    case ClientScan =>
      if c.cache[0] == LF then Hear(cmds, s, StripCR(c.acc), c.cache[1..])
      else s.(client := c.(acc := c.acc + c.cache[..1], cache := c.cache[1..]))
  }

  // ---- the invariant ----

  /** Non-empty commands without `\n`, AT+QUIT at most as the last one. */
  predicate Commands(cmds: seq<Bytes>) {
    forall i :: 0 <= i < |cmds| ==>
      cmds[i] != [] && LF !in cmds[i] && (cmds[i] == AT_QUIT ==> i == |cmds| - 1)
  }

  /** The server's reply function mapped over the commands. */
  function Replies(cmds: seq<Bytes>): seq<Bytes> {
    if cmds == [] then [] else Replies(cmds[..|cmds| - 1]) + Reply(cmds[|cmds| - 1])
  }

  /** The server is between commands: back at its read, or about to be. */
  predicate Idle(v: Server) {
    v.pc == Reading || (v.pc == Replying(false) && v.acc == [] && v.cache == [])
  }

  /** Command `i` is somewhere between the client's buffer and the server's line. */
  predicate Asking(cmds: seq<Bytes>, s: State) {
    var v, c := s.server, s.client;
    && c.index < |cmds| && !c.pc.Done? && (c.pc.Receiving? ==> c.unsent == [])
    && Idle(v) && v.unsent == [] && LF !in v.acc
    && v.acc + (v.cache + (s.c2s + c.unsent)) == cmds[c.index] + CRLF
    && s.s2c == [] && c.acc == [] && c.cache == []
    && v.handled == cmds[..c.index] && c.transcript == Replies(cmds[..c.index])
  }

  /** The server has taken command `i`; what is left of its reply is on its way back. */
  predicate Answering(cmds: seq<Bytes>, s: State) {
    var v, c := s.server, s.client;
    && c.index < |cmds| && !c.pc.Done? && c.unsent == []
    && v.acc == [] && v.cache == [] && s.c2s == [] && LF !in c.acc
    && v.handled == cmds[..c.index + 1]
    && var cmd := cmds[c.index];
       var lines := Reply(cmd);
       var done := |c.transcript| - |Replies(cmds[..c.index])|;
       && 0 <= done < |lines|
       && c.transcript == Replies(cmds[..c.index]) + lines[..done]
       && (match v.pc
           case Purging => cmd == AT_PURGE && done == 0 && c.acc + (c.cache + s.s2c) == [] && v.unsent == []
           case Replying(quit) => quit == (cmd == AT_QUIT)
           case Reading => v.unsent == [] && cmd != AT_QUIT
           case Finished => v.unsent == [] && cmd == AT_QUIT)
       && (v.pc.Purging? || c.acc + (c.cache + (s.s2c + v.unsent)) == Encode(lines[done..], CRLF))
  }

  /** Every command has been answered in full. */
  predicate Over(cmds: seq<Bytes>, s: State) {
    var v, c := s.server, s.client;
    && c == Client(Done, |cmds|, [], [], [], Replies(cmds))
    && v.acc == [] && v.cache == [] && v.unsent == [] && s.c2s == [] && s.s2c == []
    && v.handled == cmds && !v.pc.Purging?
    && (cmds != [] && cmds[|cmds| - 1] == AT_QUIT <==> v.pc == Replying(true) || v.pc == Finished)
  }

  predicate Inv(cmds: seq<Bytes>, s: State) {
    s.discarded == [] && (Asking(cmds, s) || Answering(cmds, s) || Over(cmds, s))
  }

  // ---- moving bytes between queues ----

  /** Taking `k` bytes off the front of `y` and putting them behind `x` changes no byte order. */
  lemma Move(x: Bytes, y: Bytes, k: nat, z: Bytes)
    requires k <= |y|
    ensures (x + y[..k]) + (y[k..] + z) == x + (y + z)
    ensures (x + y[..k]) + y[k..] == x + y
  {
  }

  /** The first complete line of a stream of complete lines. */
  lemma SplitLine(acc: Bytes, rest: Bytes, line: Bytes, tail: Bytes)
    requires LF !in acc && LF !in line
    requires acc + ([LF] + rest) == line + CRLF + tail
    ensures StripCR(acc) == line && rest == tail
  {
    Assoc(acc, [LF], rest);
    IndexOfAfter(acc, LF, rest);
    assert line + CRLF + tail == (line + [CR]) + [LF] + tail;
    IndexOfAfter(line + [CR], LF, tail);
    FrontBack(acc + ([LF] + rest), acc, [LF] + rest);
    FrontBack((line + [CR]) + [LF] + tail, (line + [CR]) + [LF], tail);
    assert acc == line + [CR];
    assert rest == (acc + ([LF] + rest))[|acc| + 1..];
  }

  lemma ReplyLines(cmd: Bytes, i: nat)
    requires i < |Reply(cmd)|
    ensures LF !in Reply(cmd)[i] && Reply(cmd)[i] != []
    ensures Ends(Reply(cmd)[i]) <==> i == |Reply(cmd)| - 1
  {
    assert UNKNOWN[..5] == ERROR;
    assert INFO[0] == INFO_1[0] == 43;
  }

  // ---- every step keeps the invariant ----

  lemma AskingKept(cmds: seq<Bytes>, s: State, a: Action)
    requires Commands(cmds) && Asking(cmds, s) && Enabled(s, a)
    requires a.ServerScan? ==> s.server.cache[0] != LF
    ensures Asking(cmds, Do(cmds, s, a)) && Do(cmds, s, a).discarded == s.discarded
  {
    var v, c := s.server, s.client;
    match a
    case ServerRefill(k) =>
      Move([], s.c2s, k, c.unsent);
      assert [] + s.c2s[..k] == s.c2s[..k];
    case ServerScan =>
      Move(v.acc, v.cache, 1, s.c2s + c.unsent);
    case ClientSend(k) =>
      Move(s.c2s, c.unsent, k, []);
    case _ =>
  }

  /** When the server completes a line it holds exactly the command the client is waiting on, and
      nothing is behind it: not in the cache, not in the FIFO, not in the client. */
  lemma ActsAlone(cmds: seq<Bytes>, s: State)
    requires Commands(cmds) && Asking(cmds, s) && Enabled(s, ServerScan) && s.server.cache[0] == LF
    ensures StripCR(s.server.acc) == cmds[s.client.index]
    ensures s.server.cache == [LF] && s.c2s == [] && s.client.unsent == []
  {
    var v, c := s.server, s.client;
    var cmd := cmds[c.index];
    var behind := v.cache[1..] + (s.c2s + c.unsent);
    assert v.cache + (s.c2s + c.unsent) == [LF] + behind;
    assert cmd + CRLF == cmd + CRLF + [];
    SplitLine(v.acc, behind, cmd, []);
    assert v.cache == [LF] + v.cache[1..];
  }

  lemma TakesCommand(cmds: seq<Bytes>, s: State)
    requires Commands(cmds) && Asking(cmds, s) && Enabled(s, ServerScan) && s.server.cache[0] == LF
    ensures Answering(cmds, Do(cmds, s, ServerScan)) && Do(cmds, s, ServerScan).discarded == s.discarded
  {
    ActsAlone(cmds, s);
    var i := s.client.index;
    var t := Do(cmds, s, ServerScan);
    assert cmds[..i + 1] == cmds[..i] + [cmds[i]];
    assert Reply(cmds[i])[0..] == Reply(cmds[i]);
    var e := Encode(Reply(cmds[i]), CRLF);
    assert [] + ([] + ([] + e)) == e;
    assert s.discarded + [] == s.discarded;
  }

  lemma ReplySent(cmds: seq<Bytes>, s: State, k: nat)
    requires Answering(cmds, s) && Enabled(s, ServerSend(k))
    ensures Answering(cmds, Do(cmds, s, ServerSend(k)))
  {
    hide Reply, Encode, Replies;
    Move(s.s2c, s.server.unsent, k, []);
  }

  lemma ReplyTaken(cmds: seq<Bytes>, s: State, k: nat)
    requires Answering(cmds, s) && Enabled(s, ClientRefill(k))
    ensures Answering(cmds, Do(cmds, s, ClientRefill(k)))
  {
    hide Reply, Encode, Replies;
    Move([], s.s2c, k, s.server.unsent);
    assert [] + s.s2c[..k] == s.s2c[..k];
  }

  lemma ReplyScanned(cmds: seq<Bytes>, s: State)
    requires Answering(cmds, s) && Enabled(s, ClientScan) && s.client.cache[0] != LF
    ensures Answering(cmds, Do(cmds, s, ClientScan))
  {
    hide Reply, Encode, Replies;
    var c := s.client;
    Move(c.acc, c.cache, 1, s.s2c + s.server.unsent);
    Move(c.acc, c.cache, 1, s.s2c);
  }

  lemma AnsweringKept(cmds: seq<Bytes>, s: State, a: Action)
    requires Commands(cmds) && Answering(cmds, s) && Enabled(s, a)
    requires a.ClientScan? ==> s.client.cache[0] != LF
    ensures Answering(cmds, Do(cmds, s, a)) && Do(cmds, s, a).discarded == s.discarded
  {
    hide Reply, Encode, Replies;
    match a
    case ServerPurgeEnd => PurgeAnswered(cmds, s);
    case ServerSend(k) => ReplySent(cmds, s, k);
    case ClientRefill(k) => ReplyTaken(cmds, s, k);
    case ClientScan => ReplyScanned(cmds, s);
    case _ =>
  }

  lemma PurgeAnswered(cmds: seq<Bytes>, s: State)
    requires Commands(cmds) && Answering(cmds, s) && s.server.pc.Purging?
    ensures Answering(cmds, Do(cmds, s, ServerPurgeEnd))
  {
  }

  /** A line the client completes is the next line of the reply; after the last one nothing of
      the reply is left anywhere. */
  lemma HearsReply(cmds: seq<Bytes>, s: State)
    requires Commands(cmds) && Answering(cmds, s) && Enabled(s, ClientScan) && s.client.cache[0] == LF
    ensures var i := s.client.index;
            var lines := Reply(cmds[i]);
            var done := |s.client.transcript| - |Replies(cmds[..i])|;
            && StripCR(s.client.acc) == lines[done]
            && s.client.cache[1..] + (s.s2c + s.server.unsent) == Encode(lines[done + 1..], CRLF)
            && !s.server.pc.Purging?
  {
    var v, c := s.server, s.client;
    var lines := Reply(cmds[c.index]);
    var done := |c.transcript| - |Replies(cmds[..c.index])|;
    var behind := c.cache[1..] + (s.s2c + v.unsent);
    assert c.cache + (s.s2c + v.unsent) == [LF] + behind;
    if !v.pc.Purging? {
      ReplyLines(cmds[c.index], done);
      assert lines[done..][0] == lines[done] && lines[done..][1..] == lines[done + 1..];
      SplitLine(c.acc, behind, lines[done], Encode(lines[done + 1..], CRLF));
    }
  }

  lemma HearsMore(cmds: seq<Bytes>, s: State)
    requires Commands(cmds) && Answering(cmds, s) && Enabled(s, ClientScan) && s.client.cache[0] == LF
    requires |s.client.transcript| + 1 < |Replies(cmds[..s.client.index])| + |Reply(cmds[s.client.index])|
    ensures Answering(cmds, Do(cmds, s, ClientScan))
  {
    hide Reply, Encode, Replies;
    HearsReply(cmds, s);
    var i := s.client.index;
    var lines := Reply(cmds[i]);
    var done := |s.client.transcript| - |Replies(cmds[..i])|;
    var t := Do(cmds, s, ClientScan);
    ReplyLines(cmds[i], done);
    assert lines[..done + 1] == lines[..done] + [lines[done]];
    Assoc(Replies(cmds[..i]), lines[..done], [lines[done]]);
    assert [] + (t.client.cache + (t.s2c + t.server.unsent)) == Encode(lines[done + 1..], CRLF);
  }

  lemma HearsLast(cmds: seq<Bytes>, s: State)
    requires Commands(cmds) && Answering(cmds, s) && Enabled(s, ClientScan) && s.client.cache[0] == LF
    requires |s.client.transcript| + 1 == |Replies(cmds[..s.client.index])| + |Reply(cmds[s.client.index])|
    ensures Asking(cmds, Do(cmds, s, ClientScan)) || Over(cmds, Do(cmds, s, ClientScan))
  {
    hide Reply;
    HearsReply(cmds, s);
    var i := s.client.index;
    var lines := Reply(cmds[i]);
    var done := |s.client.transcript| - |Replies(cmds[..i])|;
    var t := Do(cmds, s, ClientScan);
    ReplyLines(cmds[i], done);
    assert lines == lines[..done] + [lines[done]] && lines[done + 1..] == [];
    Assoc(Replies(cmds[..i]), lines[..done], [lines[done]]);
    assert cmds[..i + 1][..i] == cmds[..i];
    assert t.client.transcript == Replies(cmds[..i + 1]);
    assert t.client.cache == [] && t.s2c == [] && t.server.unsent == [];
    if i + 1 < |cmds| {
      assert [] + ([] + ([] + t.client.unsent)) == t.client.unsent;
    } else {
      assert cmds[..i + 1] == cmds;
    }
  }

  lemma HearKept(cmds: seq<Bytes>, s: State)
    requires Commands(cmds) && Answering(cmds, s) && Enabled(s, ClientScan) && s.client.cache[0] == LF
    ensures var t := Do(cmds, s, ClientScan);
            t.discarded == s.discarded && (Answering(cmds, t) || Asking(cmds, t) || Over(cmds, t))
  {
    hide Reply, Encode, Replies, StripCR, Commands;
    if |s.client.transcript| + 1 < |Replies(cmds[..s.client.index])| + |Reply(cmds[s.client.index])| {
      HearsMore(cmds, s);
    } else {
      HearsLast(cmds, s);
    }
  }

  lemma OverKept(cmds: seq<Bytes>, s: State, a: Action)
    requires Over(cmds, s) && Enabled(s, a)
    ensures Over(cmds, Do(cmds, s, a)) && Do(cmds, s, a).discarded == s.discarded
  {
  }

  lemma StepKeeps(cmds: seq<Bytes>, s: State, a: Action)
    requires Commands(cmds) && Inv(cmds, s) && Enabled(s, a)
    ensures Inv(cmds, Do(cmds, s, a))
  {
    hide Asking, Answering, Over, Do, Commands;
    if Asking(cmds, s) {
      if a.ServerScan? && s.server.cache[0] == LF {
        TakesCommand(cmds, s);
      } else {
        AskingKept(cmds, s, a);
      }
    } else if Answering(cmds, s) {
      if a.ClientScan? && s.client.cache[0] == LF {
        HearKept(cmds, s);
      } else {
        AnsweringKept(cmds, s, a);
      }
    } else {
      OverKept(cmds, s, a);
    }
  }

  lemma InitHolds(cmds: seq<Bytes>)
    ensures Inv(cmds, Init(cmds))
  {
  }

  // ---- no deadlock, no endless run ----

  /** Nothing is left to do: the client has all its answers, the server is done or waits. */
  predicate Final(cmds: seq<Bytes>, s: State) {
    && s.client.pc.Done? && s.client.transcript == Replies(cmds)
    && s.server.handled == cmds && s.discarded == []
    && s.c2s == [] && s.s2c == [] && s.server.cache == [] && s.server.unsent == []
    && (s.server.pc == Finished <==> cmds != [] && cmds[|cmds| - 1] == AT_QUIT)
  }

  /** While a command is on its way there is a byte of it somewhere short of the server's line. */
  lemma CommandInFlight(cmds: seq<Bytes>, s: State)
    requires Asking(cmds, s)
    ensures s.server.cache != [] || s.c2s != [] || s.client.unsent != []
  {
    var v, c := s.server, s.client;
    var wire := cmds[c.index] + CRLF;
    assert wire[|cmds[c.index]| + 1] == LF;
    assert v.cache == [] && s.c2s == [] && c.unsent == [] ==> wire == v.acc;
  }

  lemma AskingMoves(cmds: seq<Bytes>, s: State) returns (a: Action)
    requires Asking(cmds, s)
    ensures Enabled(s, a)
  {
    hide Replies, Reply, Encode;
    CommandInFlight(cmds, s);
    var v := s.server;
    a := if v.pc.Replying? then ServerLoop
         else if v.cache != [] then ServerScan
         else if s.c2s != [] then ServerRefill(1)
         else ClientSend(1);
  }

  lemma AnsweringMoves(cmds: seq<Bytes>, s: State) returns (a: Action)
    requires Answering(cmds, s)
    ensures Enabled(s, a)
  {
    hide Replies, Reply, Encode, Commands;
    if !s.server.pc.Purging? {
      NotJustALine(cmds, s);
    }
    var v, c := s.server, s.client;
    a := if v.pc.Purging? then ServerPurgeEnd
         else if v.pc.Replying? then (if v.unsent == [] then ServerLoop else ServerSend(1))
         else if c.pc.Sending? then ClientListen
         else if c.cache != [] then ClientScan
         else ClientRefill(1);
  }

  /** As long as the session is not final some step can be taken. */
  lemma Progress(cmds: seq<Bytes>, s: State) returns (a: Action)
    requires Inv(cmds, s) && !Final(cmds, s)
    ensures Enabled(s, a)
  {
    if Asking(cmds, s) {
      a := AskingMoves(cmds, s);
    } else if Answering(cmds, s) {
      a := AnsweringMoves(cmds, s);
    } else {
      a := ServerLoop;
    }
  }

  lemma NotJustALine(cmds: seq<Bytes>, s: State)
    requires Answering(cmds, s) && !s.server.pc.Purging?
    ensures !(s.client.cache == [] && s.s2c == [] && s.server.unsent == [])
  {
    var c := s.client;
    var lines := Reply(cmds[c.index]);
    var done := |c.transcript| - |Replies(cmds[..c.index])|;
    var left := lines[done..];
    var first := left[0];
    var e := Encode(left, CRLF);
    assert e == first + CRLF + Encode(left[1..], CRLF);
    assert e[|first| + 1] == LF;
    assert c.cache == [] && s.s2c == [] && s.server.unsent == [] ==> e == c.acc;
  }

  /** Work still to be paid for: every byte is sent, taken and scanned once. */
  function SendBill(cmds: seq<Bytes>): nat {
    if cmds == [] then 0 else 3 * |cmds[0] + CRLF| + 1 + SendBill(cmds[1..])
  }

  function ReplyBill(cmds: seq<Bytes>): nat {
    if cmds == [] then 0 else 3 * |Encode(Reply(cmds[0]), CRLF)| + 3 + ReplyBill(cmds[1..])
  }

  function From(cmds: seq<Bytes>, i: nat): seq<Bytes> {
    if i <= |cmds| then cmds[i..] else []
  }

  function PcLoad(s: State): nat {
    match s.server.pc
    case Purging => 3 * |Encode(Reply(AT_PURGE), CRLF)| + 2
    case Replying(_) => 1
    case _ => 0
  }

  function Load(s: State): nat {
    var v, c := s.server, s.client;
    3 * |c.unsent| + 2 * |s.c2s| + |v.cache| + 3 * |v.unsent| + 2 * |s.s2c| + |c.cache|
    + PcLoad(s) + (if c.pc.Sending? then 1 else 0)
  }

  function Rank(cmds: seq<Bytes>, s: State): nat {
    Load(s) + SendBill(From(cmds, s.client.index + 1)) + ReplyBill(From(cmds, |s.server.handled|))
  }

  lemma LoadDrops(cmds: seq<Bytes>, s: State, a: Action)
    requires Enabled(s, a)
    requires a.ServerScan? ==> s.server.cache[0] != LF
    requires a.ClientScan? ==> s.client.cache[0] != LF
    ensures var t := Do(cmds, s, a);
            && Load(t) < Load(s)
            && t.client.index == s.client.index && t.server.handled == s.server.handled
  {
  }

  lemma RankDropsAtCommand(cmds: seq<Bytes>, s: State)
    requires Commands(cmds) && Asking(cmds, s) && Enabled(s, ServerScan) && s.server.cache[0] == LF
    ensures Rank(cmds, Do(cmds, s, ServerScan)) < Rank(cmds, s)
  {
    hide Reply, Encode, SendBill;
    ActsAlone(cmds, s);
    var i := s.client.index;
    var t := Do(cmds, s, ServerScan);
    assert Load(t) <= Load(s) + 3 * |Encode(Reply(cmds[i]), CRLF)| + 1;
    assert From(cmds, i)[0] == cmds[i] && From(cmds, i)[1..] == From(cmds, i + 1);
    assert |s.server.handled| == i && |t.server.handled| == i + 1;
  }

  function NextBill(cmds: seq<Bytes>, i: nat): nat {
    if i < |cmds| then 3 * |cmds[i] + CRLF| + 1 else 0
  }

  lemma SendBillStep(cmds: seq<Bytes>, i: nat)
    ensures SendBill(From(cmds, i)) == NextBill(cmds, i) + SendBill(From(cmds, i + 1))
  {
  }

  lemma HearLoad(cmds: seq<Bytes>, s: State)
    requires Enabled(s, ClientScan) && s.client.cache[0] == LF
    ensures var t := Do(cmds, s, ClientScan);
            && t.server.handled == s.server.handled
            && if t.client.index == s.client.index then Load(t) < Load(s)
               else t.client.index == s.client.index + 1 && Load(t) < Load(s) + NextBill(cmds, s.client.index + 1)
  {
    hide Reply, Encode, StripCR, Ends;
  }

  lemma RankDropsAtReply(cmds: seq<Bytes>, s: State)
    requires Enabled(s, ClientScan) && s.client.cache[0] == LF
    ensures Rank(cmds, Do(cmds, s, ClientScan)) < Rank(cmds, s)
  {
    hide Do, Load, SendBill, ReplyBill, From, NextBill;
    HearLoad(cmds, s);
    SendBillStep(cmds, s.client.index + 1);
  }

  lemma RankDrops(cmds: seq<Bytes>, s: State, a: Action)
    requires Commands(cmds) && Inv(cmds, s) && Enabled(s, a)
    ensures Rank(cmds, Do(cmds, s, a)) < Rank(cmds, s)
  {
    hide Reply, Encode, Replies, Load, SendBill, ReplyBill, Commands, Do;
    if a.ServerScan? && s.server.cache[0] == LF {
      RankDropsAtCommand(cmds, s);
    } else if a.ClientScan? && s.client.cache[0] == LF {
      RankDropsAtReply(cmds, s);
    } else {
      LoadDrops(cmds, s, a);
    }
  }

  lemma InitRank(cmds: seq<Bytes>)
    ensures Rank(cmds, Init(cmds)) == SendBill(cmds) + ReplyBill(cmds)
  {
    hide Reply, Encode, ReplyBill;
    assert From(cmds, 0) == cmds;
    assert cmds != [] ==> From(cmds, 1) == cmds[1..];
  }

  // ---- whole sessions ----

  /** `actions` can be taken one after the other from `s`. */
  predicate IsRun(cmds: seq<Bytes>, s: State, actions: seq<Action>)
    decreases |actions|
  {
    actions == [] || (Enabled(s, actions[0]) && IsRun(cmds, Do(cmds, s, actions[0]), actions[1..]))
  }

  function After(cmds: seq<Bytes>, s: State, actions: seq<Action>): State
    requires IsRun(cmds, s, actions)
    decreases |actions|
  {
    if actions == [] then s else After(cmds, Do(cmds, s, actions[0]), actions[1..])
  }

  lemma {:induction false} RunKeeps(cmds: seq<Bytes>, s: State, actions: seq<Action>)
    requires Commands(cmds) && Inv(cmds, s) && IsRun(cmds, s, actions)
    ensures Inv(cmds, After(cmds, s, actions))
    ensures Rank(cmds, After(cmds, s, actions)) + |actions| <= Rank(cmds, s)
    decreases |actions|
  {
    if actions != [] {
      StepKeeps(cmds, s, actions[0]);
      RankDrops(cmds, s, actions[0]);
      RunKeeps(cmds, Do(cmds, s, actions[0]), actions[1..]);
    }
  }

  lemma {:induction false} RepliesPrefix(cmds: seq<Bytes>, i: nat)
    requires i <= |cmds|
    ensures Replies(cmds[..i]) <= Replies(cmds)
    decreases |cmds| - i
  {
    if i == |cmds| {
      assert cmds[..i] == cmds;
    } else {
      assert cmds[..i + 1][..i] == cmds[..i];
      RepliesPrefix(cmds, i + 1);
    }
  }

  lemma AnswersSoFar(cmds: seq<Bytes>, s: State)
    requires Inv(cmds, s)
    ensures s.client.transcript <= Replies(cmds) && s.server.handled <= cmds
  {
    var i := s.client.index;
    if Asking(cmds, s) {
      RepliesPrefix(cmds, i);
    } else if Answering(cmds, s) {
      assert cmds[..i + 1][..i] == cmds[..i];
      RepliesPrefix(cmds, i + 1);
      var lines := Reply(cmds[i]);
      var done := |s.client.transcript| - |Replies(cmds[..i])|;
      assert lines[..done] <= lines;
      assert Replies(cmds[..i + 1]) == Replies(cmds[..i]) + lines;
    }
  }

  /** Lock-step, under every interleaving and fragmentation.  At every moment AT+PURGE has
      discarded nothing, the server has acted on a prefix of the commands in order and the client
      has heard a prefix of the replies; no session takes more steps than its bill; and a session
      that can go no further has acted on every command and heard exactly the server's reply
      function mapped over them. */
  lemma LockStep(cmds: seq<Bytes>, actions: seq<Action>)
    requires Commands(cmds) && IsRun(cmds, Init(cmds), actions)
    ensures var t := After(cmds, Init(cmds), actions);
            && t.discarded == []
            && t.server.handled <= cmds
            && t.client.transcript <= Replies(cmds)
            && |actions| <= SendBill(cmds) + ReplyBill(cmds)
            && ((forall a :: !Enabled(t, a)) ==> Final(cmds, t) && Answered(cmds, t.client.transcript))
  {
    RepliesAnswer(cmds);
    InitHolds(cmds);
    InitRank(cmds);
    RunKeeps(cmds, Init(cmds), actions);
    hide Reply, Encode, Replies, Rank, Asking, Answering, Over, Do, Enabled, Answered;
    var t := After(cmds, Init(cmds), actions);
    AnswersSoFar(cmds, t);
    if !Final(cmds, t) {
      var a := Progress(cmds, t);
    }
  }
}
