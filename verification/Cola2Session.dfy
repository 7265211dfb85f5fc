/** The CoLa2 session: opening, sending one command at a time, closing, and what
    every run of it puts on the wire. */
module Cola2Session {
  import opened ReadWriteHelper
  import opened Telegram
  import opened TCPPacketMerger

  // ---- The session as a state machine ----

  /** What happens on the socket, in order. */
  datatype Event =
    | Connected
    | Sent(telegram: Bytes)
    | Replied(packet: Bytes)
    | ReceiveTimeout
    | Disconnected

  datatype Status = Ok | TimeoutError | NotOpenError

  datatype SessionState = SessionState(
    requestId: uint16, sessionId: Option<uint32>, connected: bool, script: seq<Delivery>, log: seq<Event>)

  datatype CommandState = CommandState(
    kind: CommandKind, fields: TelegramFields, dataVector: Bytes, wasSuccessful: Option<bool>)

  /** Every response of the sensor is long enough to read its header. */
  predicate WellBehaved(script: seq<Delivery>)
    decreases |script|
  {
    script == []
    || (&& FirstChunkReadable(script)
        && var r := ReceiveResponse(script);
           (r.Received? ==> HEADER_LENGTH <= |r.packet|) && WellBehaved(r.rest))
  }

  /** Constructing a command takes the next request id. */
  function NewCommand(s: SessionState, kind: CommandKind): (SessionState, CommandState) {
    var requestId: uint16 := (s.requestId + 1) % 0x1_0000;
    (s.(requestId := requestId),
     CommandState(kind, TelegramFields(s.sessionId.GetOr(0), requestId, CommandTypeOf(kind), CommandModeOf(kind)), [], None))
  }

  /** The verdict of each command class on the type and mode of the reply. */
  predicate ReplyAccepted(kind: CommandKind, commandType: uint8, commandMode: uint8) {
    match kind
    case CreateSession => commandType == 0x4F && commandMode == 0x41
    case CloseSession => commandType == 0x43 && commandMode == 0x41
    case VariableCommand(_) => commandType == 0x52 && commandMode == 0x41
    case MethodCommand(_) => commandType == 0x41 && commandMode == 0x49
    case ChangeCommSettingsCommand(_) => !(commandType == 0x41 && commandMode == 0x49)
  }

  function TelegramOf(c: CommandState): Bytes
    requires Printable(c.kind)
  {
    WithHeader(c.fields, CommandData(c.kind))
  }

  function AfterReply(c: CommandState, packet: Bytes): CommandState
    requires HEADER_LENGTH <= |packet|
  {
    var f := ParsedFields(packet);
    CommandState(c.kind, f, ReadData(packet), Some(ReplyAccepted(c.kind, f.commandType, f.commandMode)))
  }

  /** What a response, or a timeout, does to a session that has sent a command. */
  function AfterResponse(s: SessionState, c: CommandState, r: ReceiveOutcome): (SessionState, CommandState, Status)
    requires r.Received? ==> HEADER_LENGTH <= |r.packet|
  {
    match r
    case TimedOut(rest) =>
      (s.(connected := false, script := rest, log := s.log + [ReceiveTimeout]), c, TimeoutError)
    case Received(packet, rest) =>
      var c' := AfterReply(c, packet);
      var id := if c.kind.CreateSession? && c'.wasSuccessful == Some(true) then Some(c'.fields.sessionId) else s.sessionId;
      (s.(sessionId := id, script := rest, log := s.log + [Replied(packet)]), c', Ok)
  }

  /** Send a command's telegram under the session's id and process the response. */
  function SendCommandSpec(s: SessionState, c: CommandState): (r: (SessionState, CommandState, Status))
    requires Printable(c.kind) && WellBehaved(s.script)
    ensures WellBehaved(r.0.script) && r.0.requestId == s.requestId && s.log <= r.0.log
    ensures r.2 == Ok <==> s.connected && r.0.connected
    ensures r.2 != Ok ==> r.1.wasSuccessful == c.wasSuccessful && r.0.sessionId == s.sessionId
    ensures !c.kind.CreateSession? ==> r.0.sessionId == s.sessionId
  {
    if !s.connected then (s, c, NotOpenError)
    else
      var c1 := c.(fields := c.fields.(sessionId := s.sessionId.GetOr(0)));
      AfterResponse(s.(log := s.log + [Sent(TelegramOf(c1))]), c1, ReceiveResponse(s.script))
  }

  function CloseSpec(s: SessionState): (r: (SessionState, Status))
    requires WellBehaved(s.script)
    ensures WellBehaved(r.0.script)
  {
    if !s.connected then (s, Ok)
    else
      var (s1, c) := NewCommand(s, CloseSession);
      var (s2, _, status) := SendCommandSpec(s1, c);
      if status != Ok then (s2, status)
      else (s2.(connected := false, log := s2.log + [Disconnected]), Ok)
  }

  /** Connect and create a session; an open session is closed first. */
  function OpenSpec(s: SessionState): (r: (SessionState, Status))
    requires WellBehaved(s.script)
    ensures WellBehaved(r.0.script)
  {
    var (s1, status1) := CloseSpec(s);
    if status1 != Ok then (s1, status1)
    else
      var (s2, c) := NewCommand(s1.(connected := true, log := s1.log + [Connected]), CreateSession);
      var (s3, c', status) := SendCommandSpec(s2, c);
      if status != Ok then (s3, status) else (s3.(sessionId := Some(c'.fields.sessionId)), Ok)
  }

  /** One request of the driver: open, one command, close; a timeout ends it. */
  function ExecuteSpec(s: SessionState, kind: CommandKind): (r: (SessionState, Status))
    requires Printable(kind) && WellBehaved(s.script)
    ensures WellBehaved(r.0.script)
  {
    var (s1, status1) := OpenSpec(s);
    if status1 != Ok then (s1, status1)
    else
      var (s2, c) := NewCommand(s1, kind);
      var (s3, _, status) := SendCommandSpec(s2, c);
      if status != Ok then (s3, status) else CloseSpec(s3)
  }

  predicate IsRequestKind(kind: CommandKind) {
    Printable(kind) && !kind.CreateSession? && !kind.CloseSession?
  }

  /** Any number of requests, whether or not earlier ones timed out. */
  function RunSpec(s: SessionState, kinds: seq<CommandKind>): SessionState
    requires WellBehaved(s.script) && forall k | k in kinds :: IsRequestKind(k)
    decreases |kinds|
  {
    if kinds == [] then s
    else
      assert IsRequestKind(kinds[0]);
      RunSpec(ExecuteSpec(s, kinds[0]).0, kinds[1..])
  }

  // ---- The classes ----

  /** The receive loop with some chunks buffered, against the whole response. */
  ghost predicate Receiving(start: seq<Delivery>, buffers: seq<Bytes>, target: nat, now: seq<Delivery>) {
    && FirstChunkReadable(start)
    && if buffers == [] then now == start else ReceiveResponse(start) == Assemble(target, Concat(buffers), now)
  }

  lemma ReceiveStep(start: seq<Delivery>, buffers: seq<Bytes>, target: nat, now: seq<Delivery>, c: Bytes)
    requires Receiving(start, buffers, target, now) && now != [] && now[0] == Chunk(c)
    ensures buffers == [] ==> 8 <= |c|
    ensures var t := if buffers == [] then ExpectedPacketLength(c) else target;
            if Fits(t, |Concat(buffers)|, |c|)
            then ReceiveResponse(start) == Received(Concat(buffers) + c, now[1..])
            else Receiving(start, buffers + [c], t, now[1..])
  {
    ConcatSnoc(buffers, c);
  }

  class TCPClient {
    var connected: bool
    var script: seq<Delivery>  // results of the receive calls to come; none left is a timeout
    ghost var log: seq<Event>

    constructor (script: seq<Delivery>)
      ensures !connected && this.script == script && log == []
    {
      connected, log := false, [];
      this.script := script;
    }

    method Connect()
      modifies this`connected, this`log
      ensures connected && log == old(log) + [Connected]
    {
      connected := true;
      log := log + [Connected];
    }

    method Disconnect()
      modifies this`connected, this`log
      ensures !connected && log == old(log) + [Disconnected]
    {
      connected := false;
      log := log + [Disconnected];
    }

    method Send(telegram: Bytes)
      modifies this`log
      ensures log == old(log) + [Sent(telegram)]
    {
      log := log + [Sent(telegram)];
    }

    /** A timeout closes the socket. */
    method Receive() returns (d: Delivery)
      modifies this`connected, this`script, this`log
      ensures d == if old(script) == [] then Timeout else old(script)[0]
      ensures script == if old(script) == [] then [] else old(script)[1..]
      ensures connected == if d.Timeout? then false else old(connected)
      ensures log == if d.Timeout? then old(log) + [ReceiveTimeout] else old(log)
    {
      if script == [] {
        d := Timeout;
      } else {
        d := script[0];
        script := script[1..];
      }
      if d.Timeout? {
        connected := false;
        log := log + [ReceiveTimeout];
      }
    }
  }

  class Command {
    const session: Cola2Session
    const kind: CommandKind
    var commandType: uint8
    var commandMode: uint8
    var sessionId: uint32
    var requestId: uint16
    var dataVector: Bytes
    var wasSuccessful: Option<bool>  // None until a reply has been processed

    ghost function State(): CommandState
      reads this
    {
      CommandState(kind, TelegramFields(sessionId, requestId, commandType, commandMode), dataVector, wasSuccessful)
    }

    constructor (session: Cola2Session, kind: CommandKind)
      modifies session`requestId
      ensures this.session == session && this.kind == kind
      ensures (session.State(), State()) == NewCommand(old(session.State()), kind)
    {
      this.session, this.kind := session, kind;
      this.commandType, this.commandMode := CommandTypeOf(kind), CommandModeOf(kind);
      this.sessionId := session.sessionId.GetOr(0);
      this.dataVector, this.wasSuccessful := [], None;
      this.requestId := 0;
      new;
      requestId := session.GetNextRequestID();
    }

    method ConstructTelegram(telegram: Bytes) returns (t: Bytes)
      requires Printable(kind) && WritesFit(kind, telegram)
      ensures t == WithHeader(State().fields, WithData(telegram, kind))
      ensures telegram == [] ==> t == TelegramOf(State())
    {
      var v := AddTelegramData(kind, telegram);
      t := AddTelegramHeader(TelegramFields(sessionId, requestId, commandType, commandMode), v);
    }

    method ParseTCPSequence(packet: Bytes)
      requires HEADER_LENGTH <= |packet|
      modifies this
      ensures State() == old(State()).(fields := ParsedFields(packet), dataVector := ReadData(packet))
    {
      sessionId := ReadUint32BigEndian(packet, 10);
      requestId := ReadUint16BigEndian(packet, 14);
      commandType := packet[16];
      commandMode := packet[17];
      dataVector := ReadData(packet);
    }

    /** The reply to a create command also sets the session's id, if it is accepted. */
    method ProcessReplyBase(packet: Bytes)
      requires HEADER_LENGTH <= |packet|
      modifies this, session`sessionId
      ensures State() == AfterReply(old(State()), packet)
      ensures session.sessionId == if kind.CreateSession? && wasSuccessful == Some(true) then Some(sessionId) else old(session.sessionId)
    {
      ParseTCPSequence(packet);
      var accepted := ReplyAccepted(kind, commandType, commandMode);
      if kind.CreateSession? && accepted {
        session.SetSessionID(sessionId);
      }
      wasSuccessful := Some(accepted);
    }
  }

  class Cola2Session {
    const client: TCPClient
    var requestId: uint16
    var sessionId: Option<uint32>

    ghost function State(): SessionState
      reads this, client
    {
      SessionState(requestId, sessionId, client.connected, client.script, client.log)
    }

    constructor (client: TCPClient)
      ensures this.client == client && requestId == 0 && sessionId == None
    {
      this.client := client;
      requestId, sessionId := 0, None;
    }

    method GetNextRequestID() returns (id: uint16)
      modifies this`requestId
      ensures id == requestId == (old(requestId) + 1) % 0x1_0000
    {
      requestId := (requestId + 1) % 0x1_0000;
      id := requestId;
    }

    method SetSessionID(id: uint32)
      modifies this`sessionId
      ensures sessionId == Some(id)
    {
      sessionId := Some(id);
    }

    /** The receive loop: one merger per response, its target set from the first chunk. */
    method ReceiveAndProcessResponse() returns (response: Option<Bytes>)
      requires FirstChunkReadable(client.script)
      modifies client
      ensures match ReceiveResponse(old(client.script))
              case Received(packet, rest) =>
                response == Some(packet) && client.script == rest
                && client.connected == old(client.connected) && client.log == old(client.log) + [Replied(packet)]
              case TimedOut(rest) =>
                response == None && client.script == rest
                && !client.connected && client.log == old(client.log) + [ReceiveTimeout]
    {
      var merger := new TCPPacketMerger(0);
      ghost var start := client.script;
      while !merger.isComplete
        invariant fresh(merger)
        invariant client.connected == old(client.connected) && client.log == old(client.log)
        invariant if merger.isComplete
                  then merger.deployed.Some? && ReceiveResponse(start) == Received(merger.deployed.value, client.script)
                  else Receiving(start, merger.buffers, merger.targetSize, client.script)
        decreases |client.script|, if merger.isComplete then 0 else 1
      {
        ghost var now := client.script;
        var d := client.Receive();
        if d.Timeout? {
          return None;
        }
        ReceiveStep(start, merger.buffers, merger.targetSize, now, d.bytes);
        if merger.IsEmpty() {
          merger.SetTargetSize(ExpectedPacketLength(d.bytes));
        }
        var _ := merger.AddTCPPacket(d.bytes);
      }
      response := merger.GetDeployedPacketBuffer();
      client.log := client.log + [Replied(response.value)];
    }

    method SendCommand(cmd: Command) returns (status: Status)
      requires cmd.session == this && Printable(cmd.kind) && WellBehaved(client.script)
      modifies this`sessionId, client, cmd
      ensures (State(), cmd.State(), status) == SendCommandSpec(old(State()), old(cmd.State()))
    {
      if !client.connected {
        return NotOpenError;
      }
      cmd.sessionId := sessionId.GetOr(0);
      var telegram := cmd.ConstructTelegram([]);
      client.Send(telegram);
      ghost var sent, c1, r := State(), cmd.State(), ReceiveResponse(client.script);
      var response := ReceiveAndProcessResponse();
      if response == None {
        return TimeoutError;
      }
      cmd.ProcessReplyBase(response.value);
      status := Ok;
      assert (State(), cmd.State(), status) == AfterResponse(sent, c1, r);
    }

    method Close() returns (status: Status)
      requires WellBehaved(client.script)
      modifies this, client
      ensures (State(), status) == CloseSpec(old(State()))
    {
      if !client.connected {
        return Ok;
      }
      var cmd := new Command(this, CloseSession);
      status := SendCommand(cmd);
      if status != Ok {
        return;
      }
      client.Disconnect();
    }

    method Open() returns (status: Status)
      requires WellBehaved(client.script)
      modifies this, client
      ensures (State(), status) == OpenSpec(old(State()))
    {
      if client.connected {
        status := Close();
        if status != Ok {
          return;
        }
      }
      client.Connect();
      var cmd := new Command(this, CreateSession);
      status := SendCommand(cmd);
      if status != Ok {
        return;
      }
      SetSessionID(cmd.sessionId);
    }

    /** What the scanner object does for each of its requests. */
    method CreateAndExecuteCommand(kind: CommandKind) returns (status: Status)
      requires Printable(kind) && WellBehaved(client.script)
      modifies this, client
      ensures (State(), status) == ExecuteSpec(old(State()), kind)
    {
      status := Open();
      if status != Ok {
        return;
      }
      var cmd := new Command(this, kind);
      status := SendCommand(cmd);
      if status != Ok {
        return;
      }
      status := Close();
    }
  }

  // ---- What a log says ----

  predicate IsCreate(t: Bytes) { |t| >= HEADER_LENGTH && t[16] == 0x4F && t[17] == 0x58 }
  predicate IsClose(t: Bytes) { |t| >= HEADER_LENGTH && t[16] == 0x43 && t[17] == 0x58 }
  predicate IsRequest(t: Bytes) { |t| >= HEADER_LENGTH && (t[16] == 0x52 || t[16] == 0x4D) && t[17] == 0x49 }

  function Count(log: seq<Event>): nat {
    if log == [] then 0 else Count(log[..|log| - 1]) + if log[|log| - 1].Sent? then 1 else 0
  }

  predicate IsOpen(log: seq<Event>) {
    log != [] &&
    match log[|log| - 1]
    case Connected => true
    case Disconnected => false
    case ReceiveTimeout => false
    case _ => IsOpen(log[..|log| - 1])
  }

  /** Telegrams sent since the connection was made. */
  function SentNow(log: seq<Event>): seq<Bytes> {
    if log == [] then []
    else
      match log[|log| - 1]
      case Connected => []
      case Sent(t) => SentNow(log[..|log| - 1]) + [t]
      case _ => SentNow(log[..|log| - 1])
  }

  function LastSent(log: seq<Event>): Bytes {
    if log == [] then []
    else if log[|log| - 1].Sent? then log[|log| - 1].telegram
    else LastSent(log[..|log| - 1])
  }

  /** The session id in the latest reply to a create telegram, 0 if there was none. */
  function LatestCreateReply(log: seq<Event>): uint32 {
    if log == [] then 0
    else
      var past := log[..|log| - 1];
      match log[|log| - 1]
      case Replied(p) => if IsCreate(LastSent(past)) && |p| >= HEADER_LENGTH then ParsedFields(p).sessionId else LatestCreateReply(past)
      case _ => LatestCreateReply(past)
  }

  /** A prefix of create, one request, close. */
  predicate ConnectionShape(ts: seq<Bytes>) {
    && |ts| <= 3
    && (|ts| > 0 ==> IsCreate(ts[0]))
    && (|ts| > 1 ==> IsRequest(ts[1]))
    && (|ts| > 2 ==> IsClose(ts[2]))
  }

  /** A telegram that may be sent after `past`: next in its connection, under
      the latest session id, with the next request id. */
  predicate SafeToSend(past: seq<Event>, t: Bytes) {
    && HEADER_LENGTH <= |t|
    && IsOpen(past)
    && ConnectionShape(SentNow(past) + [t])
    && ParsedFields(t).sessionId == LatestCreateReply(past)
    && ParsedFields(t).requestId == (Count(past) + 1) % 0x1_0000
  }

  predicate Safe(log: seq<Event>) {
    log == []
    || (var past := log[..|log| - 1];
        && Safe(past)
        && match log[|log| - 1]
           case Sent(t) => SafeToSend(past, t)
           case Connected => !IsOpen(past)
           case _ => IsOpen(past))
  }

  /** The session's fields agree with what is on the log. */
  ghost predicate Inv(s: SessionState) {
    && Safe(s.log) && WellBehaved(s.script)
    && s.connected == IsOpen(s.log)
    && s.sessionId.GetOr(0) == LatestCreateReply(s.log)
    && s.requestId == Count(s.log) % 0x1_0000
  }

  // What one more event adds to each reading of a log.

  lemma SentStep(log: seq<Event>, t: Bytes)
    requires Safe(log) && SafeToSend(log, t)
    ensures var next := log + [Sent(t)];
            && Safe(next) && IsOpen(next) && Count(next) == Count(log) + 1 && LastSent(next) == t
            && SentNow(next) == SentNow(log) + [t] && LatestCreateReply(next) == LatestCreateReply(log)
  {
    var next := log + [Sent(t)];
    assert next[..|next| - 1] == log;
  }

  lemma ReplyStep(log: seq<Event>, p: Bytes)
    requires Safe(log) && IsOpen(log) && HEADER_LENGTH <= |p|
    ensures var next := log + [Replied(p)];
            && Safe(next) && IsOpen(next) && Count(next) == Count(log) && SentNow(next) == SentNow(log)
            && LatestCreateReply(next)
               == if IsCreate(LastSent(log)) then ParsedFields(p).sessionId else LatestCreateReply(log)
  {
    var next := log + [Replied(p)];
    assert next[..|next| - 1] == log;
  }

  lemma DownStep(log: seq<Event>, e: Event)
    requires Safe(log) && IsOpen(log) && (e.Disconnected? || e.ReceiveTimeout?)
    ensures var next := log + [e];
            && Safe(next) && !IsOpen(next) && Count(next) == Count(log)
            && LatestCreateReply(next) == LatestCreateReply(log)
  {
    var next := log + [e];
    assert next[..|next| - 1] == log;
  }

  lemma ConnectStep(log: seq<Event>)
    requires Safe(log) && !IsOpen(log)
    ensures var next := log + [Connected];
            && Safe(next) && IsOpen(next) && Count(next) == Count(log) && SentNow(next) == []
            && LatestCreateReply(next) == LatestCreateReply(log)
  {
    var next := log + [Connected];
    assert next[..|next| - 1] == log;
  }

  /** The four fields of a command's telegram, as they stand on the wire. */
  lemma WireFields(c: CommandState)
    requires Printable(c.kind)
    ensures ParsedFields(TelegramOf(c)) == c.fields
    ensures TelegramOf(c)[16] == c.fields.commandType && TelegramOf(c)[17] == c.fields.commandMode
  {
    TelegramRoundTrip(c.fields, CommandData(c.kind));
  }

  /** The kind of command due after `n` telegrams of a connection. */
  predicate Due(n: nat, kind: CommandKind) {
    match n
    case 0 => kind.CreateSession?
    case 1 => !kind.CreateSession? && !kind.CloseSession?
    case 2 => kind.CloseSession?
    case _ => false
  }

  lemma ShapeStep(ts: seq<Bytes>, t: Bytes, kind: CommandKind)
    requires ConnectionShape(ts) && Due(|ts|, kind)
    requires HEADER_LENGTH <= |t| && t[16] == CommandTypeOf(kind) && t[17] == CommandModeOf(kind)
    ensures ConnectionShape(ts + [t])
    ensures IsCreate(t) <==> kind.CreateSession?
  {
    var next := ts + [t];
    assert next[|ts|] == t;
    assert forall i :: 0 <= i < |ts| ==> next[i] == ts[i];
  }

  lemma NextId(n: nat)
    ensures (n % 0x1_0000 + 1) % 0x1_0000 == (n + 1) % 0x1_0000
  {
  }

  lemma NextIsSafeToSend(s: SessionState, kind: CommandKind)
    requires Inv(s) && s.connected && Printable(kind)
    requires ConnectionShape(SentNow(s.log)) && Due(|SentNow(s.log)|, kind)
    ensures var t := TelegramOf(NewCommand(s, kind).1);
            SafeToSend(s.log, t) && (IsCreate(t) <==> kind.CreateSession?)
  {
    var c := NewCommand(s, kind).1;
    WireFields(c);
    ShapeStep(SentNow(s.log), TelegramOf(c), kind);
    NextId(Count(s.log));
  }

  /** The telegram last sent is a create telegram exactly for a create command. */
  ghost predicate Awaiting(s: SessionState, c: CommandState) {
    Inv(s) && s.connected && (IsCreate(LastSent(s.log)) <==> c.kind.CreateSession?)
  }

  lemma SentAwaits(s: SessionState, kind: CommandKind)
    requires Inv(s) && s.connected && Printable(kind)
    requires ConnectionShape(SentNow(s.log)) && Due(|SentNow(s.log)|, kind)
    ensures var (s1, c) := NewCommand(s, kind);
            var sent := s1.(log := s.log + [Sent(TelegramOf(c))]);
            Awaiting(sent, c) && SentNow(sent.log) == SentNow(s.log) + [TelegramOf(c)]
  {
    NextIsSafeToSend(s, kind);
    InvAfterSending(s, TelegramOf(NewCommand(s, kind).1));
  }

  lemma InvAfterSending(s: SessionState, t: Bytes)
    requires Inv(s) && s.connected && SafeToSend(s.log, t)
    ensures var sent := s.(requestId := (s.requestId + 1) % 0x1_0000, log := s.log + [Sent(t)]);
            Inv(sent) && LastSent(sent.log) == t && SentNow(sent.log) == SentNow(s.log) + [t]
  {
    SentStep(s.log, t);
    NextId(Count(s.log));
  }

  lemma TimeoutStep(s: SessionState, c: CommandState, rest: seq<Delivery>)
    requires Awaiting(s, c) && WellBehaved(rest)
    ensures var (s2, _, status) := AfterResponse(s, c, TimedOut(rest));
            Inv(s2) && !s2.connected && status == TimeoutError
  {
    DownStep(s.log, ReceiveTimeout);
  }

  lemma AnswerStep(s: SessionState, c: CommandState, packet: Bytes, rest: seq<Delivery>)
    requires Awaiting(s, c) && WellBehaved(rest) && HEADER_LENGTH <= |packet|
    ensures var (s2, c', status) := AfterResponse(s, c, Received(packet, rest));
            && status == Ok && s2.connected && SentNow(s2.log) == SentNow(s.log)
            && Inv(if c.kind.CreateSession? then s2.(sessionId := Some(c'.fields.sessionId)) else s2)
  {
    ReplyStep(s.log, packet);
  }

  /** A connection's next command keeps the log safe, and the connection stays
      open exactly when the command is answered. */
  lemma SendStep(s: SessionState, kind: CommandKind)
    requires Inv(s) && s.connected && Printable(kind)
    requires ConnectionShape(SentNow(s.log)) && Due(|SentNow(s.log)|, kind)
    ensures var (s1, c) := NewCommand(s, kind);
            var (s2, c', status) := SendCommandSpec(s1, c);
            && status == (if s2.connected then Ok else TimeoutError)
            && Inv(if status == Ok && kind.CreateSession? then s2.(sessionId := Some(c'.fields.sessionId)) else s2)
            && (status == Ok ==> SentNow(s2.log) == SentNow(s.log) + [TelegramOf(c)])
  {
    var (s1, c) := NewCommand(s, kind);
    var sent := s1.(log := s.log + [Sent(TelegramOf(c))]);
    SentAwaits(s, kind);
    match ReceiveResponse(s.script)
    case TimedOut(rest) =>
      TimeoutStep(sent, c, rest);
    case Received(packet, rest) =>
      AnswerStep(sent, c, packet, rest);
  }

  /** Between requests no connection is open. */
  ghost predicate Idle(s: SessionState) {
    Inv(s) && !s.connected
  }

  lemma OpenSafe(s: SessionState)
    requires Idle(s)
    ensures var (s1, status) := OpenSpec(s);
            && Inv(s1) && status == (if s1.connected then Ok else TimeoutError)
            && (status == Ok ==> |SentNow(s1.log)| == 1 && ConnectionShape(SentNow(s1.log)))
  {
    ConnectStep(s.log);
    var s1 := s.(connected := true, log := s.log + [Connected]);
    SendStep(s1, CreateSession);
    var (s2, c) := NewCommand(s1, CreateSession);
    NextIsSafeToSend(s1, CreateSession);
  }

  lemma CloseSafe(s: SessionState)
    requires Inv(s) && s.connected && |SentNow(s.log)| == 2 && ConnectionShape(SentNow(s.log))
    ensures Idle(CloseSpec(s).0)
  {
    SendStep(s, CloseSession);
    var s2 := SendCommandSpec(NewCommand(s, CloseSession).0, NewCommand(s, CloseSession).1).0;
    if s2.connected {
      DownStep(s2.log, Disconnected);
    }
  }

  /** A request keeps the log safe and always leaves the connection closed,
      whatever the sensor replies and wherever a receive times out. */
  lemma ExecuteSafe(s: SessionState, kind: CommandKind)
    requires Idle(s) && IsRequestKind(kind)
    ensures Idle(ExecuteSpec(s, kind).0)
  {
    OpenSafe(s);
    var (s1, status) := OpenSpec(s);
    if status == Ok {
      SendStep(s1, kind);
      NextIsSafeToSend(s1, kind);
      var (s2, c) := NewCommand(s1, kind);
      var (s3, _, status3) := SendCommandSpec(s2, c);
      if status3 == Ok {
        CloseSafe(s3);
      }
    }
  }

  function InitialState(script: seq<Delivery>): SessionState {
    SessionState(0, None, false, script, [])
  }

  /** Every run of requests, against any well-behaved sequence of replies and timeouts. */
  lemma RunSafe(script: seq<Delivery>, kinds: seq<CommandKind>)
    requires WellBehaved(script) && forall k | k in kinds :: IsRequestKind(k)
    ensures Idle(RunSpec(InitialState(script), kinds))
  {
    RunFromIdle(InitialState(script), kinds);
  }

  lemma {:induction false} RunFromIdle(s: SessionState, kinds: seq<CommandKind>)
    requires Idle(s) && forall k | k in kinds :: IsRequestKind(k)
    ensures Idle(RunSpec(s, kinds))
    decreases |kinds|
  {
    if kinds != [] {
      ExecuteSafe(s, kinds[0]);
      RunFromIdle(ExecuteSpec(s, kinds[0]).0, kinds[1..]);
    }
  }

  // ---- Reading the safety of a log at any position ----

  lemma {:induction false} SafePrefix(log: seq<Event>, i: nat)
    requires Safe(log) && i <= |log|
    ensures Safe(log[..i])
  {
    if i == |log| {
      assert log[..i] == log;
    } else {
      SafePrefix(log[..|log| - 1], i);
      assert log[..|log| - 1][..i] == log[..i];
    }
  }

  /** Every telegram on a safe log was safe to send after everything before it. */
  lemma SafeAt(log: seq<Event>, i: nat)
    requires Safe(log) && i < |log| && log[i].Sent?
    ensures SafeToSend(log[..i], log[i].telegram)
  {
    SafePrefix(log, i + 1);
    assert log[..i + 1][..i] == log[..i];
  }

  lemma {:induction false} CountGrows(log: seq<Event>, i: nat, j: nat)
    requires i <= j <= |log|
    ensures Count(log[..i]) + (if i < j && log[i].Sent? then 1 else 0) <= Count(log[..j])
    decreases j
  {
    if i < j {
      assert log[..j][..j - 1] == log[..j - 1];
      CountGrows(log, i, j - 1);
    }
  }

  lemma RequestIdAt(log: seq<Event>, i: nat)
    requires Safe(log) && i < |log| && log[i].Sent?
    ensures HEADER_LENGTH <= |log[i].telegram|
    ensures ParsedFields(log[i].telegram).requestId == (Count(log[..i]) + 1) % 0x1_0000
  {
    SafeAt(log, i);
  }

  /** Among any 65536 consecutive telegrams no two carry the same request id. */
  lemma RequestIdsDistinct(log: seq<Event>, i: nat, j: nat)
    requires Safe(log) && i < j < |log| && log[i].Sent? && log[j].Sent?
    requires Count(log[..j]) - Count(log[..i]) < 0x1_0000
    ensures HEADER_LENGTH <= |log[i].telegram| && HEADER_LENGTH <= |log[j].telegram|
    ensures ParsedFields(log[i].telegram).requestId != ParsedFields(log[j].telegram).requestId
  {
    RequestIdAt(log, i);
    RequestIdAt(log, j);
    CountGrows(log, i, j);
    DifferentIds(Count(log[..i]), Count(log[..j]));
  }

  lemma DifferentIds(a: nat, b: nat)
    requires a < b < a + 0x1_0000
    ensures (a + 1) % 0x1_0000 != (b + 1) % 0x1_0000
  {
  }
}
