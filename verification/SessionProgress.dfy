/** What a session does send, in bytes and in order: one request, and any number
    of them, against any replies and timeouts. */
module SessionProgress {
  import opened ReadWriteHelper
  import opened Telegram
  import opened TelegramFormat
  import opened TCPPacketMerger
  import opened Cola2Session

  // ---- One command ----

  /** The telegram of the next command of a session. */
  function NextTelegram(s: SessionState, kind: CommandKind): Bytes
    requires Printable(kind)
  {
    Wire(s.sessionId.GetOr(0), (s.requestId + 1) % 0x1_0000, Tail(kind))
  }

  lemma NewCommandTelegram(s: SessionState, kind: CommandKind)
    requires Printable(kind)
    ensures TelegramOf(NewCommand(s, kind).1) == NextTelegram(s, kind)
  {
    PrintedTelegram(s.sessionId.GetOr(0), (s.requestId + 1) % 0x1_0000, kind);
  }

  /** The verdict of each command class on a reply `p`. */
  predicate Accepts(kind: CommandKind, p: Bytes)
    requires 18 <= |p|
  {
    match kind
    case CreateSession => p[16] == 0x4F && p[17] == 0x41
    case CloseSession => p[16] == 0x43 && p[17] == 0x41
    case VariableCommand(_) => p[16] == 0x52 && p[17] == 0x41
    case MethodCommand(_) => p[16] == 0x41 && p[17] == 0x49
    case ChangeCommSettingsCommand(_) => p[16] != 0x41 || p[17] != 0x49
  }

  /** A reply decides the command's verdict by its bytes 16 and 17, hands over its
      data, and changes the session's id exactly if it accepts a create command. */
  lemma VerdictIff(s: SessionState, c: CommandState)
    requires Printable(c.kind) && WellBehaved(s.script) && s.connected && ReceiveResponse(s.script).Received?
    ensures var (s', c', status) := SendCommandSpec(s, c);
            var p := ReceiveResponse(s.script).packet;
            && status == Ok && 18 <= |p| && c'.kind == c.kind
            && c'.wasSuccessful == Some(Accepts(c.kind, p))
            && ReplyIs(p, c'.fields, c'.dataVector)
            && s'.sessionId == if c.kind.CreateSession? && Accepts(c.kind, p) then Some(c'.fields.sessionId) else s.sessionId
  {
    var p := ReceiveResponse(s.script).packet;
    ReplyIff(p, ParsedFields(p), ReadData(p));
  }

  /** One command on an open connection: its telegram, then the reply or a timeout. */
  lemma SendProgress(s: SessionState, kind: CommandKind)
    requires s.connected && Printable(kind) && WellBehaved(s.script)
    ensures var (s1, c) := NewCommand(s, kind);
            var (s2, c', status) := SendCommandSpec(s1, c);
            && s2.requestId == (s.requestId + 1) % 0x1_0000
            && (!kind.CreateSession? ==> s2.sessionId == s.sessionId)
            && match ReceiveResponse(s.script)
               case TimedOut(rest) =>
                 && status == TimeoutError && !s2.connected && s2.script == rest && s2.sessionId == s.sessionId
                 && s2.log == s.log + [Sent(NextTelegram(s, kind)), ReceiveTimeout]
               case Received(p, rest) =>
                 && status == Ok && s2.connected && s2.script == rest && 18 <= |p|
                 && c'.fields.sessionId == ReadUint32BigEndian(p, 10)
                 && s2.log == s.log + [Sent(NextTelegram(s, kind)), Replied(p)]
  {
    NewCommandTelegram(s, kind);
  }

  // ---- One request ----

  /** The session after a request, and the request's status. */
  datatype Request = Request(log: seq<Event>, status: Status, sessionId: Option<uint32>, requestId: uint16, script: seq<Delivery>) {
    /** The connection is closed in any case. */
    function Session(): SessionState {
      SessionState(requestId, sessionId, false, script, log)
    }
  }

  function Next(requestId: uint16): uint16 {
    (requestId + 1) % 0x1_0000
  }

  /** Close the session `id`, and disconnect when the response is there. */
  function ExpectedClose(log: seq<Event>, id: uint32, requestId: uint16, script: seq<Delivery>): (r: Request)
    requires WellBehaved(script)
    ensures WellBehaved(r.script)
  {
    var close := Wire(id, Next(requestId), [0x43, 0x58]);
    match ReceiveResponse(script)
    case TimedOut(rest) => Request(log + [Sent(close), ReceiveTimeout], TimeoutError, Some(id), Next(requestId), rest)
    case Received(p, rest) => Request(log + [Sent(close), Replied(p), Disconnected], Ok, Some(id), Next(requestId), rest)
  }

  /** Send the request under `id`, and close when the response is there. */
  function ExpectedCommand(log: seq<Event>, id: uint32, requestId: uint16, script: seq<Delivery>, kind: CommandKind): (r: Request)
    requires Printable(kind) && WellBehaved(script)
    ensures WellBehaved(r.script)
  {
    var request := Wire(id, Next(requestId), Tail(kind));
    match ReceiveResponse(script)
    case TimedOut(rest) => Request(log + [Sent(request), ReceiveTimeout], TimeoutError, Some(id), Next(requestId), rest)
    case Received(p, rest) => ExpectedClose(log + [Sent(request), Replied(p)], id, Next(requestId), rest)
  }

  /** Connect, create a session, and send the request under the id of the response. */
  function Expected(log: seq<Event>, sessionId: Option<uint32>, requestId: uint16, script: seq<Delivery>, kind: CommandKind): (r: Request)
    requires Printable(kind) && WellBehaved(script)
    ensures WellBehaved(r.script)
  {
    var create := Wire(sessionId.GetOr(0), Next(requestId), [0x4F, 0x58, 60, 0, 0, 0, 1]);
    match ReceiveResponse(script)
    case TimedOut(rest) => Request(log + [Connected, Sent(create), ReceiveTimeout], TimeoutError, sessionId, Next(requestId), rest)
    case Received(p, rest) =>
      ExpectedCommand(log + [Connected, Sent(create), Replied(p)], ReadUint32BigEndian(p, 10), Next(requestId), rest, kind)
  }

  /** Opening a closed session. */
  lemma OpenProgress(s: SessionState)
    requires !s.connected && WellBehaved(s.script)
    ensures var (s', status) := OpenSpec(s);
            var create := Wire(s.sessionId.GetOr(0), (s.requestId + 1) % 0x1_0000, [0x4F, 0x58, 60, 0, 0, 0, 1]);
            && s'.requestId == (s.requestId + 1) % 0x1_0000
            && match ReceiveResponse(s.script)
               case TimedOut(rest) =>
                 && status == TimeoutError && !s'.connected && s'.script == rest && s'.sessionId == s.sessionId
                 && s'.log == s.log + [Connected, Sent(create), ReceiveTimeout]
               case Received(p, rest) =>
                 && status == Ok && s'.connected && s'.script == rest && 18 <= |p|
                 && s'.sessionId == Some(ReadUint32BigEndian(p, 10))
                 && s'.log == s.log + [Connected, Sent(create), Replied(p)]
  {
    var s1 := s.(connected := true, log := s.log + [Connected]);
    SendProgress(s1, CreateSession);
  }

  /** Closing an open session; a closed one stays as it is. */
  lemma CloseProgress(s: SessionState)
    requires WellBehaved(s.script)
    ensures !s.connected ==> CloseSpec(s) == (s, Ok)
    ensures s.connected ==>
              var (s', status) := CloseSpec(s);
              var close := Wire(s.sessionId.GetOr(0), (s.requestId + 1) % 0x1_0000, [0x43, 0x58]);
              && !s'.connected && s'.requestId == (s.requestId + 1) % 0x1_0000 && s'.sessionId == s.sessionId
              && match ReceiveResponse(s.script)
                 case TimedOut(rest) =>
                   status == TimeoutError && s'.script == rest && s'.log == s.log + [Sent(close), ReceiveTimeout]
                 case Received(p, rest) =>
                   status == Ok && s'.script == rest && s'.log == s.log + [Sent(close), Replied(p), Disconnected]
  {
    if s.connected {
      SendProgress(s, CloseSession);
    }
  }

  /** Opening an open session closes it first. */
  lemma ReopenProgress(s: SessionState)
    requires WellBehaved(s.script)
    ensures OpenSpec(s) == if CloseSpec(s).1 == Ok then OpenSpec(CloseSpec(s).0) else CloseSpec(s)
    ensures CloseSpec(s).1 == Ok ==> !CloseSpec(s).0.connected
  {
    CloseProgress(s);
  }

  /** From an open session on: no response to the request. */
  lemma CommandTimesOut(s: SessionState, kind: CommandKind)
    requires s.connected && s.sessionId.Some? && WellBehaved(s.script) && Printable(kind) && !kind.CreateSession?
    requires ReceiveResponse(s.script).TimedOut?
    ensures var (s1, c) := NewCommand(s, kind);
            var (s2, _, status) := SendCommandSpec(s1, c);
            var r := ExpectedCommand(s.log, s.sessionId.value, s.requestId, s.script, kind);
            status == TimeoutError && (s2, status) == (r.Session(), r.status)
  {
    SendProgress(s, kind);
  }

  lemma CloseIsExpected(s: SessionState, id: uint32)
    requires s.connected && s.sessionId == Some(id) && WellBehaved(s.script)
    ensures var r := ExpectedClose(s.log, id, s.requestId, s.script);
            CloseSpec(s) == (r.Session(), r.status)
  {
    CloseProgress(s);
  }

  /** From an open session on: a response, and then the closing. */
  lemma CommandAnswered(s: SessionState, kind: CommandKind)
    requires s.connected && s.sessionId.Some? && WellBehaved(s.script) && Printable(kind) && !kind.CreateSession?
    requires ReceiveResponse(s.script).Received?
    ensures var (s1, c) := NewCommand(s, kind);
            var (s2, _, status) := SendCommandSpec(s1, c);
            var r := ExpectedCommand(s.log, s.sessionId.value, s.requestId, s.script, kind);
            status == Ok && CloseSpec(s2) == (r.Session(), r.status)
  {
    SendProgress(s, kind);
    var (s1, c) := NewCommand(s, kind);
    CloseIsExpected(SendCommandSpec(s1, c).0, s.sessionId.value);
  }

  /** A request from a closed session does exactly what is expected of it. */
  lemma ExecuteProgress(s: SessionState, kind: CommandKind)
    requires !s.connected && WellBehaved(s.script) && Printable(kind) && !kind.CreateSession?
    ensures var r := Expected(s.log, s.sessionId, s.requestId, s.script, kind);
            ExecuteSpec(s, kind) == (r.Session(), r.status)
  {
    OpenProgress(s);
    var (s1, status1) := OpenSpec(s);
    if status1 == Ok {
      if ReceiveResponse(s1.script).TimedOut? {
        CommandTimesOut(s1, kind);
      } else {
        CommandAnswered(s1, kind);
      }
    }
  }

  // ---- Any number of requests ----

  /** One request after the other. */
  function ExpectedRun(log: seq<Event>, sessionId: Option<uint32>, requestId: uint16, script: seq<Delivery>, kinds: seq<CommandKind>): seq<Event>
    requires WellBehaved(script) && forall k | k in kinds :: IsRequestKind(k)
    decreases |kinds|
  {
    if kinds == [] then log
    else
      assert IsRequestKind(kinds[0]);
      var r := Expected(log, sessionId, requestId, script, kinds[0]);
      ExpectedRun(r.log, r.sessionId, r.requestId, r.script, kinds[1..])
  }

  /** A run of requests puts on the wire exactly what is expected of each, in order. */
  lemma {:induction false} RunProgress(s: SessionState, kinds: seq<CommandKind>)
    requires !s.connected && WellBehaved(s.script) && forall k | k in kinds :: IsRequestKind(k)
    ensures RunSpec(s, kinds).log == ExpectedRun(s.log, s.sessionId, s.requestId, s.script, kinds)
    decreases |kinds|
  {
    if kinds != [] {
      assert IsRequestKind(kinds[0]);
      ExecuteProgress(s, kinds[0]);
      RunProgress(Expected(s.log, s.sessionId, s.requestId, s.script, kinds[0]).Session(), kinds[1..]);
    }
  }

  // ---- From the chunks on ----

  /** A response telegram with a right length field, long enough for its header, in
      non-empty chunks of which the first reaches the end of the length field. */
  predicate Delivered(t: Bytes, cs: seq<Bytes>) {
    && HEADER_LENGTH <= |t| && ExpectedPacketLength(t) == |t| && Concat(cs) == t
    && cs != [] && 8 <= |cs[0]| && forall i :: 0 <= i < |cs| ==> cs[i] != []
  }

  lemma DeliveredIsReceived(t: Bytes, cs: seq<Bytes>, rest: seq<Delivery>)
    requires Delivered(t, cs) && WellBehaved(rest)
    ensures WellBehaved(Chunks(cs) + rest) && ReceiveResponse(Chunks(cs) + rest) == Received(t, rest)
  {
    TelegramReassembly(t, cs, rest);
  }

  lemma NextNext(requestId: uint16)
    ensures Next(Next(requestId)) == (requestId + 2) % 0x1_0000
    ensures Next(Next(Next(requestId))) == (requestId + 3) % 0x1_0000
  {
  }

  /** The log after a request that got these three responses. */
  function Answered(log: seq<Event>, sessionId: Option<uint32>, requestId: uint16, kind: CommandKind, t1: Bytes, t2: Bytes, t3: Bytes): seq<Event>
    requires Printable(kind) && 18 <= |t1|
  {
    var id := ReadUint32BigEndian(t1, 10);
    var create := Wire(sessionId.GetOr(0), (requestId + 1) % 0x1_0000, [0x4F, 0x58, 60, 0, 0, 0, 1]);
    var request := Wire(id, (requestId + 2) % 0x1_0000, Tail(kind));
    var close := Wire(id, (requestId + 3) % 0x1_0000, [0x43, 0x58]);
    log + [Connected, Sent(create), Replied(t1), Sent(request), Replied(t2), Sent(close), Replied(t3), Disconnected]
  }

  ghost predicate ThreeReceived(script: seq<Delivery>, t1: Bytes, t2: Bytes, t3: Bytes, rest: seq<Delivery>) {
    exists rest1, rest2 ::
      && WellBehaved(script) && WellBehaved(rest1) && WellBehaved(rest2)
      && ReceiveResponse(script) == Received(t1, rest1) && ReceiveResponse(rest1) == Received(t2, rest2)
      && ReceiveResponse(rest2) == Received(t3, rest)
  }

  /** Three responses received: the eight events of a whole request. */
  lemma ThreeResponses(log: seq<Event>, sessionId: Option<uint32>, requestId: uint16, script: seq<Delivery>, kind: CommandKind,
                       t1: Bytes, t2: Bytes, t3: Bytes, rest: seq<Delivery>)
    requires Printable(kind) && WellBehaved(script) && 18 <= |t1| && ThreeReceived(script, t1, t2, t3, rest)
    ensures var r := Expected(log, sessionId, requestId, script, kind);
            && r.status == Ok && r.script == rest && r.sessionId == Some(ReadUint32BigEndian(t1, 10))
            && r.log == Answered(log, sessionId, requestId, kind, t1, t2, t3)
  {
    NextNext(requestId);
  }

  lemma ThreeDelivered(t1: Bytes, c1: seq<Bytes>, t2: Bytes, c2: seq<Bytes>, t3: Bytes, c3: seq<Bytes>,
                       script: seq<Delivery>, rest: seq<Delivery>)
    requires WellBehaved(rest) && Delivered(t1, c1) && Delivered(t2, c2) && Delivered(t3, c3)
    requires script == Chunks(c1) + (Chunks(c2) + (Chunks(c3) + rest))
    ensures WellBehaved(script) && ThreeReceived(script, t1, t2, t3, rest)
  {
    var rest2 := Chunks(c3) + rest;
    var rest1 := Chunks(c2) + rest2;
    DeliveredIsReceived(t3, c3, rest);
    DeliveredIsReceived(t2, c2, rest2);
    DeliveredIsReceived(t1, c1, rest1);
  }

  /** Three responses delivered in any chunks: the request succeeds, sends its
      create, request and close telegram, and takes nothing beyond the third response. */
  lemma AnsweredRequest(s: SessionState, kind: CommandKind, t1: Bytes, c1: seq<Bytes>, t2: Bytes, c2: seq<Bytes>,
                        t3: Bytes, c3: seq<Bytes>, rest: seq<Delivery>)
    requires !s.connected && Printable(kind) && !kind.CreateSession? && WellBehaved(rest)
    requires Delivered(t1, c1) && Delivered(t2, c2) && Delivered(t3, c3)
    requires s.script == Chunks(c1) + (Chunks(c2) + (Chunks(c3) + rest))
    ensures WellBehaved(s.script)
    ensures var (s', status) := ExecuteSpec(s, kind);
            && status == Ok && s'.script == rest && s'.sessionId == Some(ReadUint32BigEndian(t1, 10))
            && s'.log == Answered(s.log, s.sessionId, s.requestId, kind, t1, t2, t3)
  {
    ThreeDelivered(t1, c1, t2, c2, t3, c3, s.script, rest);
    ExecuteProgress(s, kind);
    ThreeResponses(s.log, s.sessionId, s.requestId, s.script, kind, t1, t2, t3, rest);
  }
}
