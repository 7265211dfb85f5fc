/** The bytes of CoLa2 telegrams, as they stand on the wire, against the printers
    and readers. */
module TelegramFormat {
  import opened ReadWriteHelper
  import opened Telegram

  // ---- What is sent ----

  /** A telegram: start marker, number of bytes that follow the length field, two
      counters, session and request id, and a tail that starts with type and mode. */
  function Wire(sessionId: uint32, requestId: uint16, tail: Bytes): Bytes {
    [0x02, 0x02, 0x02, 0x02] + EncodeUint32BigEndian((8 + |tail|) % 0x1_0000_0000) + [0, 0]
    + EncodeUint32BigEndian(sessionId) + EncodeUint16BigEndian(requestId) + tail
  }

  /** Type, mode and data of each command class. */
  function Tail(kind: CommandKind): (tail: Bytes)
    requires Printable(kind)
  {
    match kind
    case CreateSession => [0x4F, 0x58, 60, 0, 0, 0, 1]
    case CloseSession => [0x43, 0x58]
    case VariableCommand(index) => [0x52, 0x49, index % 256, index / 256]
    case MethodCommand(index) => [0x4D, 0x49, index % 256, index / 256]
    case ChangeCommSettingsCommand(s) => [0x4D, 0x49, 0xB0, 0x00] + SettingsBlock(s)
  }

  lemma TailIs(kind: CommandKind)
    requires Printable(kind)
    ensures [CommandTypeOf(kind), CommandModeOf(kind)] + CommandData(kind) == Tail(kind)
  {
  }

  lemma Regrouped(a: Bytes, b: Bytes, c: Bytes, d: Bytes, t: uint8, m: uint8, payload: Bytes)
    ensures a + b + [0] + [0] + c + d + [t] + [m] + payload == a + b + [0, 0] + c + d + ([t, m] + payload)
  {
  }

  /** What the printer makes of a command with its own type and mode. */
  lemma PrintedTelegram(sessionId: uint32, requestId: uint16, kind: CommandKind)
    requires Printable(kind)
    ensures WithHeader(TelegramFields(sessionId, requestId, CommandTypeOf(kind), CommandModeOf(kind)), CommandData(kind))
         == Wire(sessionId, requestId, Tail(kind))
  {
    var payload := CommandData(kind);
    TailIs(kind);
    StartMarker();
    Regrouped(EncodeUint32BigEndian(0x0202_0202), EncodeUint32BigEndian((10 + |payload|) % 0x1_0000_0000),
              EncodeUint32BigEndian(sessionId), EncodeUint16BigEndian(requestId),
              CommandTypeOf(kind), CommandModeOf(kind), payload);
  }

  lemma StartMarker()
    ensures EncodeUint32BigEndian(0x0202_0202) == [0x02, 0x02, 0x02, 0x02]
  {
  }

  /** A settings block, field by field. */
  predicate SettingsAreAt(d: Bytes, s: CommSettings)
    requires AngleInRange(s.startAngle) && AngleInRange(s.endAngle)
  {
    && |d| == 28
    && d[0] == s.channel && d[1..4] == [0, 0, 0]
    && d[4] == (if s.enabled then 1 else 0) && d[5] == s.eInterfaceType && d[6..8] == [0, 0]
    && d[8..12] == EncodeUint32LittleEndian(s.hostIp)
    && d[12..14] == EncodeUint16LittleEndian(s.hostUdpPort)
    && d[14..16] == EncodeUint16LittleEndian(s.publishingFrequency)
    && d[16..20] == EncodeInt32LittleEndian(AngleTicks(s.startAngle))
    && d[20..24] == EncodeInt32LittleEndian(AngleTicks(s.endAngle))
    && d[24..26] == EncodeUint16LittleEndian(s.features) && d[26..28] == [0, 0]
  }

  lemma SettingsPlaces(s: CommSettings)
    requires AngleInRange(s.startAngle) && AngleInRange(s.endAngle)
    ensures SettingsAreAt(SettingsBlock(s), s)
  {
  }

  // ---- What is read ----

  /** The fields of a reply and its data, at their places. */
  predicate ReplyIs(p: Bytes, f: TelegramFields, data: Bytes) {
    && 18 <= |p|
    && p[10..14] == EncodeUint32BigEndian(f.sessionId) && p[14..16] == EncodeUint16BigEndian(f.requestId)
    && p[16] == f.commandType && p[17] == f.commandMode
    && data == (if |p| < 20 then [] else p[20..])
  }

  lemma ReplyIff(p: Bytes, f: TelegramFields, data: Bytes)
    requires 18 <= |p|
    ensures ReplyIs(p, f, data) <==> ParsedFields(p) == f && ReadData(p) == data
  {
    Uint32BigEndianInverse(p, 10, f.sessionId);
    Uint16BigEndianInverse(p, 14, f.requestId);
  }

  /** A stored configuration, field by field; angles as signed ticks. */
  predicate ConfigIsAt(d: Bytes, c: ConfigData) {
    && 26 <= |d|
    && d[0] == c.versionIndicator && d[1] == c.majorNumber && d[2] == c.minorNumber && d[3] == c.releaseNumber
    && (d[4] != 0) == c.enabled && d[5] == c.eInterfaceType
    && d[8..12] == EncodeUint32LittleEndian(c.hostIp)
    && d[12..14] == EncodeUint16LittleEndian(c.hostUdpPort)
    && d[14..16] == EncodeUint16LittleEndian(c.publishingFrequency)
    && d[16..20] == EncodeInt32LittleEndian(c.startTicks) && d[20..24] == EncodeInt32LittleEndian(c.endTicks)
    && d[24..26] == EncodeUint16LittleEndian(c.features)
  }

  lemma ConfigIff(d: Bytes, c: ConfigData)
    requires 26 <= |d|
    ensures ConfigIsAt(d, c) <==> ParseConfig(d) == c
  {
    Uint32LittleEndianInverse(d, 8, c.hostIp);
    Uint16LittleEndianInverse(d, 12, c.hostUdpPort);
    Uint16LittleEndianInverse(d, 14, c.publishingFrequency);
    Int32LittleEndianInverse(d, 16, c.startTicks);
    Int32LittleEndianInverse(d, 20, c.endTicks);
    Uint16LittleEndianInverse(d, 24, c.features);
  }

  /** The whole length is eight more than the big-endian number at byte 4. */
  lemma ExpectedLengthIff(p: Bytes, n: uint32)
    requires 8 <= |p| && p[4..8] == EncodeUint32BigEndian(n)
    ensures ExpectedPacketLength(p) == (n + 8) % 0x1_0000_0000
  {
    Uint32BigEndianInverse(p, 4, n);
    LengthFrom(p, n);
  }

  lemma LengthFrom(p: Bytes, n: uint32)
    requires 8 <= |p| && ReadUint32BigEndian(p, 4) == n
    ensures ExpectedPacketLength(p) == (n + 8) % 0x1_0000_0000
  {
  }
}
