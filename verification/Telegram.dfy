/** CoLa2 telegrams: the printer of header and command data, and the parser of
    the packets that come back. */
module Telegram {
  import opened ReadWriteHelper

  const HEADER_LENGTH := 18

  /** Angles are real degrees here; the sensor counts 4194304 ticks a degree. */
  datatype CommSettings = CommSettings(
    channel: uint8, enabled: bool, eInterfaceType: uint8, hostIp: uint32, hostUdpPort: uint16,
    publishingFrequency: uint16, startAngle: real, endAngle: real, features: uint16)

  /** The command classes, with the data each adds to its telegram. */
  datatype CommandKind =
    | CreateSession
    | CloseSession
    | VariableCommand(variableIndex: uint16)
    | MethodCommand(methodIndex: uint16)
    | ChangeCommSettingsCommand(settings: CommSettings)

  const CHANGE_COMM_SETTINGS_INDEX: uint16 := 0x00b0

  function CommandTypeOf(kind: CommandKind): uint8 {
    match kind
    case CreateSession => 0x4F
    case CloseSession => 0x43
    case VariableCommand(_) => 0x52
    case MethodCommand(_) => 0x4D
    case ChangeCommSettingsCommand(_) => 0x4D
  }

  function CommandModeOf(kind: CommandKind): uint8 {
    match kind
    case CreateSession => 0x58
    case CloseSession => 0x58
    case VariableCommand(_) => 0x49
    case MethodCommand(_) => 0x49
    case ChangeCommSettingsCommand(_) => 0x49
  }

  // ---- Angles ----

  /** The scaled angle, cut off towards zero, fits 32 bits. */
  predicate AngleInRange(angle: real) {
    -2147483649.0 < angle * 4194304.0 < 2147483648.0
  }

  function TruncateToInt(x: real): int {
    if x >= 0.0 then x.Floor else -((-x).Floor)
  }

  function AngleTicks(angle: real): int32
    requires AngleInRange(angle)
  {
    TruncateToInt(angle * 4194304.0)
  }

  /** The range is exactly that of the conversion to 32 bits, and it holds every angle below 512 degrees. */
  lemma AngleInRangeIff(angle: real)
    ensures AngleInRange(angle) <==> -0x8000_0000 <= TruncateToInt(angle * 4194304.0) < 0x8000_0000
    ensures -512.0 < angle < 512.0 ==> AngleInRange(angle)
  {
  }

  /** An angle that can be sent is off by less than one tick, and never past the requested angle. */
  lemma AngleWithinOneTick(angle: real)
    requires AngleInRange(angle)
    ensures var back := AngleTicks(angle) as real / 4194304.0;
            -1.0 / 4194304.0 < angle - back < 1.0 / 4194304.0
            && (angle >= 0.0 ==> 0.0 <= back <= angle) && (angle <= 0.0 ==> angle <= back <= 0.0)
  {
    var x := angle * 4194304.0;
    var t := TruncateToInt(x) as real;
    assert -1.0 < x - t < 1.0;
    assert angle == x / 4194304.0;
  }

  // ---- What the printers produce ----

  predicate Printable(kind: CommandKind) {
    kind.ChangeCommSettingsCommand? ==> AngleInRange(kind.settings.startAngle) && AngleInRange(kind.settings.endAngle)
  }

  /** The 28-byte settings block. */
  function SettingsBlock(s: CommSettings): (block: Bytes)
    requires AngleInRange(s.startAngle) && AngleInRange(s.endAngle)
    ensures |block| == 28
  {
    [s.channel, 0, 0, 0, if s.enabled then 1 else 0, s.eInterfaceType, 0, 0]
    + EncodeUint32LittleEndian(s.hostIp) + EncodeUint16LittleEndian(s.hostUdpPort)
    + EncodeUint16LittleEndian(s.publishingFrequency)
    + EncodeInt32LittleEndian(AngleTicks(s.startAngle)) + EncodeInt32LittleEndian(AngleTicks(s.endAngle))
    + EncodeUint16LittleEndian(s.features) + [0, 0]
  }

  /** The data a command appends to a telegram. */
  function CommandData(kind: CommandKind): Bytes
    requires Printable(kind)
  {
    match kind
    case CreateSession => [60] + EncodeUint32BigEndian(1)
    case CloseSession => []
    case VariableCommand(index) => EncodeUint16LittleEndian(index)
    case MethodCommand(index) => EncodeUint16LittleEndian(index)
    case ChangeCommSettingsCommand(s) => EncodeUint16LittleEndian(CHANGE_COMM_SETTINGS_INDEX) + SettingsBlock(s)
  }

  /** The settings writes stay inside the buffer: their position counts the given telegram twice. */
  predicate WritesFit(kind: CommandKind, telegram: Bytes) {
    kind.ChangeCommSettingsCommand? ==> |telegram| <= 2
  }

  /** Where the last settings write ends: 26 bytes behind the index and once more the telegram's length. */
  function SettingsEnd(telegram: Bytes): nat {
    |telegram + EncodeUint16LittleEndian(CHANGE_COMM_SETTINGS_INDEX)| + |telegram| + 26
  }

  /** The end of the buffer: 28 bytes behind the index. */
  function BufferEnd(telegram: Bytes): nat {
    |telegram + EncodeUint16LittleEndian(CHANGE_COMM_SETTINGS_INDEX)| + 28
  }

  /** The settings writes stay inside exactly for telegrams of at most two bytes;
      three zero bytes are a telegram for which they do not. */
  lemma WritesFitIff(s: CommSettings, telegram: Bytes)
    ensures WritesFit(ChangeCommSettingsCommand(s), telegram) <==> SettingsEnd(telegram) <= BufferEnd(telegram)
    ensures SettingsEnd([0, 0, 0]) > BufferEnd([0, 0, 0])
  {
  }

  /** The telegram with a command's data: behind it, except that the settings block
      is pushed back by the telegram's length and loses that many of its last, reserved bytes. */
  function WithData(telegram: Bytes, kind: CommandKind): (t: Bytes)
    requires Printable(kind) && WritesFit(kind, telegram)
    ensures telegram == [] ==> t == CommandData(kind)
  {
    if kind.ChangeCommSettingsCommand? then
      telegram + EncodeUint16LittleEndian(CHANGE_COMM_SETTINGS_INDEX) + Zeros(|telegram|)
      + SettingsBlock(kind.settings)[..28 - |telegram|]
    else telegram + CommandData(kind)
  }

  datatype TelegramFields = TelegramFields(sessionId: uint32, requestId: uint16, commandType: uint8, commandMode: uint8)

  /** Start marker, length, two counters, and the four fields. */
  function TelegramHeader(f: TelegramFields, payloadLength: nat): (h: Bytes)
    ensures |h| == HEADER_LENGTH
  {
    EncodeUint32BigEndian(0x0202_0202) + EncodeUint32BigEndian((10 + payloadLength) % 0x1_0000_0000) + [0] + [0]
    + EncodeUint32BigEndian(f.sessionId) + EncodeUint16BigEndian(f.requestId) + [f.commandType] + [f.commandMode]
  }

  function WithHeader(f: TelegramFields, payload: Bytes): (t: Bytes)
    ensures |t| == HEADER_LENGTH + |payload|
  {
    TelegramHeader(f, |payload|) + payload
  }

  // ---- The printers ----

  /** A copy of the telegram with `additional` zero bytes behind it. */
  method ExpandTelegram(telegram: Bytes, additional: nat) returns (output: array<uint8>)
    ensures fresh(output) && output[..] == telegram + Zeros(additional)
  {
    output := new uint8[|telegram| + additional](_ => 0);
    for i := 0 to |telegram|
      invariant forall k :: 0 <= k < i ==> output[k] == telegram[k]
      invariant forall k :: i <= k < output.Length ==> output[k] == 0
    {
      output[i] := telegram[i];
    }
  }

  /** The eight header writes, in place; together they fill the header exactly. */
  method AddTelegramHeader(f: TelegramFields, telegram: Bytes) returns (t: Bytes)
    ensures t == WithHeader(f, telegram)
  {
    var header := new uint8[HEADER_LENGTH](_ => 0);
    ghost var b := header[..];
    var length: uint32 := (10 + |telegram|) % 0x1_0000_0000;
    WriteUint32BigEndian(header, 0, 0x0202_0202);
    WriteUint32BigEndian(header, 4, length);
    WriteUint8(header, 8, 0x00);
    WriteUint8(header, 9, 0x00);
    WriteUint32BigEndian(header, 10, f.sessionId);
    WriteUint16BigEndian(header, 14, f.requestId);
    WriteUint8(header, 16, f.commandType);
    WriteUint8(header, 17, f.commandMode);
    HeaderWrites(f, |telegram|, b);
    t := header[..] + telegram;
  }

  /** The eight header writes are disjoint and cover the header from end to end:
      nothing is left of what the buffer held. */
  lemma HeaderWrites(f: TelegramFields, payloadLength: nat, b: Bytes)
    requires |b| == HEADER_LENGTH
    ensures var length: uint32 := (10 + payloadLength) % 0x1_0000_0000;
            var h1 := Overwrite(b, 0, EncodeUint32BigEndian(0x0202_0202));
            var h2 := Overwrite(h1, 4, EncodeUint32BigEndian(length));
            var h3 := Overwrite(Overwrite(h2, 8, [0]), 9, [0]);
            var h4 := Overwrite(h3, 10, EncodeUint32BigEndian(f.sessionId));
            var h5 := Overwrite(h4, 14, EncodeUint16BigEndian(f.requestId));
            Overwrite(Overwrite(h5, 16, [f.commandType]), 17, [f.commandMode]) == TelegramHeader(f, payloadLength)
  {
    var length: uint32 := (10 + payloadLength) % 0x1_0000_0000;
    var d0 := [];
    var d1 := d0 + EncodeUint32BigEndian(0x0202_0202);
    var d2 := d1 + EncodeUint32BigEndian(length);
    var d3 := d2 + [0] + [0];
    var d4 := d3 + EncodeUint32BigEndian(f.sessionId);
    var d5 := d4 + EncodeUint16BigEndian(f.requestId);
    assert b == d0 + b[0..];
    WriteNext(d0, b, 0, EncodeUint32BigEndian(0x0202_0202));
    WriteNext(d1, b, 4, EncodeUint32BigEndian(length));
    WriteNext(d2, b, 8, [0]);
    WriteNext(d2 + [0], b, 9, [0]);
    WriteNext(d3, b, 10, EncodeUint32BigEndian(f.sessionId));
    WriteNext(d4, b, 14, EncodeUint16BigEndian(f.requestId));
    WriteNext(d5, b, 16, [f.commandType]);
    WriteNext(d5 + [f.commandType], b, 17, [f.commandMode]);
  }

  /** The data writers of the command classes. */
  method AddTelegramData(kind: CommandKind, telegram: Bytes) returns (t: Bytes)
    requires Printable(kind) && WritesFit(kind, telegram)
    ensures t == WithData(telegram, kind)
  {
    match kind
    case CreateSession =>
      var output := ExpandTelegram(telegram, 5);
      WriteUint8(output, |telegram|, 60);
      WriteUint32BigEndian(output, |telegram| + 1, 1);
      OverwriteNext(telegram, 5, [60]);
      OverwriteNext(telegram + [60], 4, EncodeUint32BigEndian(1));
      Associative(telegram, [60], EncodeUint32BigEndian(1));
      t := output[..];
    case CloseSession =>
      t := telegram;
    case VariableCommand(index) =>
      t := AppendIndex(telegram, index);
    case MethodCommand(index) =>
      t := AppendIndex(telegram, index);
    case ChangeCommSettingsCommand(settings) =>
      var base := AppendIndex(telegram, CHANGE_COMM_SETTINGS_INDEX);
      var output := ExpandTelegram(base, 28);
      SkipZeros(base, 28, |telegram|);
      ghost var done := base + Zeros(|telegram|);
      WriteSettings(output, |base| + |telegram|, settings, done);
      t := output[..];
  }

  /** The two-byte index of a method or a variable, behind the telegram. */
  method AppendIndex(telegram: Bytes, index: uint16) returns (t: Bytes)
    ensures t == telegram + EncodeUint16LittleEndian(index)
  {
    var output := ExpandTelegram(telegram, 2);
    WriteUint16LittleEndian(output, |telegram|, index);
    OverwriteNext(telegram, 2, EncodeUint16LittleEndian(index));
    t := output[..];
  }

  /** The nine settings writers; they need 26 bytes, the two reserved ones may be missing. */
  method WriteSettings(a: array<uint8>, at: nat, s: CommSettings, ghost done: Bytes)
    requires AngleInRange(s.startAngle) && AngleInRange(s.endAngle)
    requires at == |done| && at + 26 <= a.Length <= at + 28 && a[..] == done + Zeros(a.Length - at)
    modifies a
    ensures a[..] == done + SettingsBlock(s)[..a.Length - at]
  {
    WriteUint8(a, at + 0, s.channel);
    WriteUint8(a, at + 4, if s.enabled then 1 else 0);
    WriteUint8(a, at + 5, s.eInterfaceType);
    WriteUint32LittleEndian(a, at + 8, s.hostIp);
    WriteUint16LittleEndian(a, at + 12, s.hostUdpPort);
    WriteUint16LittleEndian(a, at + 14, s.publishingFrequency);
    WriteInt32LittleEndian(a, at + 16, AngleTicks(s.startAngle));
    WriteInt32LittleEndian(a, at + 20, AngleTicks(s.endAngle));
    WriteUint16LittleEndian(a, at + 24, s.features);
    SettingsWrites(done, s, a.Length - at);
  }

  /** The nine writes are disjoint; what they leave out stays zero. */
  lemma SettingsWrites(done: Bytes, s: CommSettings, n: nat)
    requires AngleInRange(s.startAngle) && AngleInRange(s.endAngle) && 26 <= n <= 28
    ensures var at := |done|;
            var a1 := Overwrite(done + Zeros(n), at, [s.channel]);
            var a2 := Overwrite(a1, at + 4, [if s.enabled then 1 else 0]);
            var a3 := Overwrite(a2, at + 5, [s.eInterfaceType]);
            var a4 := Overwrite(a3, at + 8, EncodeUint32LittleEndian(s.hostIp));
            var a5 := Overwrite(a4, at + 12, EncodeUint16LittleEndian(s.hostUdpPort));
            var a6 := Overwrite(a5, at + 14, EncodeUint16LittleEndian(s.publishingFrequency));
            var a7 := Overwrite(a6, at + 16, EncodeInt32LittleEndian(AngleTicks(s.startAngle)));
            var a8 := Overwrite(a7, at + 20, EncodeInt32LittleEndian(AngleTicks(s.endAngle)));
            Overwrite(a8, at + 24, EncodeUint16LittleEndian(s.features)) == done + SettingsBlock(s)[..n]
  {
    NineWrites(done, s.channel, if s.enabled then 1 else 0, s.eInterfaceType, EncodeUint32LittleEndian(s.hostIp),
               EncodeUint16LittleEndian(s.hostUdpPort), EncodeUint16LittleEndian(s.publishingFrequency),
               EncodeInt32LittleEndian(AngleTicks(s.startAngle)), EncodeInt32LittleEndian(AngleTicks(s.endAngle)),
               EncodeUint16LittleEndian(s.features), n);
    SettingsGrouping(done, s, n - 26);
  }

  lemma NineWrites(done: Bytes, channel: uint8, enabled: uint8, interfaceType: uint8,
                   ip: Bytes, port: Bytes, frequency: Bytes, start: Bytes, end: Bytes, features: Bytes, n: nat)
    requires |ip| == |start| == |end| == 4 && |port| == |frequency| == |features| == 2 && n >= 26
    ensures var at := |done|;
            var a3 := Overwrite(Overwrite(Overwrite(done + Zeros(n), at, [channel]), at + 4, [enabled]), at + 5, [interfaceType]);
            var a4 := Overwrite(a3, at + 8, ip);
            var a6 := Overwrite(Overwrite(a4, at + 12, port), at + 14, frequency);
            var a8 := Overwrite(Overwrite(a6, at + 16, start), at + 20, end);
            Overwrite(a8, at + 24, features)
            == done + [channel] + Zeros(3) + [enabled] + [interfaceType] + Zeros(2)
               + ip + port + frequency + start + end + features + Zeros(n - 26)
  {
    SettingsFirstWrites(done, channel, enabled, interfaceType, n);
    SettingsOtherWrites(done + [channel] + Zeros(3) + [enabled] + [interfaceType],
                        ip, port, frequency, start, end, features, n - 6);
  }

  lemma SettingsOtherWrites(d: Bytes, ip: Bytes, port: Bytes, frequency: Bytes, start: Bytes, end: Bytes, features: Bytes, n: nat)
    requires |ip| == |start| == |end| == 4 && |port| == |frequency| == |features| == 2 && n >= 20
    ensures var at := |d|;
            var a4 := Overwrite(d + Zeros(n), at + 2, ip);
            var a6 := Overwrite(Overwrite(a4, at + 6, port), at + 8, frequency);
            var a8 := Overwrite(Overwrite(a6, at + 10, start), at + 14, end);
            Overwrite(a8, at + 18, features)
            == d + Zeros(2) + ip + port + frequency + start + end + features + Zeros(n - 20)
  {
    var d4 := d + Zeros(2) + ip;
    var d6 := d4 + port + frequency;
    SkipZeros(d, n, 2);
    OverwriteNext(d + Zeros(2), n - 2, ip);
    OverwriteNext(d4, n - 6, port);
    OverwriteNext(d4 + port, n - 8, frequency);
    OverwriteNext(d6, n - 10, start);
    OverwriteNext(d6 + start, n - 14, end);
    OverwriteNext(d6 + start + end, n - 18, features);
  }

  lemma SettingsFirstWrites(done: Bytes, channel: uint8, enabled: uint8, interfaceType: uint8, n: nat)
    requires 26 <= n
    ensures var at := |done|;
            var written := Overwrite(Overwrite(Overwrite(done + Zeros(n), at, [channel]), at + 4, [enabled]), at + 5, [interfaceType]);
            written == done + [channel] + Zeros(3) + [enabled] + [interfaceType] + Zeros(n - 6)
  {
    var d1 := done + [channel];
    var d2 := d1 + Zeros(3) + [enabled];
    OverwriteNext(done, n, [channel]);
    SkipZeros(d1, n - 1, 3);
    OverwriteNext(d1 + Zeros(3), n - 4, [enabled]);
    OverwriteNext(d2, n - 5, [interfaceType]);
  }

  /** The first 26 + k bytes of a block whose last two are zero. */
  lemma CutBehind(body: Bytes, k: nat)
    requires |body| == 26 && k <= 2
    ensures (body + [0, 0])[..26 + k] == body + Zeros(k)
  {
  }

  /** The block built up behind `done` piece by piece is `done` followed by the block. */
  lemma SettingsGrouping(done: Bytes, s: CommSettings, k: nat)
    requires AngleInRange(s.startAngle) && AngleInRange(s.endAngle) && k <= 2
    ensures done + [s.channel] + Zeros(3) + [if s.enabled then 1 else 0] + [s.eInterfaceType] + Zeros(2)
          + EncodeUint32LittleEndian(s.hostIp) + EncodeUint16LittleEndian(s.hostUdpPort)
          + EncodeUint16LittleEndian(s.publishingFrequency)
          + EncodeInt32LittleEndian(AngleTicks(s.startAngle)) + EncodeInt32LittleEndian(AngleTicks(s.endAngle))
          + EncodeUint16LittleEndian(s.features) + Zeros(k)
         == done + SettingsBlock(s)[..26 + k]
  {
    var b1: Bytes := [s.channel, 0, 0, 0, if s.enabled then 1 else 0, s.eInterfaceType, 0, 0];
    assert done + [s.channel] + Zeros(3) + [if s.enabled then 1 else 0] + [s.eInterfaceType] + Zeros(2) == done + b1;
    var b2 := b1 + EncodeUint32LittleEndian(s.hostIp);
    var b3 := b2 + EncodeUint16LittleEndian(s.hostUdpPort);
    var b4 := b3 + EncodeUint16LittleEndian(s.publishingFrequency);
    var b5 := b4 + EncodeInt32LittleEndian(AngleTicks(s.startAngle));
    var b6 := b5 + EncodeInt32LittleEndian(AngleTicks(s.endAngle));
    var b7 := b6 + EncodeUint16LittleEndian(s.features);
    Associative(done, b1, EncodeUint32LittleEndian(s.hostIp));
    Associative(done, b2, EncodeUint16LittleEndian(s.hostUdpPort));
    Associative(done, b3, EncodeUint16LittleEndian(s.publishingFrequency));
    Associative(done, b4, EncodeInt32LittleEndian(AngleTicks(s.startAngle)));
    Associative(done, b5, EncodeInt32LittleEndian(AngleTicks(s.endAngle)));
    Associative(done, b6, EncodeUint16LittleEndian(s.features));
    Associative(done, b7, Zeros(k));
    CutBehind(b7, k);
  }

  // ---- The parser of packets from the sensor ----

  /** The length field counts neither the start marker nor itself. */
  function ExpectedPacketLength(packet: Bytes): uint32
    requires 8 <= |packet|
  {
    (ReadUint32BigEndian(packet, 4) + 8) % 0x1_0000_0000
  }

  function ParsedFields(packet: Bytes): TelegramFields
    requires HEADER_LENGTH <= |packet|
  {
    TelegramFields(ReadUint32BigEndian(packet, 10), ReadUint16BigEndian(packet, 14), packet[16], packet[17])
  }

  function ReadData(packet: Bytes): Bytes {
    if |packet| < 20 then [] else packet[20..]
  }

  /** The parser recovers what the printer was given. The expected length is the
      telegram's own exactly when that length fits 32 bits. */
  lemma TelegramRoundTrip(f: TelegramFields, payload: Bytes)
    ensures var t := WithHeader(f, payload);
            && ParsedFields(t) == f
            && (ExpectedPacketLength(t) == |t| <==> |t| < 0x1_0000_0000)
            && ReadData(t) == (if |payload| < 2 then [] else payload[2..])
            && t[HEADER_LENGTH..] == payload
  {
    HeaderRoundTrip(f, |payload|);
    ParseBehindHeader(f, TelegramHeader(f, |payload|), payload);
  }

  lemma ParseBehindHeader(f: TelegramFields, h: Bytes, payload: Bytes)
    requires |h| == HEADER_LENGTH && ParsedFields(h) == f
    requires ReadUint32BigEndian(h, 4) == (10 + |payload|) % 0x1_0000_0000
    ensures var t := h + payload;
            && ParsedFields(t) == f
            && (ExpectedPacketLength(t) == |t| <==> |t| < 0x1_0000_0000)
            && ReadData(t) == (if |payload| < 2 then [] else payload[2..])
            && t[HEADER_LENGTH..] == payload
  {
    LengthFits(|payload|);
    ReadBeforePayload(h, payload);
  }

  /** What the parser reads in front of and behind the header. */
  lemma ReadBeforePayload(h: Bytes, payload: Bytes)
    requires |h| == HEADER_LENGTH
    ensures ParsedFields(h + payload) == ParsedFields(h)
    ensures ReadUint32BigEndian(h + payload, 4) == ReadUint32BigEndian(h, 4)
    ensures ReadData(h + payload) == (if |payload| < 2 then [] else payload[2..])
    ensures (h + payload)[HEADER_LENGTH..] == payload
  {
    SkipPrefix(h, payload, 0);
    if |payload| >= 2 {
      SkipPrefix(h, payload, 2);
    }
  }

  lemma LengthFits(n: nat)
    ensures ((10 + n) % 0x1_0000_0000 + 8) % 0x1_0000_0000 == 18 + n <==> 18 + n < 0x1_0000_0000
  {
  }

  lemma HeaderRoundTrip(f: TelegramFields, payloadLength: nat)
    ensures var h := TelegramHeader(f, payloadLength);
            ParsedFields(h) == f && ReadUint32BigEndian(h, 4) == (10 + payloadLength) % 0x1_0000_0000
  {
    var h := TelegramHeader(f, payloadLength);
    var length: uint32 := (10 + payloadLength) % 0x1_0000_0000;
    assert h[4..8] == EncodeUint32BigEndian(length);
    Uint32BigEndianInverse(h, 4, length);
    assert h[10..14] == EncodeUint32BigEndian(f.sessionId);
    Uint32BigEndianInverse(h, 10, f.sessionId);
    assert h[14..16] == EncodeUint16BigEndian(f.requestId);
    Uint16BigEndianInverse(h, 14, f.requestId);
  }

  // ---- The reader of the settings block ----

  /** What the configuration parser stores; angles as the raw signed ticks. */
  datatype ConfigData = ConfigData(
    versionIndicator: uint8, majorNumber: uint8, minorNumber: uint8, releaseNumber: uint8,
    enabled: bool, eInterfaceType: uint8, hostIp: uint32, hostUdpPort: uint16,
    publishingFrequency: uint16, startTicks: int32, endTicks: int32, features: uint16)

  /** Angles are read unsigned and converted to signed when they are stored. */
  function ParseConfig(d: Bytes): ConfigData
    requires 26 <= |d|
  {
    ConfigData(d[0], d[1], d[2], d[3], d[4] != 0, d[5], ReadUint32LittleEndian(d, 8),
               ReadUint16LittleEndian(d, 12), ReadUint16LittleEndian(d, 14),
               ToInt32(ReadUint32LittleEndian(d, 16)), ToInt32(ReadUint32LittleEndian(d, 20)),
               ReadUint16LittleEndian(d, 24))
  }

  lemma SettingsBlockRoundTrip(s: CommSettings)
    requires AngleInRange(s.startAngle) && AngleInRange(s.endAngle)
    ensures ParseConfig(SettingsBlock(s))
         == ConfigData(s.channel, 0, 0, 0, s.enabled, s.eInterfaceType, s.hostIp, s.hostUdpPort,
                       s.publishingFrequency, AngleTicks(s.startAngle), AngleTicks(s.endAngle), s.features)
  {
    var d := SettingsBlock(s);
    assert d[8..12] == EncodeUint32LittleEndian(s.hostIp);
    Uint32LittleEndianInverse(d, 8, s.hostIp);
    assert d[12..14] == EncodeUint16LittleEndian(s.hostUdpPort);
    Uint16LittleEndianInverse(d, 12, s.hostUdpPort);
    assert d[14..16] == EncodeUint16LittleEndian(s.publishingFrequency);
    Uint16LittleEndianInverse(d, 14, s.publishingFrequency);
    assert d[16..20] == EncodeInt32LittleEndian(AngleTicks(s.startAngle));
    Int32LittleEndianInverse(d, 16, AngleTicks(s.startAngle));
    assert d[20..24] == EncodeInt32LittleEndian(AngleTicks(s.endAngle));
    Int32LittleEndianInverse(d, 20, AngleTicks(s.endAngle));
    assert d[24..26] == EncodeUint16LittleEndian(s.features);
    Uint16LittleEndianInverse(d, 24, s.features);
  }
}
