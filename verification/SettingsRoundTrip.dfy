/** The settings path end to end: printer, header, TCP chunks, merger, packet
    parser, configuration parser. */
module SettingsRoundTrip {
  import opened ReadWriteHelper
  import opened Telegram
  import opened TCPPacketMerger

  predicate WithinOneTick(ticks: int32, angle: real) {
    -1.0 / 4194304.0 < angle - ticks as real / 4194304.0 < 1.0 / 4194304.0
  }

  /** Settings printed into a telegram, delivered in any non-empty chunks of
      which the first reaches the end of the length field, and read back, are
      the settings printed; the angles come back to within one tick. */
  lemma SettingsSurviveTheWire(s: CommSettings, f: TelegramFields, cs: seq<Bytes>, rest: seq<Delivery>)
    requires AngleInRange(s.startAngle) && AngleInRange(s.endAngle)
    requires Concat(cs) == WithHeader(f, CommandData(ChangeCommSettingsCommand(s)))
    requires cs != [] && 8 <= |cs[0]| && forall i :: 0 <= i < |cs| ==> cs[i] != []
    ensures FirstChunkReadable(Chunks(cs) + rest)
    ensures var r := ReceiveResponse(Chunks(cs) + rest);
            && r.Received? && r.rest == rest
            && HEADER_LENGTH <= |r.packet| && ParsedFields(r.packet) == f
            && 26 <= |ReadData(r.packet)|
            && var c := ParseConfig(ReadData(r.packet));
               && c.enabled == s.enabled && c.eInterfaceType == s.eInterfaceType
               && c.hostIp == s.hostIp && c.hostUdpPort == s.hostUdpPort
               && c.publishingFrequency == s.publishingFrequency && c.features == s.features
               && c.startTicks == AngleTicks(s.startAngle) && WithinOneTick(c.startTicks, s.startAngle)
               && c.endTicks == AngleTicks(s.endAngle) && WithinOneTick(c.endTicks, s.endAngle)
  {
    var payload := CommandData(ChangeCommSettingsCommand(s));
    var t := WithHeader(f, payload);
    assert |payload| == 30 && payload[2..] == SettingsBlock(s);
    TelegramRoundTrip(f, payload);
    TelegramReassembly(t, cs, rest);
    SettingsBlockRoundTrip(s);
    AngleWithinOneTick(s.startAngle);
    AngleWithinOneTick(s.endAngle);
  }
}
