/** The bytes of a data packet, field by field at their places, and what the
    parser makes of exactly these bytes. */
module PacketFormat {
  import opened ReadWriteHelper
  import opened BitFlags
  import opened ScanData
  import opened CheckedParsing
  import Intrusion = IntrusionData
  import Blocks = IntrusionBlocks
  import Measurement = MeasurementData

  // ---- Single fields ----

  predicate Word16At(d: Bytes, at: nat, v: uint16) {
    at + 2 <= |d| && d[at..at + 2] == EncodeUint16LittleEndian(v)
  }

  predicate Word32At(d: Bytes, at: nat, v: uint32) {
    at + 4 <= |d| && d[at..at + 4] == EncodeUint32LittleEndian(v)
  }

  predicate Signed16At(d: Bytes, at: nat, v: int16) {
    Word16At(d, at, if v < 0 then v + 0x1_0000 else v)
  }

  predicate Signed32At(d: Bytes, at: nat, v: int32) {
    Word32At(d, at, if v < 0 then v + 0x1_0000_0000 else v)
  }

  /** Flag `k` is bit `k % 8` of byte `k / 8`. */
  predicate FlagsAt(d: Bytes, at: nat, n: nat, flags: seq<bool>)
    requires at + (n + 7) / 8 <= |d|
  {
    |flags| == n && forall k :: 0 <= k < n ==> flags[k] == Bit(d[at + k / 8], k % 8)
  }

  predicate Words16At(d: Bytes, at: nat, n: nat, words: seq<uint16>) {
    |words| == n && forall i :: 0 <= i < n ==> Word16At(d, at + 2 * i, words[i])
  }

  predicate SignedWords16At(d: Bytes, at: nat, n: nat, words: seq<int16>) {
    |words| == n && forall i :: 0 <= i < n ==> Signed16At(d, at + 2 * i, words[i])
  }

  lemma Word16Iff(d: Bytes, at: nat, v: uint16)
    requires at + 2 <= |d|
    ensures Word16At(d, at, v) <==> ReadUint16LittleEndian(d, at) == v
  {
    Uint16LittleEndianInverse(d, at, v);
  }

  lemma Word32Iff(d: Bytes, at: nat, v: uint32)
    requires at + 4 <= |d|
    ensures Word32At(d, at, v) <==> ReadUint32LittleEndian(d, at) == v
  {
    Uint32LittleEndianInverse(d, at, v);
  }

  lemma Signed16Iff(d: Bytes, at: nat, v: int16)
    requires at + 2 <= |d|
    ensures Signed16At(d, at, v) <==> ReadInt16LittleEndian(d, at) == v
  {
    Word16Iff(d, at, if v < 0 then v + 0x1_0000 else v);
  }

  lemma Signed32Iff(d: Bytes, at: nat, v: int32)
    requires at + 4 <= |d|
    ensures Signed32At(d, at, v) <==> ReadInt32LittleEndian(d, at) == v
  {
    Word32Iff(d, at, if v < 0 then v + 0x1_0000_0000 else v);
  }

  lemma FlagsIff(d: Bytes, at: nat, n: nat, flags: seq<bool>)
    requires at + (n + 7) / 8 <= |d|
    ensures Holds(d, at, n) && (FlagsAt(d, at, n, flags) <==> Flags(d, at, n) == flags)
  {
    forall k | 0 <= k < n ensures Flags(d, at, n)[k] == Bit(d[at + k / 8], k % 8) {
      FlagAt(d, at, n, k);
    }
    if FlagsAt(d, at, n, flags) {
      forall k | 0 <= k < n ensures flags[k] == Flags(d, at, n)[k] {
      }
    }
  }

  lemma Words16Iff(d: Bytes, at: nat, n: nat, words: seq<uint16>)
    requires at + 2 * n <= |d|
    ensures Words16At(d, at, n, words) <==> Words(d, at, n) == words
  {
    if |words| == n {
      forall i | 0 <= i < n ensures Word16At(d, at + 2 * i, words[i]) <==> Words(d, at, n)[i] == words[i] {
        Word16Iff(d, at + 2 * i, words[i]);
      }
    }
  }

  lemma SignedWords16Iff(d: Bytes, at: nat, n: nat, words: seq<int16>)
    requires at + 2 * n <= |d|
    ensures SignedWords16At(d, at, n, words) <==> SignedWords(d, at, n) == words
  {
    if |words| == n {
      forall i | 0 <= i < n ensures Signed16At(d, at + 2 * i, words[i]) <==> SignedWords(d, at, n)[i] == words[i] {
        Signed16Iff(d, at + 2 * i, words[i]);
      }
    }
  }

  // ---- The header ----

  predicate BlockIsAt(d: Bytes, at: nat, b: Block) {
    Word16At(d, at, b.offset) && Word16At(d, at + 2, b.size)
  }

  predicate HeaderIsAt(d: Bytes, h: DataHeader) {
    && 52 <= |d| && !h.isEmpty
    && d[0] == h.versionIndicator && d[1] == h.majorVersion && d[2] == h.minorVersion && d[3] == h.release
    && Word32At(d, 4, h.serialNumberOfDevice) && Word32At(d, 8, h.serialNumberOfSystemPlug)
    && d[12] == h.channelNumber
    && Word32At(d, 16, h.sequenceNumber) && Word32At(d, 20, h.scanNumber)
    && Word16At(d, 24, h.timestampDate) && Word32At(d, 28, h.timestampTime)
    && BlockIsAt(d, 32, h.general) && BlockIsAt(d, 36, h.derived) && BlockIsAt(d, 40, h.measurement)
    && BlockIsAt(d, 44, h.intrusion) && BlockIsAt(d, 48, h.application)
  }

  lemma BlockIff(d: Bytes, at: nat, b: Block)
    requires at + 4 <= |d|
    ensures BlockIsAt(d, at, b) <==> BlockAt(d, at) == b
  {
    Word16Iff(d, at, b.offset);
    Word16Iff(d, at + 2, b.size);
  }

  /** The header read from a packet is the one whose fields stand at these places, and no other. */
  lemma HeaderIff(d: Bytes, h: DataHeader)
    requires 52 <= |d|
    ensures HeaderIsAt(d, h) <==> HeaderOf(d) == h
  {
    Word32Iff(d, 4, h.serialNumberOfDevice);
    Word32Iff(d, 8, h.serialNumberOfSystemPlug);
    Word32Iff(d, 16, h.sequenceNumber);
    Word32Iff(d, 20, h.scanNumber);
    Word16Iff(d, 24, h.timestampDate);
    Word32Iff(d, 28, h.timestampTime);
    BlockIff(d, 32, h.general);
    BlockIff(d, 36, h.derived);
    BlockIff(d, 40, h.measurement);
    BlockIff(d, 44, h.intrusion);
    BlockIff(d, 48, h.application);
  }

  /** A printed header; the bytes in its two gaps are free. */
  function PrintedHeader(h: DataHeader, gap13: Bytes, gap26: Bytes): (d: Bytes)
    requires |gap13| == 3 && |gap26| == 2
    ensures |d| == 52
  {
    PrintedVersion(h, gap13) + PrintedScanHeader(h, gap26) + PrintedPlaces(h)
  }

  function PrintedVersion(h: DataHeader, gap13: Bytes): (d: Bytes)
    requires |gap13| == 3
    ensures |d| == 16
  {
    [h.versionIndicator, h.majorVersion, h.minorVersion, h.release] + EncodeUint32LittleEndian(h.serialNumberOfDevice)
    + EncodeUint32LittleEndian(h.serialNumberOfSystemPlug) + [h.channelNumber] + gap13
  }

  function PrintedScanHeader(h: DataHeader, gap26: Bytes): (d: Bytes)
    requires |gap26| == 2
    ensures |d| == 16
  {
    EncodeUint32LittleEndian(h.sequenceNumber) + EncodeUint32LittleEndian(h.scanNumber)
    + EncodeUint16LittleEndian(h.timestampDate) + gap26 + EncodeUint32LittleEndian(h.timestampTime)
  }

  function PrintedBlock(b: Block): (d: Bytes)
    ensures |d| == 4
  {
    EncodeUint16LittleEndian(b.offset) + EncodeUint16LittleEndian(b.size)
  }

  function PrintedPlaces(h: DataHeader): (d: Bytes)
    ensures |d| == 20
  {
    PrintedBlock(h.general) + PrintedBlock(h.derived) + PrintedBlock(h.measurement)
    + PrintedBlock(h.intrusion) + PrintedBlock(h.application)
  }

  lemma SubSlice(d: Bytes, a: nat, b: nat, i: nat, j: nat)
    requires a <= b <= |d| && i <= j <= b - a
    ensures d[a..b][i..j] == d[a + i..a + j]
  {
    forall k | 0 <= k < j - i ensures d[a..b][i..j][k] == d[a + i..a + j][k] {
      assert d[a..b][i + k] == d[a + i + k];
    }
  }

  lemma VersionInPlace(h: DataHeader, gap13: Bytes, d: Bytes)
    requires |gap13| == 3 && 16 <= |d| && d[..16] == PrintedVersion(h, gap13)
    ensures d[0] == h.versionIndicator && d[1] == h.majorVersion && d[2] == h.minorVersion && d[3] == h.release
    ensures Word32At(d, 4, h.serialNumberOfDevice) && Word32At(d, 8, h.serialNumberOfSystemPlug) && d[12] == h.channelNumber
  {
    var e := d[..16];
    assert d[0] == e[0] && d[1] == e[1] && d[2] == e[2] && d[3] == e[3] && d[12] == e[12];
    SubSlice(d, 0, 16, 4, 8);
    SubSlice(d, 0, 16, 8, 12);
    assert d[0..16] == e && e[4..8] == EncodeUint32LittleEndian(h.serialNumberOfDevice);
    assert e[8..12] == EncodeUint32LittleEndian(h.serialNumberOfSystemPlug);
  }

  lemma ScanHeaderInPlace(h: DataHeader, gap26: Bytes, d: Bytes)
    requires |gap26| == 2 && 32 <= |d| && d[16..32] == PrintedScanHeader(h, gap26)
    ensures Word32At(d, 16, h.sequenceNumber) && Word32At(d, 20, h.scanNumber)
    ensures Word16At(d, 24, h.timestampDate) && Word32At(d, 28, h.timestampTime)
  {
    var e := d[16..32];
    SubSlice(d, 16, 32, 0, 4);
    SubSlice(d, 16, 32, 4, 8);
    SubSlice(d, 16, 32, 8, 10);
    SubSlice(d, 16, 32, 12, 16);
    assert e[0..4] == EncodeUint32LittleEndian(h.sequenceNumber) && e[4..8] == EncodeUint32LittleEndian(h.scanNumber);
    assert e[8..10] == EncodeUint16LittleEndian(h.timestampDate) && e[12..16] == EncodeUint32LittleEndian(h.timestampTime);
  }

  lemma PlaceInPlace(d: Bytes, at: nat, b: Block)
    requires at + 4 <= |d| && d[at..at + 4] == PrintedBlock(b)
    ensures BlockIsAt(d, at, b)
  {
    var e := d[at..at + 4];
    SubSlice(d, at, at + 4, 0, 2);
    SubSlice(d, at, at + 4, 2, 4);
    assert e[0..2] == EncodeUint16LittleEndian(b.offset) && e[2..4] == EncodeUint16LittleEndian(b.size);
  }

  lemma PlacesInPlace(h: DataHeader, d: Bytes)
    requires 52 <= |d| && d[32..52] == PrintedPlaces(h)
    ensures BlockIsAt(d, 32, h.general) && BlockIsAt(d, 36, h.derived) && BlockIsAt(d, 40, h.measurement)
    ensures BlockIsAt(d, 44, h.intrusion) && BlockIsAt(d, 48, h.application)
  {
    var e := d[32..52];
    SubSlice(d, 32, 52, 0, 4);
    SubSlice(d, 32, 52, 4, 8);
    SubSlice(d, 32, 52, 8, 12);
    SubSlice(d, 32, 52, 12, 16);
    SubSlice(d, 32, 52, 16, 20);
    assert e[0..4] == PrintedBlock(h.general) && e[4..8] == PrintedBlock(h.derived) && e[8..12] == PrintedBlock(h.measurement);
    assert e[12..16] == PrintedBlock(h.intrusion) && e[16..20] == PrintedBlock(h.application);
    PlaceInPlace(d, 32, h.general);
    PlaceInPlace(d, 36, h.derived);
    PlaceInPlace(d, 40, h.measurement);
    PlaceInPlace(d, 44, h.intrusion);
    PlaceInPlace(d, 48, h.application);
  }

  /** Every header can be printed in front of any rest, and is read back. */
  lemma HeaderRoundTrip(h: DataHeader, gap13: Bytes, gap26: Bytes, rest: Bytes)
    requires |gap13| == 3 && |gap26| == 2 && !h.isEmpty
    ensures var d := PrintedHeader(h, gap13, gap26) + rest;
            HeaderIsAt(d, h) && HeaderOf(d) == h
  {
    var v, s, p := PrintedVersion(h, gap13), PrintedScanHeader(h, gap26), PrintedPlaces(h);
    var d := v + s + p + rest;
    assert d[..16] == v && d[16..32] == s && d[32..52] == p;
    VersionInPlace(h, gap13, d);
    ScanHeaderInPlace(h, gap26, d);
    PlacesInPlace(h, d);
    HeaderIff(d, h);
  }

  // ---- The size check and the gating ----

  const NOWHERE := Block(0, 0)

  /** The packet, its length taken as a 32-bit number, is at least as long as the five declared sizes together. */
  predicate LongEnough(d: Bytes, h: DataHeader) {
    h.general.size + h.derived.size + h.measurement.size + h.intrusion.size + h.application.size <= |d| % 0x1_0000_0000
  }

  lemma GateIff(d: Bytes, h: DataHeader)
    requires HeaderIsAt(d, h)
    ensures GatedHeader(d)
         == if LongEnough(d, h) then h
            else h.(general := NOWHERE, derived := NOWHERE, measurement := NOWHERE, intrusion := NOWHERE, application := NOWHERE)
  {
    HeaderIff(d, h);
  }

  /** A packet shorter than its declared blocks is parsed safely, into its header without blocks. */
  lemma ShortPacketIsEmpty(d: Bytes, h: DataHeader)
    requires HeaderIsAt(d, h) && !LongEnough(d, h)
    ensures Parseable(d)
    ensures ScanOf(d)
         == Scan(h.(general := NOWHERE, derived := NOWHERE, measurement := NOWHERE, intrusion := NOWHERE, application := NOWHERE),
                 NoDerivedValues, Measurement.MeasurementData(true, None, []), NoGeneralSystemState, NoIntrusionData, NoApplicationData)
  {
    HeaderIff(d, h);
    TooShortIsEmpty(d);
  }

  // ---- The blocks of fixed layout ----

  predicate DerivedIsAt(d: Bytes, v: DerivedValues) {
    && 20 <= |d| && v.DerivedValues?
    && Word16At(d, 0, v.multiplicationFactor) && Word16At(d, 2, v.numberOfBeams) && Word16At(d, 4, v.scanTime)
    && Signed32At(d, 8, v.startTicks) && Signed32At(d, 12, v.resolutionTicks) && Word32At(d, 16, v.interbeamPeriod)
  }

  lemma DerivedIff(d: Bytes, v: DerivedValues)
    requires 20 <= |d|
    ensures DerivedIsAt(d, v) <==> DerivedAt(d) == v
  {
    if v.DerivedValues? {
      Word16Iff(d, 0, v.multiplicationFactor);
      Word16Iff(d, 2, v.numberOfBeams);
      Word16Iff(d, 4, v.scanTime);
      Signed32Iff(d, 8, v.startTicks);
      Signed32Iff(d, 12, v.resolutionTicks);
      Word32Iff(d, 16, v.interbeamPeriod);
    }
  }

  predicate GeneralIsAt(d: Bytes, g: GeneralSystemState) {
    && 16 <= |d| && g.GeneralSystemState?
    && g.status.runModeActive == Bit(d[0], 0) && g.status.standbyModeActive == Bit(d[0], 1)
    && g.status.contaminationWarning == Bit(d[0], 2) && g.status.contaminationError == Bit(d[0], 3)
    && g.status.referenceContourStatus == Bit(d[0], 4) && g.status.manipulationStatus == Bit(d[0], 5)
    && FlagsAt(d, 1, 20, g.safeCutOffPath) && FlagsAt(d, 4, 20, g.nonSafeCutOffPath)
    && FlagsAt(d, 7, 20, g.resetRequiredCutOffPath)
    && g.monitoringCases == [d[10], d[11], d[12], d[13]]
    && g.errors.applicationError == Bit(d[15], 0) && g.errors.deviceError == Bit(d[15], 1)
  }

  lemma GeneralIff(d: Bytes, g: GeneralSystemState)
    requires 16 <= |d|
    ensures GeneralIsAt(d, g) <==> GeneralAt(d) == g
  {
    if g.GeneralSystemState? {
      FlagsIff(d, 1, 20, g.safeCutOffPath);
      FlagsIff(d, 4, 20, g.nonSafeCutOffPath);
      FlagsIff(d, 7, 20, g.resetRequiredCutOffPath);
      assert d[10..14] == [d[10], d[11], d[12], d[13]];
    }
  }

  predicate VelocitiesAreAt(d: Bytes, at: nat, v: LinearVelocities) {
    && at + 5 <= |d|
    && Signed16At(d, at, v.velocity0) && Signed16At(d, at + 2, v.velocity1)
    && v.velocity0Valid == Bit(d[at + 4], 0) && v.velocity1Valid == Bit(d[at + 4], 1)
    && v.velocity0TransmittedSafely == Bit(d[at + 4], 4) && v.velocity1TransmittedSafely == Bit(d[at + 4], 5)
  }

  lemma VelocitiesIff(d: Bytes, at: nat, v: LinearVelocities)
    requires at + 5 <= |d|
    ensures VelocitiesAreAt(d, at, v) <==> LinearVelocitiesAt(d, at) == v
  {
    Signed16Iff(d, at, v.velocity0);
    Signed16Iff(d, at + 2, v.velocity1);
  }

  predicate InputsAreAt(d: Bytes, a: ApplicationInputs) {
    && 260 <= |d|
    && FlagsAt(d, 0, 32, a.unsafeInputsSources) && FlagsAt(d, 4, 32, a.unsafeInputsFlags)
    && Words16At(d, 12, 20, a.monitoringCases) && FlagsAt(d, 52, 20, a.monitoringCaseFlags)
    && VelocitiesAreAt(d, 56, a.velocities) && d[74] == a.sleepModeInput
  }

  lemma InputsIff(d: Bytes, a: ApplicationInputs)
    requires 260 <= |d|
    ensures InputsAreAt(d, a) <==> ApplicationInputsAt(d) == a
  {
    FlagsIff(d, 0, 32, a.unsafeInputsSources);
    FlagsIff(d, 4, 32, a.unsafeInputsFlags);
    Words16Iff(d, 12, 20, a.monitoringCases);
    FlagsIff(d, 52, 20, a.monitoringCaseFlags);
    VelocitiesIff(d, 56, a.velocities);
  }

  predicate HostErrorsAreAt(b: uint8, e: HostErrorFlags) {
    && e.contaminationWarning == Bit(b, 0) && e.contaminationError == Bit(b, 1) && e.manipulationError == Bit(b, 2)
    && e.glare == Bit(b, 3) && e.referenceContourIntruded == Bit(b, 4) && e.criticalError == Bit(b, 5)
  }

  predicate OutputsAreAt(d: Bytes, a: ApplicationOutputs) {
    && 260 <= |d|
    && FlagsAt(d, 140, 20, a.evalOut) && FlagsAt(d, 144, 20, a.evalOutIsSafe) && FlagsAt(d, 148, 20, a.evalOutIsValid)
    && Words16At(d, 152, 20, a.monitoringCases) && FlagsAt(d, 192, 20, a.monitoringCaseFlags)
    && d[193] == a.sleepModeOutput && HostErrorsAreAt(d[194], a.errorFlags)
    && VelocitiesAreAt(d, 200, a.velocities) && SignedWords16At(d, 208, 20, a.resultingVelocities)
    && FlagsAt(d, 248, 20, a.resultingVelocityIsValid)
    && a.outputFlags.sleepModeOutputIsValid == Bit(d[259], 0) && a.outputFlags.hostErrorFlagsAreValid == Bit(d[259], 1)
  }

  lemma OutputsIff(d: Bytes, a: ApplicationOutputs)
    requires 260 <= |d|
    ensures OutputsAreAt(d, a) <==> ApplicationOutputsAt(d) == a
  {
    FlagsIff(d, 140, 20, a.evalOut);
    FlagsIff(d, 144, 20, a.evalOutIsSafe);
    FlagsIff(d, 148, 20, a.evalOutIsValid);
    Words16Iff(d, 152, 20, a.monitoringCases);
    FlagsIff(d, 192, 20, a.monitoringCaseFlags);
    VelocitiesIff(d, 200, a.velocities);
    SignedWords16Iff(d, 208, 20, a.resultingVelocities);
    FlagsIff(d, 248, 20, a.resultingVelocityIsValid);
  }

  // ---- The parse of a packet, from its bytes ----

  /** What the blocks of fixed layout are parsed into: what stands where the header puts them. */
  lemma DerivedFromBytes(d: Bytes, h: DataHeader)
    requires Parseable(d) && HeaderIsAt(d, h) && LongEnough(d, h)
    ensures ScanOf(d).header == h
    ensures if h.derived == NOWHERE then ScanOf(d).derived.NoDerivedValues?
            else h.derived.offset <= |d| && DerivedIsAt(d[h.derived.offset..], ScanOf(d).derived)
  {
    GateIff(d, h);
    if h.derived != NOWHERE {
      DerivedIff(d[h.derived.offset..], DerivedAt(d[h.derived.offset..]));
    }
  }

  lemma GeneralFromBytes(d: Bytes, h: DataHeader)
    requires Parseable(d) && HeaderIsAt(d, h) && LongEnough(d, h)
    ensures if h.general == NOWHERE then ScanOf(d).general.NoGeneralSystemState?
            else h.general.offset <= |d| && GeneralIsAt(d[h.general.offset..], ScanOf(d).general)
  {
    GateIff(d, h);
    if h.general != NOWHERE {
      GeneralIff(d[h.general.offset..], GeneralAt(d[h.general.offset..]));
    }
  }

  lemma ApplicationFromBytes(d: Bytes, h: DataHeader)
    requires Parseable(d) && HeaderIsAt(d, h) && LongEnough(d, h)
    ensures var application := ScanOf(d).application;
            if h.application == NOWHERE then application.NoApplicationData?
            else && h.application.offset <= |d| && application.ApplicationData?
                 && InputsAreAt(d[h.application.offset..], application.inputs)
                 && OutputsAreAt(d[h.application.offset..], application.outputs)
  {
    GateIff(d, h);
    if h.application != NOWHERE {
      var e := d[h.application.offset..];
      InputsIff(e, ApplicationInputsAt(e));
      OutputsIff(e, ApplicationOutputsAt(e));
    }
  }

  /** Measurement and intrusion data are there exactly if their block and the derived values are published. */
  lemma DependentBlocksFromBytes(d: Bytes, h: DataHeader)
    requires Parseable(d) && HeaderIsAt(d, h) && LongEnough(d, h)
    ensures var scan := ScanOf(d);
            && (h.measurement == NOWHERE || h.derived == NOWHERE <==> scan.measurement.numberOfBeams == None)
            && (h.measurement == NOWHERE || h.derived == NOWHERE ==> scan.measurement.isEmpty && scan.measurement.points == [])
            && (h.intrusion == NOWHERE || h.derived == NOWHERE <==> scan.intrusion.NoIntrusionData?)
  {
    GateIff(d, h);
  }

  predicate HoldsBeams(d: Bytes, at: nat, ps: seq<Measurement.Beam>, after: Bytes) {
    && |ps| < 0x1_0000_0000 && at <= |d|
    && d[at..] == EncodeUint32LittleEndian(|ps|) + Measurement.EncodePoints(ps) + after
  }

  predicate HoldsRecords(d: Bytes, at: nat, records: seq<Bytes>, after: Bytes) {
    && |records| == 24 && Blocks.Small(records) && at <= |d|
    && d[at..] == Blocks.Layout(records) + after
  }

  lemma BeamsInside(d: Bytes, b: Block, derived: DerivedValues, ps: seq<Measurement.Beam>, after: Bytes)
    requires HoldsBeams(d, b.offset, ps, after)
    ensures MeasurementInside(d, b, derived)
  {
    Measurement.MeasurementRoundTrip(ps, after, 0, 0, 0);
  }

  lemma RecordsInside(d: Bytes, b: Block, v: DerivedValues, records: seq<Bytes>, after: Bytes)
    requires v.DerivedValues? && HoldsRecords(d, b.offset, records, after) && Blocks.Recoverable(records, v.numberOfBeams)
    ensures IntrusionInside(d, b, v)
  {
    Blocks.RecoverableRoundTrips(records, after, v.numberOfBeams);
  }

  /** The derived values that the bytes give, if there are any. */
  predicate Gives(d: Bytes, h: DataHeader, v: DerivedValues) {
    if h.derived == NOWHERE then v.NoDerivedValues?
    else h.derived.offset <= |d| && DerivedIsAt(d[h.derived.offset..], v)
  }

  lemma GivesPart(d: Bytes, h: DataHeader, v: DerivedValues)
    requires Gives(d, h, v)
    ensures OwnInside(d, h.derived, 20) && DerivedPart(d, h.derived) == v
  {
    if h.derived != NOWHERE {
      DerivedIff(d[h.derived.offset..], v);
    }
  }

  lemma PartsParseable(d: Bytes, h: DataHeader, v: DerivedValues)
    requires 52 <= |d| && h == GatedHeader(d)
    requires OwnInside(d, h.derived, 20) && OwnInside(d, h.general, 16) && OwnInside(d, h.application, 260)
    requires v == DerivedPart(d, h.derived) && MeasurementInside(d, h.measurement, v) && IntrusionInside(d, h.intrusion, v)
    ensures Parseable(d)
  {
    ParseableParts(d, h);
  }

  /** A packet with beams encoded where bytes 40 to 43 put the measurement block and
      recoverable records where bytes 44 to 47 put the intrusion block is parsed
      without reading past its end. Any block may be missing. */
  lemma PacketParseable(d: Bytes, h: DataHeader, v: DerivedValues, ps: seq<Measurement.Beam>, afterPoints: Bytes,
                        records: seq<Bytes>, afterRecords: Bytes)
    requires HeaderIsAt(d, h) && LongEnough(d, h) && Gives(d, h, v)
    requires h.general != NOWHERE ==> h.general.offset + 16 <= |d|
    requires h.application != NOWHERE ==> h.application.offset + 260 <= |d|
    requires h.measurement != NOWHERE ==> HoldsBeams(d, h.measurement.offset, ps, afterPoints)
    requires h.derived != NOWHERE && h.intrusion != NOWHERE ==>
               HoldsRecords(d, h.intrusion.offset, records, afterRecords) && Blocks.Recoverable(records, v.numberOfBeams)
    ensures Parseable(d)
  {
    GateIff(d, h);
    GivesPart(d, h, v);
    if h.measurement != NOWHERE {
      BeamsInside(d, h.measurement, v, ps, afterPoints);
    }
    if h.derived != NOWHERE && h.intrusion != NOWHERE {
      RecordsInside(d, h.intrusion, v, records, afterRecords);
    }
    PartsParseable(d, h, v);
  }

  /** Whatever else a packet publishes: beams encoded where bytes 40 to 43 put the
      measurement block are the parsed points, field by field, at the angles that
      the bytes of the derived values give; more than 2751 are none. */
  lemma BeamsRoundTrip(d: Bytes, h: DataHeader, v: DerivedValues, ps: seq<Measurement.Beam>, after: Bytes, i: nat)
    requires Parseable(d) && HeaderIsAt(d, h) && LongEnough(d, h)
    requires h.derived != NOWHERE && h.derived.offset <= |d| && DerivedIsAt(d[h.derived.offset..], v)
    requires h.measurement != NOWHERE && HoldsBeams(d, h.measurement.offset, ps, after)
    ensures var m := ScanOf(d).measurement;
            && |m.points| == (if |ps| <= 2751 then |ps| else 0)
            && (i < |m.points| ==> ps[i].IsShownBy(m.points[i], v.startTicks + i * v.resolutionTicks))
  {
    GateIff(d, h);
    DerivedIff(d[h.derived.offset..], v);
    Measurement.MeasurementRoundTrip(ps, after, v.startTicks, v.resolutionTicks, i);
  }

  /** Likewise for the 24 records of the intrusion block, placed by bytes 44 to 47;
      flag `k` of each is bit `k % 8` of its byte `k / 8`, up to the beam count. */
  lemma RecordsInPacketRoundTrip(d: Bytes, h: DataHeader, v: DerivedValues, records: seq<Bytes>, after: Bytes, r: nat, k: nat)
    requires Parseable(d) && HeaderIsAt(d, h) && LongEnough(d, h) && r < 24
    requires h.derived != NOWHERE && h.derived.offset <= |d| && DerivedIsAt(d[h.derived.offset..], v)
    requires h.intrusion != NOWHERE && HoldsRecords(d, h.intrusion.offset, records, after)
    requires Blocks.Recoverable(records, v.numberOfBeams)
    ensures var intrusion := ScanOf(d).intrusion;
            && intrusion.IntrusionBlock? && |intrusion.datums| == 24
            && var datum := intrusion.datums[r];
               && datum.size == |records[r]| && |datum.flags| == Intrusion.Min(8 * |records[r]|, v.numberOfBeams)
               && (k < |datum.flags| ==> datum.flags[k] == Bit(records[r][k / 8], k % 8))
  {
    GateIff(d, h);
    DerivedIff(d[h.derived.offset..], v);
    Blocks.IntrusionRoundTrip(records, after, v.numberOfBeams, r, k);
  }

  /** One step of the record decoder, for every signed size: the flags are those of
      the bytes behind the size field, none for a negative size, and the next record
      is read `size` bytes further on, or back, modulo 65536. */
  lemma RecordStep(d: Bytes, offset: uint16, n: nat, beams: uint16, size: int32)
    requires n > 0 && Intrusion.Readable(d, offset, n, beams) && Signed32At(d, offset, size)
    ensures var payload, next := (offset + 4) % 0x1_0000, ((offset + 4) % 0x1_0000 + size) % 0x1_0000;
            var count := if size < 0 then 0 else if 8 * size < beams then 8 * size else beams;
            && payload + (count + 7) / 8 <= |d| && Intrusion.Readable(d, next, n - 1, beams)
            && var datums := Intrusion.Decode(d, offset, n, beams);
               && datums[0].size == size && FlagsAt(d, payload, count, datums[0].flags)
               && datums[1..] == Intrusion.Decode(d, next, n - 1, beams)
  {
    Signed32Iff(d, offset, size);
    var payload, count := Intrusion.Advance(offset, 4), Intrusion.FlagCount(size, beams);
    FlagsIff(d, payload, count, Flags(d, payload, count));
  }
}
