/** Parsing a reassembled data packet: the header with the place of each block,
    the size check, and the five block parsers in their fixed order. */
module ScanData {
  import opened ReadWriteHelper
  import opened BitFlags
  import Intrusion = IntrusionData
  import Blocks = IntrusionBlocks
  import Measurement = MeasurementData

  // ---- The parsed blocks ----

  datatype Block = Block(offset: uint16, size: uint16) {
    predicate Published() {
      !(offset == 0 && size == 0)
    }
  }

  /** Where the five blocks are; `isEmpty` is never set for a parsed header. */
  datatype DataHeader = DataHeader(
    isEmpty: bool, versionIndicator: uint8, majorVersion: uint8, minorVersion: uint8, release: uint8,
    serialNumberOfDevice: uint32, serialNumberOfSystemPlug: uint32, channelNumber: uint8,
    sequenceNumber: uint32, scanNumber: uint32, timestampDate: uint16, timestampTime: uint32,
    general: Block, derived: Block, measurement: Block, intrusion: Block, application: Block)

  datatype DerivedValues =
    | NoDerivedValues
    | DerivedValues(multiplicationFactor: uint16, numberOfBeams: uint16, scanTime: uint16,
                    startTicks: int32, resolutionTicks: int32, interbeamPeriod: uint32)

  datatype DeviceStatus = DeviceStatus(
    runModeActive: bool, standbyModeActive: bool, contaminationWarning: bool, contaminationError: bool,
    referenceContourStatus: bool, manipulationStatus: bool)

  datatype DeviceErrors = DeviceErrors(applicationError: bool, deviceError: bool)

  datatype GeneralSystemState =
    | NoGeneralSystemState
    | GeneralSystemState(status: DeviceStatus, safeCutOffPath: seq<bool>, nonSafeCutOffPath: seq<bool>,
                         resetRequiredCutOffPath: seq<bool>, monitoringCases: seq<uint8>, errors: DeviceErrors)

  datatype IntrusionBlock = NoIntrusionData | IntrusionBlock(datums: seq<Intrusion.IntrusionDatum>)

  datatype LinearVelocities = LinearVelocities(
    velocity0: int16, velocity1: int16, velocity0Valid: bool, velocity1Valid: bool,
    velocity0TransmittedSafely: bool, velocity1TransmittedSafely: bool)

  datatype HostErrorFlags = HostErrorFlags(
    contaminationWarning: bool, contaminationError: bool, manipulationError: bool, glare: bool,
    referenceContourIntruded: bool, criticalError: bool)

  datatype OutputFlags = OutputFlags(sleepModeOutputIsValid: bool, hostErrorFlagsAreValid: bool)

  datatype ApplicationInputs = ApplicationInputs(
    unsafeInputsSources: seq<bool>, unsafeInputsFlags: seq<bool>,
    monitoringCases: seq<uint16>, monitoringCaseFlags: seq<bool>,
    velocities: LinearVelocities, sleepModeInput: uint8)

  datatype ApplicationOutputs = ApplicationOutputs(
    evalOut: seq<bool>, evalOutIsSafe: seq<bool>, evalOutIsValid: seq<bool>,
    monitoringCases: seq<uint16>, monitoringCaseFlags: seq<bool>, sleepModeOutput: uint8, errorFlags: HostErrorFlags,
    velocities: LinearVelocities, resultingVelocities: seq<int16>, resultingVelocityIsValid: seq<bool>,
    outputFlags: OutputFlags)

  datatype ApplicationData = NoApplicationData | ApplicationData(inputs: ApplicationInputs, outputs: ApplicationOutputs)

  /** Everything one packet is parsed into. */
  datatype Scan = Scan(
    header: DataHeader, derived: DerivedValues, measurement: Measurement.MeasurementData,
    general: GeneralSystemState, intrusion: IntrusionBlock, application: ApplicationData)

  // ---- What each parser reads ----

  const DATA_HEADER_LENGTH := 52

  function BlockAt(buffer: Bytes, at: nat): Block
    requires at + 4 <= |buffer|
  {
    Block(ReadUint16LittleEndian(buffer, at), ReadUint16LittleEndian(buffer, at + 2))
  }

  function HeaderOf(buffer: Bytes): DataHeader
    requires DATA_HEADER_LENGTH <= |buffer|
  {
    DataHeader(false, buffer[0], buffer[1], buffer[2], buffer[3],
               ReadUint32LittleEndian(buffer, 4), ReadUint32LittleEndian(buffer, 8), buffer[12],
               ReadUint32LittleEndian(buffer, 16), ReadUint32LittleEndian(buffer, 20),
               ReadUint16LittleEndian(buffer, 24), ReadUint32LittleEndian(buffer, 28),
               BlockAt(buffer, 32), BlockAt(buffer, 36), BlockAt(buffer, 40), BlockAt(buffer, 44), BlockAt(buffer, 48))
  }

  function ExpectedSize(h: DataHeader): nat {
    h.derived.size + h.measurement.size + h.general.size + h.intrusion.size + h.application.size
  }

  /** The buffer, its length taken as a 32-bit number, is shorter than the declared blocks together. */
  predicate TooShort(buffer: Bytes, h: DataHeader) {
    |buffer| % 0x1_0000_0000 < ExpectedSize(h)
  }

  function WithoutBlocks(h: DataHeader): DataHeader {
    h.(general := Block(0, 0), derived := Block(0, 0), measurement := Block(0, 0),
       intrusion := Block(0, 0), application := Block(0, 0))
  }

  function GatedHeader(buffer: Bytes): DataHeader
    requires DATA_HEADER_LENGTH <= |buffer|
  {
    var h := HeaderOf(buffer);
    if TooShort(buffer, h) then WithoutBlocks(h) else h
  }

  predicate InBuffer(buffer: Bytes, b: Block, length: nat) {
    b.offset + length <= |buffer|
  }

  function DerivedAt(d: Bytes): DerivedValues
    requires 20 <= |d|
  {
    DerivedValues(ReadUint16LittleEndian(d, 0), ReadUint16LittleEndian(d, 2), ReadUint16LittleEndian(d, 4),
                  ReadInt32LittleEndian(d, 8), ReadInt32LittleEndian(d, 12), ReadUint32LittleEndian(d, 16))
  }

  function StatusOf(b: uint8): DeviceStatus {
    DeviceStatus(Bit(b, 0), Bit(b, 1), Bit(b, 2), Bit(b, 3), Bit(b, 4), Bit(b, 5))
  }

  function ErrorsOf(b: uint8): DeviceErrors {
    DeviceErrors(Bit(b, 0), Bit(b, 1))
  }

  function HostErrorsOf(b: uint8): HostErrorFlags {
    HostErrorFlags(Bit(b, 0), Bit(b, 1), Bit(b, 2), Bit(b, 3), Bit(b, 4), Bit(b, 5))
  }

  function OutputFlagsOf(b: uint8): OutputFlags {
    OutputFlags(Bit(b, 0), Bit(b, 1))
  }

  function GeneralAt(d: Bytes): GeneralSystemState
    requires 16 <= |d|
  {
    GeneralSystemState(StatusOf(d[0]), Flags(d, 1, 20), Flags(d, 4, 20), Flags(d, 7, 20), d[10..14], ErrorsOf(d[15]))
  }

  /** `n` little-endian words from `at` on. */
  function Words(d: Bytes, at: nat, n: nat): (words: seq<uint16>)
    requires at + 2 * n <= |d|
    ensures |words| == n && forall i :: 0 <= i < n ==> words[i] == ReadUint16LittleEndian(d, at + 2 * i)
  {
    seq(n, i requires 0 <= i < n => ReadUint16LittleEndian(d, at + 2 * i))
  }

  function SignedWords(d: Bytes, at: nat, n: nat): (words: seq<int16>)
    requires at + 2 * n <= |d|
    ensures |words| == n && forall i :: 0 <= i < n ==> words[i] == ReadInt16LittleEndian(d, at + 2 * i)
  {
    seq(n, i requires 0 <= i < n => ReadInt16LittleEndian(d, at + 2 * i))
  }

  function LinearVelocitiesAt(d: Bytes, at: nat): LinearVelocities
    requires at + 5 <= |d|
  {
    LinearVelocities(ToInt16(ReadUint16LittleEndian(d, at)), ToInt16(ReadUint16LittleEndian(d, at + 2)),
                     Bit(d[at + 4], 0), Bit(d[at + 4], 1), Bit(d[at + 4], 4), Bit(d[at + 4], 5))
  }

  function ApplicationInputsAt(d: Bytes): ApplicationInputs
    requires 260 <= |d|
  {
    ApplicationInputs(Flags(d, 0, 32), Flags(d, 4, 32), Words(d, 12, 20), Flags(d, 52, 20),
                      LinearVelocitiesAt(d, 56), d[74])
  }

  function ApplicationOutputsAt(d: Bytes): ApplicationOutputs
    requires 260 <= |d|
  {
    ApplicationOutputs(Flags(d, 140, 20), Flags(d, 144, 20), Flags(d, 148, 20), Words(d, 152, 20), Flags(d, 192, 20),
                       d[193], HostErrorsOf(d[194]), LinearVelocitiesAt(d, 200), SignedWords(d, 208, 20),
                       Flags(d, 248, 20), OutputFlagsOf(d[259]))
  }

  function ApplicationAt(d: Bytes): ApplicationData
    requires 260 <= |d|
  {
    ApplicationData(ApplicationInputsAt(d), ApplicationOutputsAt(d))
  }

  /** Measurement and intrusion data are only read when derived values were. */
  predicate NeedsDerived(h: DataHeader, b: Block, derived: DerivedValues) {
    b.Published() && !h.isEmpty && !derived.NoDerivedValues?
  }

  /** Every read of the five block parsers stays inside the buffer. */
  predicate Parseable(buffer: Bytes) {
    && DATA_HEADER_LENGTH <= |buffer|
    && var h := GatedHeader(buffer);
       && (h.derived.Published() ==> InBuffer(buffer, h.derived, 20))
       && (h.general.Published() ==> InBuffer(buffer, h.general, 16))
       && (h.application.Published() ==> InBuffer(buffer, h.application, 260))
       && (h.derived.Published() && h.measurement.Published() ==>
             InBuffer(buffer, h.measurement, 0) && Measurement.Readable(buffer[h.measurement.offset..]))
       && (h.derived.Published() && h.intrusion.Published() ==>
             && InBuffer(buffer, h.intrusion, 0)
             && Intrusion.Readable(buffer[h.intrusion.offset..], 0, Intrusion.RECORDS,
                                   DerivedAt(buffer[h.derived.offset..]).numberOfBeams))
  }

  function DerivedOf(buffer: Bytes): DerivedValues
    requires Parseable(buffer)
  {
    var b := GatedHeader(buffer).derived;
    if b.Published() then DerivedAt(buffer[b.offset..]) else NoDerivedValues
  }

  function MeasurementOf(buffer: Bytes): Measurement.MeasurementData
    requires Parseable(buffer)
  {
    var h, derived := GatedHeader(buffer), DerivedOf(buffer);
    if NeedsDerived(h, h.measurement, derived) then
      Measurement.Decode(buffer[h.measurement.offset..], derived.startTicks, derived.resolutionTicks)
    else Measurement.UNPUBLISHED
  }

  function GeneralOf(buffer: Bytes): GeneralSystemState
    requires Parseable(buffer)
  {
    var b := GatedHeader(buffer).general;
    if b.Published() then GeneralAt(buffer[b.offset..]) else NoGeneralSystemState
  }

  function IntrusionOf(buffer: Bytes): IntrusionBlock
    requires Parseable(buffer)
  {
    var h, derived := GatedHeader(buffer), DerivedOf(buffer);
    if NeedsDerived(h, h.intrusion, derived) then
      IntrusionBlock(Intrusion.Decode(buffer[h.intrusion.offset..], 0, Intrusion.RECORDS, derived.numberOfBeams))
    else NoIntrusionData
  }

  function ApplicationOf(buffer: Bytes): ApplicationData
    requires Parseable(buffer)
  {
    var b := GatedHeader(buffer).application;
    if b.Published() then ApplicationAt(buffer[b.offset..]) else NoApplicationData
  }

  /** A packet's parse, a function of its bytes alone; no measurement or
      intrusion data without derived values, and no beams beyond the cap. */
  function ScanOf(buffer: Bytes): (scan: Scan)
    requires Parseable(buffer)
    ensures scan.derived.NoDerivedValues? ==> scan.measurement == Measurement.UNPUBLISHED && scan.intrusion.NoIntrusionData?
    ensures |scan.measurement.points| <= Measurement.MAX_EXPECTED_BEAMS
    ensures scan.intrusion.IntrusionBlock? ==> |scan.intrusion.datums| == Intrusion.RECORDS
  {
    Scan(GatedHeader(buffer), DerivedOf(buffer), MeasurementOf(buffer), GeneralOf(buffer),
         IntrusionOf(buffer), ApplicationOf(buffer))
  }

  // ---- The parser object and the data object it fills ----

  class Data {
    var header: Option<DataHeader>
    var derived: Option<DerivedValues>
    var measurement: Option<Measurement.MeasurementData>
    var general: Option<GeneralSystemState>
    var intrusion: Option<IntrusionBlock>
    var application: Option<ApplicationData>

    constructor ()
      ensures header == None && derived == None && measurement == None
      ensures general == None && intrusion == None && application == None
    {
      header, derived, measurement := None, None, None;
      general, intrusion, application := None, None, None;
    }

    /** All six parts have been set, to these values. */
    ghost predicate Is(scan: Scan)
      reads this
    {
      && header == Some(scan.header) && derived == Some(scan.derived) && measurement == Some(scan.measurement)
      && general == Some(scan.general) && intrusion == Some(scan.intrusion) && application == Some(scan.application)
    }
  }

  class ParseData {
    const measurementParser: Measurement.ParseMeasurementData
    const intrusionParser: Intrusion.ParseIntrusionData

    constructor ()
      ensures fresh(measurementParser) && fresh(intrusionParser)
    {
      measurementParser := new Measurement.ParseMeasurementData();
      intrusionParser := new Intrusion.ParseIntrusionData();
    }

    /** The result depends on the packet only, not on what this parser object
        parsed before. */
    method ParseUDPSequence(buffer: Bytes) returns (data: Data)
      requires Parseable(buffer)
      modifies measurementParser, intrusionParser
      ensures fresh(data) && data.Is(ScanOf(buffer))
    {
      data := new Data();
      SetDataBlocksInData(buffer, data);
    }

    /** The same into an existing object, whatever it held before. */
    method ParseTCPSequence(buffer: Bytes, data: Data)
      requires Parseable(buffer)
      modifies measurementParser, intrusionParser, data
      ensures data.Is(ScanOf(buffer))
    {
      SetDataBlocksInData(buffer, data);
    }

    method SetDataBlocksInData(buffer: Bytes, data: Data)
      requires Parseable(buffer)
      modifies measurementParser, intrusionParser, data
      ensures data.Is(ScanOf(buffer))
    {
      var header := HeaderOf(buffer);
      data.header := Some(header);
      var expectedSize := header.derived.size + header.measurement.size + header.general.size
        + header.intrusion.size + header.application.size;
      var actualSize: uint32 := |buffer| % 0x1_0000_0000;
      if actualSize < expectedSize {
        header := header.(derived := Block(0, 0));
        header := header.(measurement := Block(0, 0));
        header := header.(general := Block(0, 0));
        header := header.(intrusion := Block(0, 0));
        header := header.(application := Block(0, 0));
        data.header := Some(header);
      }
      assert header == GatedHeader(buffer);
      var derived := ParseDerivedValues(buffer, header);
      data.derived := Some(derived);
      var measurement := ParseMeasurement(buffer, header, derived);
      data.measurement := Some(measurement);
      var general := ParseGeneralSystemState(buffer, header);
      data.general := Some(general);
      var intrusion := ParseIntrusion(buffer, header, derived);
      data.intrusion := Some(intrusion);
      var application := ParseApplicationData(buffer, header);
      data.application := Some(application);
    }

    method ParseDerivedValues(buffer: Bytes, header: DataHeader) returns (derived: DerivedValues)
      requires Parseable(buffer) && header == GatedHeader(buffer)
      ensures derived == DerivedOf(buffer)
    {
      if !header.derived.Published() || header.isEmpty {
        return NoDerivedValues;
      }
      derived := DerivedAt(buffer[header.derived.offset..]);
    }

    method ParseMeasurement(buffer: Bytes, header: DataHeader, derived: DerivedValues)
      returns (m: Measurement.MeasurementData)
      requires Parseable(buffer) && header == GatedHeader(buffer) && derived == DerivedOf(buffer)
      modifies measurementParser
      ensures m == MeasurementOf(buffer)
    {
      if !header.measurement.Published() || header.isEmpty || derived.NoDerivedValues? {
        return Measurement.UNPUBLISHED;
      }
      measurementParser.SetStartAngleAndDelta(derived.startTicks, derived.resolutionTicks);
      m := measurementParser.SetDataInMeasurementData(buffer[header.measurement.offset..]);
    }

    method ParseGeneralSystemState(buffer: Bytes, header: DataHeader) returns (general: GeneralSystemState)
      requires Parseable(buffer) && header == GatedHeader(buffer)
      ensures general == GeneralOf(buffer)
    {
      if !header.general.Published() || header.isEmpty {
        return NoGeneralSystemState;
      }
      var d := buffer[header.general.offset..];
      var safe := UnpackCutOffPath(d, 1);
      var nonSafe := UnpackCutOffPath(d, 4);
      var resetRequired := UnpackCutOffPath(d, 7);
      general := GeneralSystemState(StatusOf(d[0]), safe, nonSafe, resetRequired, [d[10], d[11], d[12], d[13]], ErrorsOf(d[15]));
      assert d[10..14] == [d[10], d[11], d[12], d[13]];
    }

    method ParseIntrusion(buffer: Bytes, header: DataHeader, derived: DerivedValues) returns (intrusion: IntrusionBlock)
      requires Parseable(buffer) && header == GatedHeader(buffer) && derived == DerivedOf(buffer)
      modifies intrusionParser
      ensures intrusion == IntrusionOf(buffer)
    {
      if !header.intrusion.Published() || header.isEmpty || derived.NoDerivedValues? {
        return NoIntrusionData;
      }
      intrusionParser.SetNumScanPoints(derived.numberOfBeams);
      var datums := intrusionParser.SetDataInIntrusionDatums(buffer[header.intrusion.offset..]);
      intrusion := IntrusionBlock(datums);
    }

    method ParseApplicationData(buffer: Bytes, header: DataHeader) returns (application: ApplicationData)
      requires Parseable(buffer) && header == GatedHeader(buffer)
      ensures application == ApplicationOf(buffer)
    {
      if !header.application.Published() || header.isEmpty {
        return NoApplicationData;
      }
      var d := buffer[header.application.offset..];
      var inputs := ParseApplicationInputs(d);
      var outputs := ParseApplicationOutputs(d);
      application := ApplicationData(inputs, outputs);
    }
  }

  method ParseApplicationInputs(d: Bytes) returns (inputs: ApplicationInputs)
    requires 260 <= |d|
    ensures inputs == ApplicationInputsAt(d)
  {
    var sources := UnpackWord(d, 0, 32);
    var flags := UnpackWord(d, 4, 32);
    var cases := ReadWords(d, 12, 20);
    var caseFlags := UnpackWord(d, 52, 20);
    inputs := ApplicationInputs(sources, flags, cases, caseFlags, LinearVelocitiesAt(d, 56), d[74]);
  }

  method ParseApplicationOutputs(d: Bytes) returns (outputs: ApplicationOutputs)
    requires 260 <= |d|
    ensures outputs == ApplicationOutputsAt(d)
  {
    var evalOut := UnpackWord(d, 140, 20);
    var evalOutIsSafe := UnpackWord(d, 144, 20);
    var evalOutIsValid := UnpackWord(d, 148, 20);
    var cases := ReadWords(d, 152, 20);
    var caseFlags := UnpackWord(d, 192, 20);
    var velocities := ReadSignedWords(d, 208, 20);
    var velocityFlags := UnpackWord(d, 248, 20);
    outputs := ApplicationOutputs(evalOut, evalOutIsSafe, evalOutIsValid, cases, caseFlags, d[193], HostErrorsOf(d[194]),
                                  LinearVelocitiesAt(d, 200), velocities, velocityFlags, OutputFlagsOf(d[259]));
  }

  method ReadWords(d: Bytes, at: nat, n: nat) returns (words: seq<uint16>)
    requires at + 2 * n <= |d|
    ensures words == Words(d, at, n)
  {
    words := [];
    for i := 0 to n
      invariant words == Words(d, at, i)
    {
      words := words + [ReadUint16LittleEndian(d, at + 2 * i)];
    }
  }

  method ReadSignedWords(d: Bytes, at: nat, n: nat) returns (words: seq<int16>)
    requires at + 2 * n <= |d|
    ensures words == SignedWords(d, at, n)
  {
    words := [];
    for i := 0 to n
      invariant words == SignedWords(d, at, i)
    {
      words := words + [ReadInt16LittleEndian(d, at + 2 * i)];
    }
  }

  // ---- What the gating guarantees ----

  /** A packet shorter than its declared blocks together yields five empty
      blocks, and needs no more than its header to be parsed. */
  lemma TooShortIsEmpty(buffer: Bytes)
    requires DATA_HEADER_LENGTH <= |buffer| && TooShort(buffer, HeaderOf(buffer))
    ensures Parseable(buffer)
    ensures ScanOf(buffer) == Scan(WithoutBlocks(HeaderOf(buffer)), NoDerivedValues, Measurement.UNPUBLISHED,
                                   NoGeneralSystemState, NoIntrusionData, NoApplicationData)
  {
    var h := GatedHeader(buffer);
    assert !h.derived.Published() && !h.measurement.Published() && !h.general.Published();
    assert !h.intrusion.Published() && !h.application.Published();
  }

  /** Measurement points carry the angles of the derived values of the same
      packet: point `i` stands at start + i * resolution. */
  lemma PointsFollowDerivedValues(buffer: Bytes, i: nat)
    requires Parseable(buffer) && i < |MeasurementOf(buffer).points|
    ensures DerivedOf(buffer).DerivedValues?
    ensures MeasurementOf(buffer).points[i].angleTicks
         == DerivedOf(buffer).startTicks + i * DerivedOf(buffer).resolutionTicks
  {
    var h, derived := GatedHeader(buffer), DerivedOf(buffer);
    var d := buffer[h.measurement.offset..];
    Measurement.PointsAt(d, ReadUint32LittleEndian(d, 0), derived.startTicks, derived.resolutionTicks, i);
  }

  /** The size check compares declared sizes, not offsets: this packet passes it,
      and its derived values would be read from offset 65535 of 52 bytes. */
  lemma SizeCheckNotEnough()
    ensures var buffer := Overwrite(Zeros(52), 36, [0xFF, 0xFF]);
            !TooShort(buffer, HeaderOf(buffer)) && !Parseable(buffer)
  {
    var buffer := Overwrite(Zeros(52), 36, [0xFF, 0xFF]);
    assert buffer[36] == 0xFF && buffer[37] == 0xFF && buffer[38] == 0 && buffer[39] == 0;
    assert forall k :: 40 <= k < 52 ==> buffer[k] == 0;
    assert buffer[32] == buffer[33] == buffer[34] == buffer[35] == 0;
  }
}
