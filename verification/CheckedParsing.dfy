/** The packet parser with every read checked against the end of the packet: it
    gives up at the first read that the plain parser may not make. */
module CheckedParsing {
  import opened ReadWriteHelper
  import opened BitFlags
  import opened ScanData
  import Intrusion = IntrusionData
  import Measurement = MeasurementData

  /** The `n` bytes at `at`, if they are all there. */
  function Window(d: Bytes, at: nat, n: nat): Option<Bytes> {
    if at + n <= |d| then Some(d[at..at + n]) else None
  }

  function CheckedDerived(d: Bytes, b: Block): Option<DerivedValues> {
    if b.Published() then
      var w :- Window(d, b.offset, 20);
      Some(DerivedAt(w))
    else Some(NoDerivedValues)
  }

  function CheckedGeneral(d: Bytes, b: Block): Option<GeneralSystemState> {
    if b.Published() then
      var w :- Window(d, b.offset, 16);
      Some(GeneralAt(w))
    else Some(NoGeneralSystemState)
  }

  function CheckedApplication(d: Bytes, b: Block): Option<ApplicationData> {
    if b.Published() then
      var w :- Window(d, b.offset, 260);
      Some(ApplicationAt(w))
    else Some(NoApplicationData)
  }

  /** Point by point. */
  function CheckedPoints(d: Bytes, at: nat, n: nat, start: int, delta: int): Option<seq<Measurement.ScanPoint>>
    decreases n, d
  {
    if n == 0 then Some([])
    else
      var points :- CheckedPoints(d, at, n - 1, start, delta);
      var w :- Window(d, at + 4 * n, 4);
      Some(points + [Measurement.PointOf(start + (n - 1) * delta, ReadUint16LittleEndian(w, 0), w[2], w[3])])
  }

  function CheckedMeasurement(d: Bytes, b: Block, derived: DerivedValues): Option<Measurement.MeasurementData> {
    if b.Published() && derived.DerivedValues? then
      var w :- Window(d, b.offset, 4);
      var beams := ReadUint32LittleEndian(w, 0);
      if beams > Measurement.MAX_EXPECTED_BEAMS then Some(Measurement.MeasurementData(true, Some(0), []))
      else
        var points :- CheckedPoints(d, b.offset, beams, derived.startTicks, derived.resolutionTicks);
        Some(Measurement.MeasurementData(false, Some(beams), points))
    else Some(Measurement.UNPUBLISHED)
  }

  /** Flag by flag. */
  function CheckedFlags(d: Bytes, at: nat, count: nat): Option<seq<bool>>
    decreases count, d
  {
    if count == 0 then Some([])
    else
      var flags :- CheckedFlags(d, at, count - 1);
      var w :- Window(d, at + (count - 1) / 8, 1);
      Some(flags + [Bit(w[0], (count - 1) % 8)])
  }

  /** The record at `offset` of the block that starts at `at`, and the offset of the next. */
  function CheckedRecord(d: Bytes, at: nat, offset: uint16, beams: uint16): Option<(Intrusion.IntrusionDatum, uint16)> {
    var w :- Window(d, at + offset, 4);
    var size, payload := Intrusion.SizeAt(w, 0), Intrusion.Advance(offset, 4);
    var flags :- CheckedFlags(d, at + payload, Intrusion.FlagCount(size, beams));
    Some((Intrusion.IntrusionDatum(size, flags), Intrusion.Advance(payload, size)))
  }

  /** Record by record. */
  function CheckedRecords(d: Bytes, at: nat, offset: uint16, n: nat, beams: uint16): Option<seq<Intrusion.IntrusionDatum>>
    decreases n, d
  {
    if n == 0 then Some([])
    else
      var r :- CheckedRecord(d, at, offset, beams);
      var datums :- CheckedRecords(d, at, r.1, n - 1, beams);
      Some([r.0] + datums)
  }

  function CheckedIntrusion(d: Bytes, b: Block, derived: DerivedValues): Option<IntrusionBlock> {
    if b.Published() && derived.DerivedValues? then
      var datums :- CheckedRecords(d, b.offset, 0, Intrusion.RECORDS, derived.numberOfBeams);
      Some(IntrusionBlock(datums))
    else Some(NoIntrusionData)
  }

  /** The scan, if all its parts could be read. */
  function Assemble(h: DataHeader, derived: DerivedValues, m: Option<Measurement.MeasurementData>, g: Option<GeneralSystemState>,
                    i: Option<IntrusionBlock>, a: Option<ApplicationData>): Option<Scan>
  {
    var measurement :- m;
    var general :- g;
    var intrusion :- i;
    var application :- a;
    Some(Scan(h, derived, measurement, general, intrusion, application))
  }

  /** All blocks, in the order of the plain parser. */
  function CheckedBlocks(buffer: Bytes, h: DataHeader): Option<Scan> {
    var derived :- CheckedDerived(buffer, h.derived);
    Assemble(h, derived, CheckedMeasurement(buffer, h.measurement, derived), CheckedGeneral(buffer, h.general),
             CheckedIntrusion(buffer, h.intrusion, derived), CheckedApplication(buffer, h.application))
  }

  function CheckedScan(buffer: Bytes): Option<Scan> {
    var w :- Window(buffer, 0, DATA_HEADER_LENGTH);
    var declared := HeaderOf(w);
    CheckedBlocks(buffer, if TooShort(buffer, declared) then WithoutBlocks(declared) else declared)
  }

  // ---- It succeeds exactly where the plain parser reads nothing past the end ----

  lemma {:induction false} PointsChecked(d: Bytes, at: nat, n: nat, start: int, delta: int)
    requires at + 4 <= |d|
    ensures CheckedPoints(d, at, n, start, delta)
         == if at + 4 + 4 * n <= |d| then Some(Measurement.Points(d[at..], n, start, delta)) else None
  {
    if n > 0 {
      PointsChecked(d, at, n - 1, start, delta);
      Measurement.AccumulatedAngle(start, delta, n - 1);
    }
  }

  lemma {:induction false} FlagsChecked(d: Bytes, at: nat, count: nat)
    requires at <= |d|
    ensures CheckedFlags(d, at, count) == if Holds(d, at, count) then Some(Flags(d, at, count)) else None
  {
    if count > 0 {
      FlagsChecked(d, at, count - 1);
      if Holds(d, at, count) {
        FlagsSnoc(d, at, count);
      }
    }
  }

  lemma FlagsSnoc(d: Bytes, at: nat, count: nat)
    requires count > 0 && Holds(d, at, count)
    ensures at + (count - 1) / 8 < |d|
    ensures Flags(d, at, count) == Flags(d, at, count - 1) + [Bit(d[at + (count - 1) / 8], (count - 1) % 8)]
  {
    forall k | 0 <= k < count - 1 ensures Flags(d, at, count)[k] == Flags(d, at, count - 1)[k] {
      FlagAt(d, at, count, k);
      FlagAt(d, at, count - 1, k);
    }
    FlagAt(d, at, count, count - 1);
  }

  /** Flags are the same in the buffer and in its part from the block on. */
  lemma FlagsInBlock(d: Bytes, at: nat, payload: nat, count: nat)
    requires at + payload <= |d|
    ensures Holds(d, at + payload, count) == Holds(d[at..], payload, count)
    ensures Holds(d, at + payload, count) ==> Flags(d, at + payload, count) == Flags(d[at..], payload, count)
  {
    if Holds(d, at + payload, count) {
      forall k | 0 <= k < count ensures Flags(d, at + payload, count)[k] == Flags(d[at..], payload, count)[k] {
        FlagAt(d, at + payload, count, k);
        FlagAt(d[at..], payload, count, k);
      }
    }
  }

  lemma BlockFlagsChecked(d: Bytes, at: nat, payload: nat, count: nat)
    requires at + payload <= |d|
    ensures CheckedFlags(d, at + payload, count)
         == if Holds(d[at..], payload, count) then Some(Flags(d[at..], payload, count)) else None
  {
    FlagsChecked(d, at + payload, count);
    FlagsInBlock(d, at, payload, count);
  }

  lemma SizeInWindow(d: Bytes, at: nat, offset: nat)
    requires at + offset + 4 <= |d|
    ensures Intrusion.SizeAt(d[at + offset..at + offset + 4], 0) == Intrusion.SizeAt(d[at..], offset)
  {
  }

  lemma RecordChecked(d: Bytes, at: nat, offset: uint16, beams: uint16)
    requires at + offset + 4 <= |d|
    ensures var size, payload := Intrusion.SizeAt(d[at..], offset), Intrusion.Advance(offset, 4);
            var count := Intrusion.FlagCount(size, beams);
            CheckedRecord(d, at, offset, beams)
            == if Holds(d[at..], payload, count)
               then Some((Intrusion.IntrusionDatum(size, Flags(d[at..], payload, count)), Intrusion.Advance(payload, size)))
               else None
  {
    var size, payload := Intrusion.SizeAt(d[at..], offset), Intrusion.Advance(offset, 4);
    SizeInWindow(d, at, offset);
    BlockFlagsChecked(d, at, payload, Intrusion.FlagCount(size, beams));
  }

  lemma {:induction false} RecordsChecked(d: Bytes, at: nat, offset: uint16, n: nat, beams: uint16)
    requires at <= |d|
    ensures CheckedRecords(d, at, offset, n, beams)
         == if Intrusion.Readable(d[at..], offset, n, beams) then Some(Intrusion.Decode(d[at..], offset, n, beams)) else None
    decreases n
  {
    if n > 0 && at + offset + 4 <= |d| {
      var size, payload := Intrusion.SizeAt(d[at..], offset), Intrusion.Advance(offset, 4);
      RecordChecked(d, at, offset, beams);
      RecordsChecked(d, at, Intrusion.Advance(payload, size), n - 1, beams);
    }
  }

  // The blocks of fixed layout: nothing outside the window is looked at.

  lemma FlagsInWindow(d: Bytes, base: nat, n: nat, at: nat, count: nat)
    requires base + n <= |d| && Holds(d[base..base + n], at, count)
    ensures Holds(d[base..], at, count) && Flags(d[base..base + n], at, count) == Flags(d[base..], at, count)
  {
    forall k | 0 <= k < count ensures Flags(d[base..base + n], at, count)[k] == Flags(d[base..], at, count)[k] {
      FlagAt(d[base..base + n], at, count, k);
      FlagAt(d[base..], at, count, k);
    }
  }

  lemma SliceInWindow(d: Bytes, base: nat, n: nat, i: nat, j: nat)
    requires i <= j <= n && base + n <= |d|
    ensures d[base..base + n][i..j] == d[base..][i..j]
  {
    forall k | 0 <= k < j - i ensures d[base..base + n][i..j][k] == d[base..][i..j][k] {
      assert d[base..base + n][i + k] == d[base..][i + k];
    }
  }

  lemma GeneralInWindow(d: Bytes, at: nat)
    requires at + 16 <= |d|
    ensures GeneralAt(d[at..at + 16]) == GeneralAt(d[at..])
  {
    FlagsInWindow(d, at, 16, 1, 20);
    FlagsInWindow(d, at, 16, 4, 20);
    FlagsInWindow(d, at, 16, 7, 20);
    SliceInWindow(d, at, 16, 10, 14);
  }

  lemma InputsInWindow(d: Bytes, at: nat)
    requires at + 260 <= |d|
    ensures ApplicationInputsAt(d[at..at + 260]) == ApplicationInputsAt(d[at..])
  {
    FlagsInWindow(d, at, 260, 0, 32);
    FlagsInWindow(d, at, 260, 4, 32);
    FlagsInWindow(d, at, 260, 52, 20);
    assert Words(d[at..at + 260], 12, 20) == Words(d[at..], 12, 20);
  }

  lemma OutputsInWindow(d: Bytes, at: nat)
    requires at + 260 <= |d|
    ensures ApplicationOutputsAt(d[at..at + 260]) == ApplicationOutputsAt(d[at..])
  {
    FlagsInWindow(d, at, 260, 140, 20);
    FlagsInWindow(d, at, 260, 144, 20);
    FlagsInWindow(d, at, 260, 148, 20);
    FlagsInWindow(d, at, 260, 192, 20);
    FlagsInWindow(d, at, 260, 248, 20);
    assert Words(d[at..at + 260], 152, 20) == Words(d[at..], 152, 20);
    assert SignedWords(d[at..at + 260], 208, 20) == SignedWords(d[at..], 208, 20);
  }

  lemma WordInWindow(d: Bytes, n: nat, at: nat)
    requires at + 4 <= n <= |d|
    ensures ReadUint32LittleEndian(d[0..n], at) == ReadUint32LittleEndian(d, at)
    ensures ReadUint16LittleEndian(d[0..n], at) == ReadUint16LittleEndian(d, at)
    ensures BlockAt(d[0..n], at) == BlockAt(d, at)
  {
  }

  lemma HeaderInWindow(d: Bytes, n: nat)
    requires n == DATA_HEADER_LENGTH <= |d|
    ensures HeaderOf(d[0..n]) == HeaderOf(d)
  {
    WordInWindow(d, n, 4);
    WordInWindow(d, n, 8);
    WordInWindow(d, n, 16);
    WordInWindow(d, n, 20);
    WordInWindow(d, n, 24);
    WordInWindow(d, n, 28);
    WordInWindow(d, n, 32);
    WordInWindow(d, n, 36);
    WordInWindow(d, n, 40);
    WordInWindow(d, n, 44);
    WordInWindow(d, n, 48);
  }

  lemma DerivedChecked(d: Bytes, b: Block)
    ensures CheckedDerived(d, b)
         == if !b.Published() then Some(NoDerivedValues)
            else if InBuffer(d, b, 20) then Some(DerivedAt(d[b.offset..])) else None
  {
  }

  lemma GeneralChecked(d: Bytes, b: Block)
    ensures CheckedGeneral(d, b)
         == if !b.Published() then Some(NoGeneralSystemState)
            else if InBuffer(d, b, 16) then Some(GeneralAt(d[b.offset..])) else None
  {
    if InBuffer(d, b, 16) {
      GeneralInWindow(d, b.offset);
    }
  }

  lemma ApplicationChecked(d: Bytes, b: Block)
    ensures CheckedApplication(d, b)
         == if !b.Published() then Some(NoApplicationData)
            else if InBuffer(d, b, 260) then Some(ApplicationAt(d[b.offset..])) else None
  {
    if InBuffer(d, b, 260) {
      InputsInWindow(d, b.offset);
      OutputsInWindow(d, b.offset);
    }
  }

  lemma MeasurementChecked(d: Bytes, b: Block, derived: DerivedValues)
    requires b.Published() && derived.DerivedValues?
    ensures CheckedMeasurement(d, b, derived)
         == if InBuffer(d, b, 0) && Measurement.Readable(d[b.offset..])
            then Some(Measurement.Decode(d[b.offset..], derived.startTicks, derived.resolutionTicks)) else None
  {
    if InBuffer(d, b, 4) {
      PointsChecked(d, b.offset, ReadUint32LittleEndian(d, b.offset), derived.startTicks, derived.resolutionTicks);
    }
  }

  lemma IntrusionChecked(d: Bytes, b: Block, derived: DerivedValues)
    requires b.Published() && derived.DerivedValues?
    ensures CheckedIntrusion(d, b, derived)
         == if InBuffer(d, b, 0) && Intrusion.Readable(d[b.offset..], 0, Intrusion.RECORDS, derived.numberOfBeams)
            then Some(IntrusionBlock(Intrusion.Decode(d[b.offset..], 0, Intrusion.RECORDS, derived.numberOfBeams))) else None
  {
    if InBuffer(d, b, 0) {
      RecordsChecked(d, b.offset, 0, Intrusion.RECORDS, derived.numberOfBeams);
    }
  }

  // What the parts are, and when they lie inside.

  predicate MeasurementInside(d: Bytes, b: Block, derived: DerivedValues) {
    b.Published() && derived.DerivedValues? ==> InBuffer(d, b, 0) && Measurement.Readable(d[b.offset..])
  }

  function MeasurementPart(d: Bytes, b: Block, derived: DerivedValues): Measurement.MeasurementData
    requires MeasurementInside(d, b, derived)
  {
    if b.Published() && derived.DerivedValues? then
      Measurement.Decode(d[b.offset..], derived.startTicks, derived.resolutionTicks)
    else Measurement.UNPUBLISHED
  }

  predicate IntrusionInside(d: Bytes, b: Block, derived: DerivedValues) {
    b.Published() && derived.DerivedValues? ==>
      InBuffer(d, b, 0) && Intrusion.Readable(d[b.offset..], 0, Intrusion.RECORDS, derived.numberOfBeams)
  }

  function IntrusionPart(d: Bytes, b: Block, derived: DerivedValues): IntrusionBlock
    requires IntrusionInside(d, b, derived)
  {
    if b.Published() && derived.DerivedValues? then
      IntrusionBlock(Intrusion.Decode(d[b.offset..], 0, Intrusion.RECORDS, derived.numberOfBeams))
    else NoIntrusionData
  }

  predicate OwnInside(d: Bytes, b: Block, length: nat) {
    b.Published() ==> InBuffer(d, b, length)
  }

  function DerivedPart(d: Bytes, b: Block): DerivedValues
    requires OwnInside(d, b, 20)
  {
    if b.Published() then DerivedAt(d[b.offset..]) else NoDerivedValues
  }

  function GeneralPart(d: Bytes, b: Block): GeneralSystemState
    requires OwnInside(d, b, 16)
  {
    if b.Published() then GeneralAt(d[b.offset..]) else NoGeneralSystemState
  }

  function ApplicationPart(d: Bytes, b: Block): ApplicationData
    requires OwnInside(d, b, 260)
  {
    if b.Published() then ApplicationAt(d[b.offset..]) else NoApplicationData
  }

  lemma ParseableParts(d: Bytes, h: DataHeader)
    requires DATA_HEADER_LENGTH <= |d| && h == GatedHeader(d)
    ensures Parseable(d) <==>
            && OwnInside(d, h.derived, 20) && OwnInside(d, h.general, 16) && OwnInside(d, h.application, 260)
            && MeasurementInside(d, h.measurement, DerivedPart(d, h.derived))
            && IntrusionInside(d, h.intrusion, DerivedPart(d, h.derived))
  {
  }

  lemma ScanParts(d: Bytes, h: DataHeader)
    requires Parseable(d) && h == GatedHeader(d)
    ensures OwnInside(d, h.derived, 20) && OwnInside(d, h.general, 16) && OwnInside(d, h.application, 260)
    ensures var derived := DerivedPart(d, h.derived);
            && MeasurementInside(d, h.measurement, derived) && IntrusionInside(d, h.intrusion, derived)
            && ScanOf(d) == Scan(h, derived, MeasurementPart(d, h.measurement, derived), GeneralPart(d, h.general),
                                 IntrusionPart(d, h.intrusion, derived), ApplicationPart(d, h.application))
  {
    ParseableParts(d, h);
  }

  lemma MeasurementPartChecked(d: Bytes, b: Block, derived: DerivedValues)
    ensures CheckedMeasurement(d, b, derived)
         == if MeasurementInside(d, b, derived) then Some(MeasurementPart(d, b, derived)) else None
  {
    if b.Published() && derived.DerivedValues? {
      MeasurementChecked(d, b, derived);
    }
  }

  lemma IntrusionPartChecked(d: Bytes, b: Block, derived: DerivedValues)
    ensures CheckedIntrusion(d, b, derived)
         == if IntrusionInside(d, b, derived) then Some(IntrusionPart(d, b, derived)) else None
  {
    if b.Published() && derived.DerivedValues? {
      IntrusionChecked(d, b, derived);
    }
  }

  lemma OwnPartsChecked(d: Bytes, h: DataHeader)
    ensures CheckedDerived(d, h.derived) == if OwnInside(d, h.derived, 20) then Some(DerivedPart(d, h.derived)) else None
    ensures CheckedGeneral(d, h.general) == if OwnInside(d, h.general, 16) then Some(GeneralPart(d, h.general)) else None
    ensures CheckedApplication(d, h.application)
         == if OwnInside(d, h.application, 260) then Some(ApplicationPart(d, h.application)) else None
  {
    DerivedChecked(d, h.derived);
    GeneralChecked(d, h.general);
    ApplicationChecked(d, h.application);
  }

  lemma Assembled(h: DataHeader, derived: DerivedValues, m: Option<Measurement.MeasurementData>, g: Option<GeneralSystemState>,
                  i: Option<IntrusionBlock>, a: Option<ApplicationData>)
    ensures Assemble(h, derived, m, g, i, a)
         == if m.Some? && g.Some? && i.Some? && a.Some?
            then Some(Scan(h, derived, m.value, g.value, i.value, a.value)) else None
  {
  }

  lemma BlocksChecked(buffer: Bytes, h: DataHeader)
    requires DATA_HEADER_LENGTH <= |buffer| && h == GatedHeader(buffer)
    ensures CheckedBlocks(buffer, h) == if Parseable(buffer) then Some(ScanOf(buffer)) else None
  {
    OwnPartsChecked(buffer, h);
    ParseableParts(buffer, h);
    if OwnInside(buffer, h.derived, 20) {
      var derived := DerivedPart(buffer, h.derived);
      MeasurementPartChecked(buffer, h.measurement, derived);
      IntrusionPartChecked(buffer, h.intrusion, derived);
      Assembled(h, derived, CheckedMeasurement(buffer, h.measurement, derived), CheckedGeneral(buffer, h.general),
                CheckedIntrusion(buffer, h.intrusion, derived), CheckedApplication(buffer, h.application));
      if Parseable(buffer) {
        ScanParts(buffer, h);
      }
    }
  }

  /** The condition under which the plain parser is safe is exact: checking every
      read gives its result where it holds, and stops at a read past the end
      everywhere else. */
  lemma CheckedScanIff(buffer: Bytes)
    ensures CheckedScan(buffer) == if Parseable(buffer) then Some(ScanOf(buffer)) else None
  {
    if DATA_HEADER_LENGTH <= |buffer| {
      HeaderInWindow(buffer, DATA_HEADER_LENGTH);
      BlocksChecked(buffer, GatedHeader(buffer));
    }
  }
}
