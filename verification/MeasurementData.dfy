/** The measurement block: a beam count and four bytes a beam, with the angle of
    each scan point accumulated step by step. Angles are exact ticks. */
module MeasurementData {
  import opened ReadWriteHelper
  import opened BitFlags

  const MAX_EXPECTED_BEAMS := 2751

  datatype ScanPoint = ScanPoint(
    angleTicks: int, distance: uint16, reflectivity: uint8, valid: bool, infinite: bool, glare: bool,
    reflector: bool, contamination: bool, contaminationWarning: bool)

  /** The beam count is None where it is never set. */
  datatype MeasurementData = MeasurementData(isEmpty: bool, numberOfBeams: Option<uint32>, points: seq<ScanPoint>)

  const UNPUBLISHED := MeasurementData(true, None, [])

  function PointOf(angleTicks: int, distance: uint16, reflectivity: uint8, status: uint8): ScanPoint {
    ScanPoint(angleTicks, distance, reflectivity, Bit(status, 0), Bit(status, 1), Bit(status, 2),
              Bit(status, 3), Bit(status, 4), Bit(status, 5))
  }

  /** The point at beam `i`, read from bytes 4 + 4i to 7 + 4i. */
  function PointAt(d: Bytes, i: nat, angleTicks: int): ScanPoint
    requires 8 + 4 * i <= |d|
  {
    PointOf(angleTicks, ReadUint16LittleEndian(d, 4 + 4 * i), d[6 + 4 * i], d[7 + 4 * i])
  }

  /** The accumulated angle after `n` points. */
  function Accumulated(start: int, delta: int, n: nat): int {
    if n == 0 then start else Accumulated(start, delta, n - 1) + delta
  }

  lemma {:induction false} AccumulatedAngle(start: int, delta: int, n: nat)
    ensures Accumulated(start, delta, n) == start + n * delta
  {
    if n > 0 {
      AccumulatedAngle(start, delta, n - 1);
    }
  }

  /** The first `n` points; the angle of each is the previous one plus the resolution. */
  function Points(d: Bytes, n: nat, start: int, delta: int): (points: seq<ScanPoint>)
    requires 4 + 4 * n <= |d|
    ensures |points| == n
    decreases n, d
  {
    if n == 0 then [] else Points(d, n - 1, start, delta) + [PointAt(d, n - 1, Accumulated(start, delta, n - 1))]
  }

  lemma PointsNext(d: Bytes, i: nat, start: int, delta: int)
    requires 8 + 4 * i <= |d|
    ensures Points(d, i + 1, start, delta) == Points(d, i, start, delta) + [PointAt(d, i, Accumulated(start, delta, i))]
    ensures Accumulated(start, delta, i + 1) == Accumulated(start, delta, i) + delta
  {
  }

  /** The index of a point is handed on as a 16-bit number, which loses nothing. */
  lemma Narrowed(i: nat)
    requires i < MAX_EXPECTED_BEAMS
    ensures i % 0x1_0000 == i
  {
  }

  predicate Readable(d: Bytes) {
    4 <= |d| &&
    var beams := ReadUint32LittleEndian(d, 0);
    beams <= MAX_EXPECTED_BEAMS ==> 4 + 4 * beams <= |d|
  }

  function Decode(d: Bytes, start: int, delta: int): MeasurementData
    requires Readable(d)
  {
    var beams := ReadUint32LittleEndian(d, 0);
    if beams > MAX_EXPECTED_BEAMS then MeasurementData(true, Some(0), [])
    else MeasurementData(false, Some(beams), Points(d, beams, start, delta))
  }

  class ParseMeasurementData {
    var angle: int
    var angleDelta: int

    /** The fields are not initialised. */
    constructor () {
    }

    method SetStartAngleAndDelta(start: int, delta: int)
      modifies this
      ensures angle == start && angleDelta == delta
    {
      angle := start;
      angleDelta := delta;
    }

    /** `d` is the buffer from the start of the block on. */
    method SetDataInMeasurementData(d: Bytes) returns (m: MeasurementData)
      requires Readable(d)
      modifies this`angle
      ensures m == Decode(d, old(angle), angleDelta)
    {
      var numBeams := ReadUint32LittleEndian(d, 0);
      if numBeams > MAX_EXPECTED_BEAMS {
        return MeasurementData(true, Some(0), []);
      }
      var points := [];
      for i := 0 to numBeams
        invariant points == Points(d, i, old(angle), angleDelta)
        invariant angle == Accumulated(old(angle), angleDelta, i)
      {
        PointsNext(d, i, old(angle), angleDelta);
        Narrowed(i);
        points := AddScanPoint(d, i % 0x1_0000, points);
        angle := angle + angleDelta;
      }
      m := MeasurementData(false, Some(numBeams), points);
    }

    method AddScanPoint(d: Bytes, offset: uint16, points: seq<ScanPoint>) returns (more: seq<ScanPoint>)
      requires 8 + 4 * offset <= |d|
      ensures more == points + [PointAt(d, offset, angle)]
    {
      var distance := ReadUint16LittleEndian(d, 4 + 4 * offset);
      var reflectivity := d[6 + 4 * offset];
      var status := d[7 + 4 * offset];
      more := points + [ScanPoint(angle, distance, reflectivity, Bit(status, 0), Bit(status, 1), Bit(status, 2),
                                  Bit(status, 3), Bit(status, 4), Bit(status, 5))];
    }
  }

  lemma {:induction false} PointsAt(d: Bytes, n: nat, start: int, delta: int, i: nat)
    requires 4 + 4 * n <= |d| && i < n
    ensures Points(d, n, start, delta)[i] == PointAt(d, i, start + i * delta)
  {
    AccumulatedAngle(start, delta, n - 1);
    if i < n - 1 {
      PointsAt(d, n - 1, start, delta, i);
    }
  }

  // ---- Decoding inverts encoding ----

  /** A beam as the sensor sends it. */
  datatype Beam = Beam(
    distance: uint16, reflectivity: uint8, valid: bool, infinite: bool, glare: bool, reflector: bool,
    contamination: bool, contaminationWarning: bool, reserved6: bool, reserved7: bool)
  {
    /** Its eight flags, from the lowest bit of the status byte up. */
    function Flags(): (flags: seq<bool>)
      ensures |flags| == 8
    {
      [valid, infinite, glare, reflector, contamination, contaminationWarning, reserved6, reserved7]
    }

    /** A scan point with this beam's values, at this angle. */
    predicate IsShownBy(point: ScanPoint, angleTicks: int) {
      && point.angleTicks == angleTicks && point.distance == distance && point.reflectivity == reflectivity
      && point.valid == valid && point.infinite == infinite && point.glare == glare && point.reflector == reflector
      && point.contamination == contamination && point.contaminationWarning == contaminationWarning
    }
  }

  function EncodePoint(p: Beam): (s: Bytes)
    ensures |s| == 4
  {
    PackByteBound(p.Flags());
    EncodeUint16LittleEndian(p.distance) + [p.reflectivity, Pack(p.Flags())]
  }

  function EncodePoints(ps: seq<Beam>): (s: Bytes)
    ensures |s| == 4 * |ps|
  {
    if ps == [] then [] else EncodePoints(ps[..|ps| - 1]) + EncodePoint(ps[|ps| - 1])
  }

  lemma SliceBefore(before: Bytes, e: Bytes, i: nat, j: nat)
    requires i <= j <= |before|
    ensures (before + e)[i..j] == before[i..j]
  {
  }

  lemma SliceBehind(before: Bytes, e: Bytes)
    ensures (before + e)[|before|..|before| + |e|] == e
  {
  }

  lemma {:induction false} EncodedPointAt(ps: seq<Beam>, i: nat)
    requires i < |ps|
    ensures EncodePoints(ps)[4 * i..4 * i + 4] == EncodePoint(ps[i])
  {
    var n := |ps| - 1;
    var before := EncodePoints(ps[..n]);
    if i < n {
      assert ps[..n][i] == ps[i];
      EncodedPointAt(ps[..n], i);
      SliceBefore(before, EncodePoint(ps[n]), 4 * i, 4 * i + 4);
    } else {
      SliceBehind(before, EncodePoint(ps[n]));
    }
  }

  lemma StatusBits(p: Beam, status: nat)
    requires status == Pack(p.Flags())
    ensures forall k :: 0 <= k < 8 ==> Bit(status, k) == p.Flags()[k]
  {
    forall k | 0 <= k < 8 ensures Bit(status, k) == p.Flags()[k] {
      PackedBit(p.Flags(), k);
    }
  }

  lemma PointInPlace(d: Bytes, i: nat, p: Beam, angleTicks: int)
    requires 8 + 4 * i <= |d| && d[4 + 4 * i..8 + 4 * i] == EncodePoint(p)
    ensures p.IsShownBy(PointAt(d, i, angleTicks), angleTicks)
  {
    var at, e := 4 + 4 * i, EncodePoint(p);
    assert d[at] == d[at..at + 4][0] && d[at + 1] == d[at..at + 4][1];
    assert d[at + 2] == d[at..at + 4][2] && d[at + 3] == d[at..at + 4][3];
    assert d[at..at + 2] == EncodeUint16LittleEndian(p.distance);
    Uint16LittleEndianInverse(d, at, p.distance);
    StatusBits(p, d[at + 3]);
  }

  lemma EncodedInBlock(count: Bytes, points: Bytes, after: Bytes, i: nat)
    requires |count| == 4 && 4 * i + 4 <= |points|
    ensures (count + points + after)[4 + 4 * i..8 + 4 * i] == points[4 * i..4 * i + 4]
  {
  }

  lemma CountInBlock(count: Bytes, points: Bytes, after: Bytes)
    requires |count| == 4
    ensures (count + points + after)[0..4] == count
  {
  }

  /** Up to 2751 encoded beams come back one for one, every field of each, at
      start + i * resolution; with any larger count nothing is decoded and the
      block is marked empty. */
  lemma MeasurementRoundTrip(ps: seq<Beam>, after: Bytes, start: int, delta: int, i: nat)
    requires |ps| < 0x1_0000_0000
    ensures var d := EncodeUint32LittleEndian(|ps|) + EncodePoints(ps) + after;
            && Readable(d)
            && var m := Decode(d, start, delta);
               if |ps| <= 2751 then
                 && !m.isEmpty && m.numberOfBeams == Some(|ps|) && |m.points| == |ps|
                 && (i < |ps| ==> ps[i].IsShownBy(m.points[i], start + i * delta))
               else m.isEmpty && m.numberOfBeams == Some(0) && m.points == []
  {
    var count, points := EncodeUint32LittleEndian(|ps|), EncodePoints(ps);
    var d := count + points + after;
    CountInBlock(count, points, after);
    Uint32LittleEndianInverse(d, 0, |ps|);
    if i < |ps| <= MAX_EXPECTED_BEAMS {
      EncodedInBlock(count, points, after, i);
      EncodedPointAt(ps, i);
      PointInPlace(d, i, ps[i], start + i * delta);
      PointsAt(d, |ps|, start, delta, i);
    }
  }
}
