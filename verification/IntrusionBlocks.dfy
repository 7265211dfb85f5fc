/** Blocks of intrusion records, and exactly when the decoder's 16-bit offset
    reads them back. */
module IntrusionBlocks {
  import opened ReadWriteHelper
  import opened BitFlags
  import opened IntrusionData

  // ---- Decoding inverts encoding ----

  /** Every size fits the signed 32 bits in which it is kept. */
  predicate Small(records: seq<Bytes>) {
    forall i :: 0 <= i < |records| ==> |records[i]| < 0x8000_0000
  }

  /** Where record `i` starts, before any wrapping. */
  function StartOf(records: seq<Bytes>, i: nat): nat
    requires i <= |records|
  {
    if i == 0 then 0 else StartOf(records, i - 1) + 4 + |records[i - 1]|
  }

  /** The block of a list of records. */
  function Layout(records: seq<Bytes>): Bytes
    requires Small(records)
  {
    if records == [] then []
    else
      var n := |records| - 1;
      Layout(records[..n]) + EncodeUint32LittleEndian(|records[n]|) + records[n]
  }

  function DatumOf(record: Bytes, beams: uint16): IntrusionDatum
    requires |record| < 0x8000_0000
  {
    IntrusionDatum(|record|, Flags(record, 0, FlagCount(|record|, beams)))
  }

  function DatumsOf(records: seq<Bytes>, beams: uint16): seq<IntrusionDatum>
    requires Small(records)
  {
    if records == [] then [] else [DatumOf(records[0], beams)] + DatumsOf(records[1..], beams)
  }

  /** The records are what is decoded from `offset` on. */
  predicate DecodesTo(d: Bytes, offset: uint16, records: seq<Bytes>, beams: uint16)
    requires Small(records)
  {
    Readable(d, offset, |records|, beams) && Decode(d, offset, |records|, beams) == DatumsOf(records, beams)
  }

  /** The records' own block, whatever follows it, is decoded to the records. */
  predicate RoundTrips(records: seq<Bytes>, after: Bytes, beams: uint16)
    requires Small(records)
  {
    var d := Layout(records) + after;
    DecodesTo(d, 0, records, beams)
  }

  // Where the records of a block are.

  /** A record stands in `d` from `start` on. */
  predicate RecordAt(d: Bytes, start: nat, r: Bytes) {
    && |r| < 0x8000_0000 && start + 4 + |r| <= |d|
    && SizeAt(d, start) == |r|
    && d[start + 4..start + 4 + |r|] == r
  }

  lemma {:induction false} StartOfPrefix(records: seq<Bytes>, n: nat, i: nat)
    requires i <= n <= |records|
    ensures StartOf(records[..n], i) == StartOf(records, i)
  {
    if i > 0 {
      StartOfPrefix(records, n, i - 1);
    }
  }

  lemma {:induction false} StartOfGrows(records: seq<Bytes>, i: nat, j: nat)
    requires i < j <= |records|
    ensures StartOf(records, i) + 4 + |records[i]| <= StartOf(records, j)
    decreases j
  {
    if i < j - 1 {
      StartOfGrows(records, i, j - 1);
    }
  }

  lemma {:induction false} LayoutLength(records: seq<Bytes>)
    requires Small(records)
    ensures |Layout(records)| == StartOf(records, |records|)
  {
    if records != [] {
      var n := |records| - 1;
      LayoutLength(records[..n]);
      StartOfPrefix(records, n, n);
    }
  }

  /** The first records of a block are a block of their own in front of the others. */
  lemma {:induction false} LayoutPrefix(records: seq<Bytes>, n: nat)
    requires Small(records) && n <= |records|
    ensures Layout(records[..n]) <= Layout(records)
    decreases |records|
  {
    if n == |records| {
      assert records[..n] == records;
    } else {
      var m := |records| - 1;
      LayoutPrefix(records[..m], n);
      assert records[..m][..n] == records[..n];
    }
  }

  lemma SizeBytes(d: Bytes, at: nat, size: nat)
    requires at + 4 <= |d| && size < 0x8000_0000
    ensures SizeAt(d, at) == size <==> d[at..at + 4] == EncodeUint32LittleEndian(size)
  {
    Uint32LittleEndianInverse(d, at, size);
  }

  lemma InTheMiddle(front: Bytes, size: Bytes, r: Bytes, block: Bytes, d: Bytes)
    requires |size| == 4 && front + size + r <= block && block <= d
    ensures |front| + 4 + |r| <= |block|
    ensures d[|front|..|front| + 4] == size && d[|front| + 4..|front| + 4 + |r|] == r
  {
    var e := front + size + r;
    assert d[..|e|] == e;
    assert e[|front|..|front| + 4] == size && e[|front| + 4..] == r;
  }

  lemma RecordBehind(front: Bytes, r: Bytes, block: Bytes, d: Bytes)
    requires |r| < 0x8000_0000 && front + EncodeUint32LittleEndian(|r|) + r <= block && block <= d
    ensures RecordAt(d, |front|, r) && |front| + 4 + |r| <= |block|
  {
    InTheMiddle(front, EncodeUint32LittleEndian(|r|), r, block, d);
    SizeBytes(d, |front|, |r|);
  }

  lemma LayoutNext(records: seq<Bytes>, i: nat)
    requires Small(records) && i < |records|
    ensures Layout(records[..i + 1]) == Layout(records[..i]) + EncodeUint32LittleEndian(|records[i]|) + records[i]
  {
    assert records[..i + 1][..i] == records[..i];
  }

  lemma FrontLength(records: seq<Bytes>, i: nat)
    requires Small(records) && i <= |records|
    ensures |Layout(records[..i])| == StartOf(records, i)
  {
    LayoutLength(records[..i]);
    StartOfPrefix(records, i, i);
  }

  /** The block up to the end of record `i`. */
  lemma BlockThrough(records: seq<Bytes>, i: nat)
    requires Small(records) && i < |records|
    ensures Layout(records[..i]) + EncodeUint32LittleEndian(|records[i]|) + records[i] <= Layout(records)
    ensures |Layout(records[..i])| == StartOf(records, i)
  {
    LayoutPrefix(records, i + 1);
    LayoutNext(records, i);
    FrontLength(records, i);
  }

  /** Every record stands at its start, in any buffer that begins with the block. */
  lemma RecordPlaced(records: seq<Bytes>, d: Bytes, i: nat)
    requires Small(records) && i < |records| && Layout(records) <= d
    ensures RecordAt(d, StartOf(records, i), records[i])
    ensures StartOf(records, i) + 4 + |records[i]| <= |Layout(records)|
  {
    BlockThrough(records, i);
    RecordBehind(Layout(records[..i]), records[i], Layout(records), d);
  }

  // What the decoder makes of one record and the next.

  /** Size and flags of a record are what the decoder finds at these offsets. */
  predicate Reads(d: Bytes, offset: nat, payload: nat, r: Bytes, beams: uint16)
    requires |r| < 0x8000_0000
  {
    var count := FlagCount(|r|, beams);
    && offset + 4 <= |d| && SizeAt(d, offset) == |r|
    && Holds(d, payload, count) && Flags(d, payload, count) == DatumOf(r, beams).flags
  }

  /** Record `i` is read right where its offset points. */
  predicate ReadAt(d: Bytes, records: seq<Bytes>, i: nat, beams: uint16)
    requires Small(records) && i < |records|
  {
    Reads(d, StartOf(records, i) % 0x1_0000, (StartOf(records, i) + 4) % 0x1_0000, records[i], beams)
  }

  predicate AllReadAt(d: Bytes, records: seq<Bytes>, i: nat, beams: uint16)
    requires Small(records)
  {
    forall j :: i <= j < |records| ==> ReadAt(d, records, j, beams)
  }

  lemma ConsEqual<T>(a: T, s: seq<T>, b: T, t: seq<T>)
    ensures [a] + s == [b] + t <==> a == b && s == t
  {
    if [a] + s == [b] + t {
      assert ([a] + s)[0] == a && ([b] + t)[0] == b;
      assert ([a] + s)[1..] == s && ([b] + t)[1..] == t;
    }
  }

  lemma WrappedOffset(a: nat, step: nat)
    ensures (a % 0x1_0000 + step) % 0x1_0000 == (a + step) % 0x1_0000
  {
  }

  /** The offset follows the starts modulo 65536. */
  lemma OffsetFollows(start: nat, size: nat)
    ensures Advance(start % 0x1_0000, 4) == (start + 4) % 0x1_0000
    ensures Advance((start + 4) % 0x1_0000, size) == (start + 4 + size) % 0x1_0000
  {
    WrappedOffset(start, 4);
    WrappedOffset(start + 4, size);
  }

  /** Decoding to some records is reading the first and decoding to the others. */
  lemma DecodesCons(d: Bytes, offset: uint16, payload: uint16, next: uint16, records: seq<Bytes>, beams: uint16)
    requires Small(records) && records != []
    requires payload == Advance(offset, 4) && next == Advance(payload, |records[0]|)
    ensures DecodesTo(d, offset, records, beams) <==>
            Reads(d, offset, payload, records[0], beams) && DecodesTo(d, next, records[1..], beams)
  {
    if Readable(d, offset, |records|, beams) {
      var size := SizeAt(d, offset);
      ConsEqual(IntrusionDatum(size, Flags(d, payload, FlagCount(size, beams))),
                Decode(d, Advance(payload, size), |records| - 1, beams),
                DatumOf(records[0], beams), DatumsOf(records[1..], beams));
    }
  }

  lemma DecodesNext(d: Bytes, records: seq<Bytes>, i: nat, beams: uint16)
    requires Small(records) && i < |records|
    ensures DecodesTo(d, StartOf(records, i) % 0x1_0000, records[i..], beams) <==>
            ReadAt(d, records, i, beams) && DecodesTo(d, StartOf(records, i + 1) % 0x1_0000, records[i + 1..], beams)
  {
    var start, rest := StartOf(records, i), records[i..];
    OffsetFollows(start, |records[i]|);
    assert rest[0] == records[i] && rest[1..] == records[i + 1..];
    DecodesCons(d, start % 0x1_0000, (start + 4) % 0x1_0000, (start + 4 + |records[i]|) % 0x1_0000, rest, beams);
  }

  lemma {:induction false} DecodesFrom(d: Bytes, records: seq<Bytes>, i: nat, beams: uint16)
    requires Small(records) && i <= |records|
    ensures DecodesTo(d, StartOf(records, i) % 0x1_0000, records[i..], beams) <==> AllReadAt(d, records, i, beams)
    decreases |records| - i
  {
    if i < |records| {
      DecodesNext(d, records, i, beams);
      DecodesFrom(d, records, i + 1, beams);
      assert AllReadAt(d, records, i, beams) <==> ReadAt(d, records, i, beams) && AllReadAt(d, records, i + 1, beams);
    }
  }

  /** A block is decoded to its records if every record is read right. */
  lemma RoundTripsIff(records: seq<Bytes>, after: Bytes, beams: uint16)
    requires Small(records)
    ensures RoundTrips(records, after, beams) <==> AllReadAt(Layout(records) + after, records, 0, beams)
  {
    assert records[0..] == records;
    DecodesFromStart(Layout(records) + after, 0, records, records, beams);
  }

  lemma DecodesFromStart(d: Bytes, offset: uint16, all: seq<Bytes>, records: seq<Bytes>, beams: uint16)
    requires Small(records) && offset == StartOf(records, 0) % 0x1_0000 && all == records[0..]
    ensures DecodesTo(d, offset, all, beams) <==> AllReadAt(d, records, 0, beams)
  {
    DecodesFrom(d, records, 0, beams);
  }

  // ---- Exactly when a block is decoded to its records ----

  predicate SameSizes(a: seq<Bytes>, b: seq<Bytes>) {
    |a| == |b| && forall i :: 0 <= i < |a| ==> |a[i]| == |b[i]|
  }

  /** Records of the same sizes with every byte `v`. */
  function Filled(records: seq<Bytes>, v: uint8): (filled: seq<Bytes>)
    ensures SameSizes(filled, records)
  {
    seq(|records|, i requires 0 <= i < |records| => seq(|records[i]|, _ => v))
  }

  /** The four bytes at `at` say `size` in both blocks. */
  predicate BothSay(zeros: Bytes, ones: Bytes, at: nat, size: nat) {
    && at + 4 <= |zeros| && at + 4 <= |ones|
    && SizeAt(zeros, at) == size && SizeAt(ones, at) == size
  }

  /** The 16-bit offset reaches the record, or what it reads instead shows the
      same size; and it reaches the flags, if the record has any. */
  predicate Reached(zeros: Bytes, ones: Bytes, start: nat, size: int32, beams: uint16)
    requires size >= 0
  {
    && (start < 0x1_0000 || BothSay(zeros, ones, start % 0x1_0000, size))
    && (start + 4 < 0x1_0000 || FlagCount(size, beams) == 0)
  }

  predicate AllReached(zeros: Bytes, ones: Bytes, records: seq<Bytes>, beams: uint16)
    requires Small(records)
  {
    forall i :: 0 <= i < |records| ==> Reached(zeros, ones, StartOf(records, i), |records[i]|, beams)
  }

  /** A condition on the sizes alone: a size read elsewhere must be the same
      whether all payload bytes are 0 or 255, so that no payload changes it. */
  predicate Recoverable(records: seq<Bytes>, beams: uint16)
    requires Small(records)
  {
    AllReached(Layout(Filled(records, 0)), Layout(Filled(records, 0xFF)), records, beams)
  }

  /** The plain form: every record starts below 65536, and so do its flags. */
  predicate InReach(records: seq<Bytes>, beams: uint16)
    requires Small(records)
  {
    forall i :: 0 <= i < |records| ==>
      StartOf(records, i) < 0x1_0000 && (StartOf(records, i) + 4 < 0x1_0000 || FlagCount(|records[i]|, beams) == 0)
  }

  // Sufficient.

  lemma ByteOfBlock(before: Bytes, size: Bytes, r: Bytes, q: nat)
    requires |size| == 4 && q < |before + size + r|
    ensures (before + size + r)[q]
         == (if q < |before| then before[q] else if q < |before| + 4 then size[q - |before|] else r[q - |before| - 4])
  {
  }

  lemma FilledPrefix(records: seq<Bytes>, v: uint8, n: nat)
    requires n <= |records|
    ensures Filled(records, v)[..n] == Filled(records[..n], v)
  {
  }

  lemma LayoutLast(records: seq<Bytes>, v: uint8)
    requires records != [] && Small(records)
    ensures var n := |records| - 1;
            Layout(Filled(records, v))
            == Layout(Filled(records[..n], v)) + EncodeUint32LittleEndian(|records[n]|) + Filled(records, v)[n]
  {
    FilledPrefix(records, v, |records| - 1);
  }

  lemma {:induction false} SameLength(a: seq<Bytes>, b: seq<Bytes>, i: nat)
    requires SameSizes(a, b) && i <= |a|
    ensures StartOf(a, i) == StartOf(b, i)
  {
    if i > 0 {
      SameLength(a, b, i - 1);
    }
  }

  lemma FilledLength(records: seq<Bytes>, v: uint8)
    requires Small(records)
    ensures |Layout(Filled(records, v))| == |Layout(records)|
  {
    LayoutLength(records);
    LayoutLength(Filled(records, v));
    SameLength(Filled(records, v), records, |records|);
  }

  /** A byte that is the same in the two filled blocks is the same in every block of these sizes. */
  lemma {:induction false} FixedByte(records: seq<Bytes>, q: nat)
    requires Small(records) && q < |Layout(records)|
    ensures |Layout(Filled(records, 0))| == |Layout(Filled(records, 0xFF))| == |Layout(records)|
    ensures Layout(Filled(records, 0))[q] == Layout(Filled(records, 0xFF))[q] ==>
              Layout(records)[q] == Layout(Filled(records, 0))[q]
  {
    FilledLength(records, 0);
    FilledLength(records, 0xFF);
    var n := |records| - 1;
    var size := EncodeUint32LittleEndian(|records[n]|);
    LayoutLast(records, 0);
    LayoutLast(records, 0xFF);
    FilledLength(records[..n], 0);
    FilledLength(records[..n], 0xFF);
    ByteOfBlock(Layout(records[..n]), size, records[n], q);
    ByteOfBlock(Layout(Filled(records[..n], 0)), size, Filled(records, 0)[n], q);
    ByteOfBlock(Layout(Filled(records[..n], 0xFF)), size, Filled(records, 0xFF)[n], q);
    if q < |Layout(records[..n])| {
      FixedByte(records[..n], q);
    }
  }

  /** Where the two blocks agree, `d` agrees with them. */
  ghost predicate Fixes(zeros: Bytes, ones: Bytes, d: Bytes) {
    && |zeros| == |ones| <= |d|
    && forall q :: 0 <= q < |zeros| && zeros[q] == ones[q] ==> d[q] == zeros[q]
  }

  lemma FilledFixes(records: seq<Bytes>, d: Bytes)
    requires Small(records) && Layout(records) <= d
    ensures Fixes(Layout(Filled(records, 0)), Layout(Filled(records, 0xFF)), d)
  {
    FilledLength(records, 0);
    FilledLength(records, 0xFF);
    var zeros, ones := Layout(Filled(records, 0)), Layout(Filled(records, 0xFF));
    forall q | 0 <= q < |zeros| && zeros[q] == ones[q] ensures d[q] == zeros[q] {
      FixedByte(records, q);
    }
  }

  lemma FixedSize(zeros: Bytes, ones: Bytes, d: Bytes, at: nat, size: nat)
    requires Fixes(zeros, ones, d) && BothSay(zeros, ones, at, size) && size < 0x8000_0000
    ensures at + 4 <= |d| && SizeAt(d, at) == size
  {
    SizeBytes(zeros, at, size);
    SizeBytes(ones, at, size);
    assert zeros[at..at + 4] == ones[at..at + 4];
    forall q | at <= q < at + 4 ensures d[q] == zeros[q] {
      assert zeros[q] == zeros[at..at + 4][q - at] && ones[q] == ones[at..at + 4][q - at];
    }
  }

  lemma RecordRead(zeros: Bytes, ones: Bytes, d: Bytes, start: nat, offset: nat, payload: nat, r: Bytes, beams: uint16)
    requires RecordAt(d, start, r) && Fixes(zeros, ones, d)
    requires if start < 0x1_0000 then offset == start else BothSay(zeros, ones, offset, |r|)
    requires if start + 4 < 0x1_0000 then payload == start + 4 else payload <= |d| && FlagCount(|r|, beams) == 0
    ensures Reads(d, offset, payload, r, beams)
  {
    if start >= 0x1_0000 {
      FixedSize(zeros, ones, d, offset, |r|);
    }
    if start + 4 < 0x1_0000 {
      SameFlags(d, start + 4, r, FlagCount(|r|, beams));
    }
  }

  lemma Wrapped(n: nat)
    ensures n % 0x1_0000 <= n
    ensures n < 0x1_0000 ==> n % 0x1_0000 == n
  {
  }

  lemma ReachedRead(zeros: Bytes, ones: Bytes, d: Bytes, start: nat, r: Bytes, beams: uint16)
    requires RecordAt(d, start, r) && Fixes(zeros, ones, d) && Reached(zeros, ones, start, |r|, beams)
    ensures Reads(d, start % 0x1_0000, (start + 4) % 0x1_0000, r, beams)
  {
    Wrapped(start);
    Wrapped(start + 4);
    RecordRead(zeros, ones, d, start, start % 0x1_0000, (start + 4) % 0x1_0000, r, beams);
  }

  lemma AllReachedRead(zeros: Bytes, ones: Bytes, d: Bytes, records: seq<Bytes>, beams: uint16)
    requires Small(records) && AllReached(zeros, ones, records, beams) && Fixes(zeros, ones, d)
    requires forall i :: 0 <= i < |records| ==> RecordAt(d, StartOf(records, i), records[i])
    ensures AllReadAt(d, records, 0, beams)
  {
    forall i | 0 <= i < |records| ensures ReadAt(d, records, i, beams) {
      ReachedRead(zeros, ones, d, StartOf(records, i), records[i], beams);
    }
  }

  lemma AllPlaced(records: seq<Bytes>, d: Bytes)
    requires Small(records) && Layout(records) <= d
    ensures forall i :: 0 <= i < |records| ==> RecordAt(d, StartOf(records, i), records[i])
  {
    forall i | 0 <= i < |records| ensures RecordAt(d, StartOf(records, i), records[i]) {
      RecordPlaced(records, d, i);
    }
  }

  /** Recoverable records are what their block decodes to. */
  lemma RecoverableRoundTrips(records: seq<Bytes>, after: Bytes, beams: uint16)
    requires Small(records) && Recoverable(records, beams)
    ensures RoundTrips(records, after, beams)
  {
    var d := Layout(records) + after;
    AllPlaced(records, d);
    FilledFixes(records, d);
    AllReachedRead(Layout(Filled(records, 0)), Layout(Filled(records, 0xFF)), d, records, beams);
    RoundTripsIff(records, after, beams);
  }

  lemma RecoverableBySize(a: seq<Bytes>, b: seq<Bytes>, beams: uint16)
    requires Small(a) && Small(b) && SameSizes(a, b) && Recoverable(b, beams)
    ensures Recoverable(a, beams)
  {
    assert Filled(a, 0) == Filled(b, 0) && Filled(a, 0xFF) == Filled(b, 0xFF);
    SameReached(Layout(Filled(b, 0)), Layout(Filled(b, 0xFF)), a, b, beams);
  }

  lemma SameReached(zeros: Bytes, ones: Bytes, a: seq<Bytes>, b: seq<Bytes>, beams: uint16)
    requires Small(a) && Small(b) && SameSizes(a, b) && AllReached(zeros, ones, b, beams)
    ensures AllReached(zeros, ones, a, beams)
  {
    forall i | 0 <= i < |a| ensures Reached(zeros, ones, StartOf(a, i), |a[i]|, beams) {
      SameLength(a, b, i);
    }
  }

  // Necessary.

  /** The size is read right in both filled blocks only if the condition on sizes holds. */
  lemma SizeNeeded(records: seq<Bytes>, after: Bytes, i: nat, beams: uint16)
    requires Small(records) && i < |records| && StartOf(records, i) >= 0x1_0000
    requires RoundTrips(Filled(records, 0), after, beams) && RoundTrips(Filled(records, 0xFF), after, beams)
    ensures BothSay(Layout(Filled(records, 0)), Layout(Filled(records, 0xFF)), StartOf(records, i) % 0x1_0000, |records[i]|)
  {
    FilledSizeShown(records, 0, after, i, beams);
    FilledSizeShown(records, 0xFF, after, i, beams);
  }

  lemma FilledSizeShown(records: seq<Bytes>, v: uint8, after: Bytes, i: nat, beams: uint16)
    requires Small(records) && i < |records| && StartOf(records, i) >= 0x1_0000
    requires RoundTrips(Filled(records, v), after, beams)
    ensures var at := StartOf(records, i) % 0x1_0000;
            at + 4 <= |Layout(Filled(records, v))| && SizeAt(Layout(Filled(records, v)), at) == |records[i]|
  {
    var filled := Filled(records, v);
    SameLength(filled, records, i);
    SizeShown(filled, after, i, beams);
  }

  /** A record beyond the offset's reach that is decoded right has its size shown elsewhere. */
  lemma SizeShown(records: seq<Bytes>, after: Bytes, i: nat, beams: uint16)
    requires Small(records) && i < |records| && RoundTrips(records, after, beams)
    requires StartOf(records, i) >= 0x1_0000
    ensures var at := StartOf(records, i) % 0x1_0000;
            at + 4 <= |Layout(records)| && SizeAt(Layout(records), at) == |records[i]|
  {
    var d := Layout(records) + after;
    RoundTripsIff(records, after, beams);
    assert ReadAt(d, records, i, beams);
    RecordPlaced(records, d, i);
  }

  /** The byte where the offset points shows the first flag of record `i`. */
  predicate FirstFlagShown(records: seq<Bytes>, after: Bytes, i: nat)
    requires Small(records) && i < |records| && records[i] != []
  {
    var d, at := Layout(records) + after, (StartOf(records, i) + 4) % 0x1_0000;
    at < |d| && Bit(d[at], 0) == Bit(records[i][0], 0)
  }

  lemma FirstFlagNeeded(records: seq<Bytes>, after: Bytes, i: nat, beams: uint16)
    requires Small(records) && i < |records| && RoundTrips(records, after, beams)
    requires FlagCount(|records[i]|, beams) > 0
    ensures FirstFlagShown(records, after, i)
  {
    RoundTripsIff(records, after, beams);
    assert ReadAt(Layout(records) + after, records, i, beams);
    FirstFlagRead(Layout(records) + after, StartOf(records, i) % 0x1_0000, (StartOf(records, i) + 4) % 0x1_0000, records[i], beams);
  }

  lemma FirstFlagRead(d: Bytes, offset: nat, payload: nat, r: Bytes, beams: uint16)
    requires |r| < 0x8000_0000 && FlagCount(|r|, beams) > 0 && Reads(d, offset, payload, r, beams)
    ensures payload < |d| && Bit(d[payload], 0) == Bit(r[0], 0)
  {
    FlagAt(d, payload, FlagCount(|r|, beams), 0);
    FlagAt(r, 0, FlagCount(|r|, beams), 0);
  }

  /** Up to the flags of record `i` a block depends on the records before it and on its size. */
  lemma SameUpToFlags(a: seq<Bytes>, b: seq<Bytes>, after: Bytes, i: nat, q: nat)
    requires Small(a) && Small(b) && i < |a| && i < |b| && |a[i]| == |b[i]| && a[..i] == b[..i]
    requires q < StartOf(a, i) + 4
    ensures q < |Layout(a)| && q < |Layout(b)| && (Layout(a) + after)[q] == (Layout(b) + after)[q]
  {
    BlockThrough(a, i);
    BlockThrough(b, i);
    var front := Layout(a[..i]) + EncodeUint32LittleEndian(|a[i]|);
    SamePrefix(front, a[i], Layout(a), after, q);
    SamePrefix(front, b[i], Layout(b), after, q);
  }

  lemma SamePrefix(front: Bytes, r: Bytes, block: Bytes, after: Bytes, q: nat)
    requires front + r <= block && q < |front|
    ensures q < |block| && (block + after)[q] == front[q]
  {
    assert (front + r)[q] == block[q];
  }

  /** Of two blocks that differ only in the flags of record `i`, not both show its
      first flag if the offset cannot point there. */
  lemma NotBothShown(a: seq<Bytes>, b: seq<Bytes>, after: Bytes, i: nat)
    requires Small(a) && Small(b) && i < |a| && i < |b| && |a[i]| == |b[i]| > 0 && a[..i] == b[..i]
    requires StartOf(a, i) == StartOf(b, i) >= 0x1_0000 - 4
    requires Bit(a[i][0], 0) != Bit(b[i][0], 0)
    ensures !FirstFlagShown(a, after, i) || !FirstFlagShown(b, after, i)
  {
    SameUpToFlags(a, b, after, i, (StartOf(a, i) + 4) % 0x1_0000);
  }

  /** So a record with its flags out of reach can have flags that its block does not show. */
  lemma FlagsNeeded(records: seq<Bytes>, after: Bytes, i: nat)
    requires Small(records) && i < |records| && StartOf(records, i) + 4 >= 0x1_0000 && records[i] != []
    ensures exists other: seq<Bytes> :: SameSizes(other, records) && !FirstFlagShown(other, after, i)
  {
    var zeros := Filled(records, 0);
    var other := OneChanged(records, i);
    NotBothShown(zeros, other, after, i);
    assert SameSizes(zeros, records) && SameSizes(other, records);
  }

  lemma OneChanged(records: seq<Bytes>, i: nat) returns (other: seq<Bytes>)
    requires i < |records| && records[i] != []
    ensures SameSizes(other, records) && other[..i] == Filled(records, 0)[..i]
    ensures Bit(other[i][0], 0) && !Bit(Filled(records, 0)[i][0], 0)
    ensures StartOf(other, i) == StartOf(Filled(records, 0), i) == StartOf(records, i)
  {
    var ones: Bytes := seq(|records[i]|, _ => 1);
    other := Filled(records, 0)[i := ones];
    SameLength(Filled(records, 0), records, i);
    SameLength(other, records, i);
  }

  ghost predicate AllOfTheseSizes(records: seq<Bytes>, after: Bytes, beams: uint16)
    requires Small(records)
  {
    forall other: seq<Bytes> :: SameSizes(other, records) ==> RoundTrips(other, after, beams)
  }

  lemma RecordNeeded(records: seq<Bytes>, after: Bytes, i: nat, beams: uint16)
    requires Small(records) && i < |records| && AllOfTheseSizes(records, after, beams)
    ensures Reached(Layout(Filled(records, 0)), Layout(Filled(records, 0xFF)), StartOf(records, i), |records[i]|, beams)
  {
    if StartOf(records, i) >= 0x1_0000 {
      SizeNeeded(records, after, i, beams);
    }
    if StartOf(records, i) + 4 >= 0x1_0000 && FlagCount(|records[i]|, beams) > 0 {
      FlagsNeeded(records, after, i);
      var other: seq<Bytes> :| SameSizes(other, records) && !FirstFlagShown(other, after, i);
      FirstFlagNeeded(other, after, i, beams);
      assert false;
    }
  }

  /** All records of given sizes are decoded right if and only if the sizes are
      recoverable, whatever follows the block. */
  lemma RecoverableIff(records: seq<Bytes>, after: Bytes, beams: uint16)
    requires Small(records)
    ensures Recoverable(records, beams) <==> AllOfTheseSizes(records, after, beams)
  {
    if Recoverable(records, beams) {
      forall other: seq<Bytes> | SameSizes(other, records) ensures RoundTrips(other, after, beams) {
        RecoverableBySize(other, records, beams);
        RecoverableRoundTrips(other, after, beams);
      }
    } else if AllOfTheseSizes(records, after, beams) {
      var zeros, ones := Layout(Filled(records, 0)), Layout(Filled(records, 0xFF));
      forall i | 0 <= i < |records| ensures Reached(zeros, ones, StartOf(records, i), |records[i]|, beams) {
        RecordNeeded(records, after, i, beams);
      }
    }
  }

  /** Records in reach are recoverable; where every record has flags to read, no others are. */
  lemma InReachIff(records: seq<Bytes>, beams: uint16)
    requires Small(records)
    ensures InReach(records, beams) ==> Recoverable(records, beams)
    ensures beams > 0 && [] !in records ==> (Recoverable(records, beams) ==> InReach(records, beams))
  {
    if Recoverable(records, beams) && beams > 0 && [] !in records {
      var zeros, ones := Layout(Filled(records, 0)), Layout(Filled(records, 0xFF));
      forall i | 0 <= i < |records| ensures StartOf(records, i) + 4 < 0x1_0000 {
        assert Reached(zeros, ones, StartOf(records, i), |records[i]|, beams) && records[i] in records;
      }
    }
  }

  /** For records that all have flags, being in reach is the exact condition. */
  lemma InReachExact(records: seq<Bytes>, after: Bytes, beams: uint16)
    requires Small(records) && beams > 0 && [] !in records
    ensures InReach(records, beams) <==> AllOfTheseSizes(records, after, beams)
  {
    InReachIff(records, beams);
    RecoverableIff(records, after, beams);
  }

  /** Every record of a block that ends below 65536 is in reach. */
  lemma ShortBlockInReach(records: seq<Bytes>, beams: uint16)
    requires Small(records) && |Layout(records)| < 0x1_0000
    ensures InReach(records, beams)
  {
    LayoutLength(records);
    forall i | 0 <= i < |records| ensures StartOf(records, i) + 4 < 0x1_0000 {
      StartOfGrows(records, i, |records|);
    }
  }

  lemma {:induction false} DatumsAt(records: seq<Bytes>, beams: uint16, i: nat)
    requires Small(records)
    requires i < |records|
    ensures |DatumsOf(records, beams)| == |records| && DatumsOf(records, beams)[i] == DatumOf(records[i], beams)
  {
    if i > 0 {
      DatumsAt(records[1..], beams, i - 1);
    } else if |records| > 1 {
      DatumsAt(records[1..], beams, 0);
    }
  }

  lemma DatumFlag(record: Bytes, beams: uint16, k: nat)
    requires |record| < 0x8000_0000 && k < Min(8 * |record|, beams)
    ensures var flags := DatumOf(record, beams).flags;
            |flags| == Min(8 * |record|, beams) && flags[k] == Bit(record[k / 8], k % 8)
  {
    FlagAt(record, 0, Min(8 * |record|, beams), k);
  }

  /** Any 24 recoverable records come back in order: each with its size, and flag
      `k` equal to bit `k % 8` of its byte `k / 8`. */
  lemma IntrusionRoundTrip(records: seq<Bytes>, after: Bytes, beams: uint16, i: nat, k: nat)
    requires |records| == 24 && Small(records) && Recoverable(records, beams) && i < 24
    ensures Readable(Layout(records) + after, 0, RECORDS, beams)
    ensures var datum := Decode(Layout(records) + after, 0, RECORDS, beams)[i];
            && datum.size == |records[i]| && |datum.flags| == Min(8 * |records[i]|, beams)
            && (k < |datum.flags| ==> datum.flags[k] == Bit(records[i][k / 8], k % 8))
  {
    RecoverableRoundTrips(records, after, beams);
    DatumsAt(records, beams, i);
    if k < Min(8 * |records[i]|, beams) {
      DatumFlag(records[i], beams, k);
    }
  }

  /** Where the counter wraps: after a first record of 65532 bytes the second is
      read at offset 0 again, so it repeats the first. */
  lemma SecondRecordRepeatsFirst(d: Bytes, n: nat, beams: uint16)
    requires n >= 2 && Readable(d, 0, n, beams) && SizeAt(d, 0) == 65532
    ensures Decode(d, 0, n, beams)[1] == Decode(d, 0, n, beams)[0]
  {
    assert Advance(Advance(0, 4), 65532) == 0;
    assert Decode(d, 0, n, beams)[1..] == Decode(d, 0, n - 1, beams);
  }

  /** So a block that starts with such a record and goes on with one of another size is decoded wrongly. */
  lemma WrappedBlockFails(records: seq<Bytes>, after: Bytes, beams: uint16)
    requires Small(records) && |records| >= 2 && |records[0]| == 65532 && |records[1]| != 65532
    ensures !RoundTrips(records, after, beams)
  {
    if RoundTrips(records, after, beams) {
      var d := Layout(records) + after;
      DatumsAt(records, beams, 0);
      DatumsAt(records, beams, 1);
      assert SizeAt(d, 0) == Decode(d, 0, |records|, beams)[0].size;
      SecondRecordRepeatsFirst(d, |records|, beams);
      assert false;
    }
  }

  // ---- Flag vectors ----

  function Packed(vectors: seq<seq<bool>>): (records: seq<Bytes>)
    ensures |records| == |vectors| && forall i :: 0 <= i < |records| ==> records[i] == PackBytes(vectors[i])
  {
    seq(|vectors|, i requires 0 <= i < |vectors| => PackBytes(vectors[i]))
  }

  lemma {:induction false} StartOfUniform(records: seq<Bytes>, size: nat, i: nat)
    requires i <= |records| && forall j :: 0 <= j < |records| ==> |records[j]| == size
    ensures StartOf(records, i) == i * (4 + size)
  {
    if i > 0 {
      StartOfUniform(records, size, i - 1);
    }
  }

  lemma PackedInReach(vectors: seq<seq<bool>>, beams: uint16)
    requires |vectors| == RECORDS && forall v | v in vectors :: |v| == beams
    requires RECORDS * (4 + (beams + 7) / 8) < 0x1_0000
    ensures Small(Packed(vectors)) && InReach(Packed(vectors), beams)
  {
    var records, size := Packed(vectors), (beams + 7) / 8;
    forall j | 0 <= j < RECORDS ensures |records[j]| == size {
      assert vectors[j] in vectors;
    }
    LayoutLength(records);
    StartOfUniform(records, size, RECORDS);
    ShortBlockInReach(records, beams);
  }

  /** 24 vectors of one flag a beam, packed into records, are what the block
      decodes to, as long as the packed block ends below 65536. */
  lemma FlagVectorsRoundTrip(vectors: seq<seq<bool>>, after: Bytes, beams: uint16, i: nat)
    requires |vectors| == RECORDS && i < RECORDS && forall v | v in vectors :: |v| == beams
    requires RECORDS * (4 + (beams + 7) / 8) < 0x1_0000
    ensures Small(Packed(vectors)) && Readable(Layout(Packed(vectors)) + after, 0, RECORDS, beams)
    ensures Decode(Layout(Packed(vectors)) + after, 0, RECORDS, beams)[i].flags == vectors[i]
  {
    PackedInReach(vectors, beams);
    InReachIff(Packed(vectors), beams);
    RecoverableRoundTrips(Packed(vectors), after, beams);
    DatumsAt(Packed(vectors), beams, i);
    assert vectors[i] in vectors;
    assert FlagCount(|PackBytes(vectors[i])|, beams) == beams;
    PackedFlags(vectors[i]);
  }
}
