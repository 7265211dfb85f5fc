/** The intrusion block: 24 records of variable length, each a size and that
    many bytes of flags. */
module IntrusionData {
  import opened ReadWriteHelper
  import opened BitFlags

  const RECORDS := 24

  datatype IntrusionDatum = IntrusionDatum(size: int32, flags: seq<bool>)

  function Min(a: nat, b: nat): nat {
    if a <= b then a else b
  }

  /** A negative size counts as no bytes. */
  function ByteCount(size: int32): nat {
    if size < 0 then 0 else size
  }

  /** Flags read: eight a byte, no more than there are beams. */
  function FlagCount(size: int32, beams: uint16): nat {
    Min(8 * ByteCount(size), beams)
  }

  function SizeAt(d: Bytes, offset: nat): int32
    requires offset + 4 <= |d|
  {
    ToInt32(ReadUint32LittleEndian(d, offset))
  }

  /** The offset is a 16-bit counter. */
  function Advance(offset: uint16, step: int): uint16 {
    (offset + step) % 0x1_0000
  }

  /** Every byte the next `n` records look at lies in the buffer. */
  predicate Readable(d: Bytes, offset: uint16, n: nat, beams: uint16)
    decreases n, d
  {
    n == 0 ||
    (&& offset + 4 <= |d|
     && var size, payload := SizeAt(d, offset), Advance(offset, 4);
        && Holds(d, payload, FlagCount(size, beams))
        && Readable(d, Advance(payload, size), n - 1, beams))
  }

  function Decode(d: Bytes, offset: uint16, n: nat, beams: uint16): (datums: seq<IntrusionDatum>)
    requires Readable(d, offset, n, beams)
    ensures |datums| == n
    decreases n, d
  {
    if n == 0 then []
    else
      var size, payload := SizeAt(d, offset), Advance(offset, 4);
      [IntrusionDatum(size, Flags(d, payload, FlagCount(size, beams)))]
      + Decode(d, Advance(payload, size), n - 1, beams)
  }

  lemma DecodeNext(d: Bytes, offset: uint16, n: nat, beams: uint16, done: seq<IntrusionDatum>, all: seq<IntrusionDatum>)
    requires n > 0 && Readable(d, offset, n, beams) && all == done + Decode(d, offset, n, beams)
    ensures offset + 4 <= |d|
    ensures var size, payload := SizeAt(d, offset), Advance(offset, 4);
            && Holds(d, payload, FlagCount(size, beams))
            && Readable(d, Advance(payload, size), n - 1, beams)
            && all == done + [IntrusionDatum(size, Flags(d, payload, FlagCount(size, beams)))]
                    + Decode(d, Advance(payload, size), n - 1, beams)
  {
  }

  /** While flags are missing, every byte so far has given eight, and one more is there. */
  lemma NextByte(bytes: nat, size: int32, beams: uint16)
    requires bytes < size && Min(8 * bytes, beams) < beams
    ensures Min(8 * bytes, beams) == 8 * bytes < FlagCount(size, beams)
  {
  }

  /** A byte is left when it is used up or all flags are read; that takes at most 8192 bytes. */
  lemma ByteRead(bytes: nat, bits: nat, size: int32, beams: uint16)
    requires bytes < size && bits <= 8 && 8 * bytes < beams && 8 * bytes + bits <= beams
    requires bits == 8 || 8 * bytes + bits == beams
    ensures 8 * bytes + bits == Min(8 * (bytes + 1), beams) <= FlagCount(size, beams)
    ensures (bytes + 1) % 0x1_0000 == bytes + 1 <= 8192
  {
  }

  class ParseIntrusionData {
    var numScanPoints: uint16

    /** The field is not initialised. */
    constructor () {
    }

    method SetNumScanPoints(n: uint16)
      modifies this
      ensures numScanPoints == n
    {
      numScanPoints := n;
    }

    /** `d` is the buffer from the start of the block on. */
    method SetDataInIntrusionDatums(d: Bytes) returns (datums: seq<IntrusionDatum>)
      requires Readable(d, 0, RECORDS, numScanPoints)
      ensures datums == Decode(d, 0, RECORDS, numScanPoints)
    {
      datums := [];
      var offset: uint16 := 0;
      ghost var all := Decode(d, 0, RECORDS, numScanPoints);
      for i := 0 to RECORDS
        invariant Readable(d, offset, RECORDS - i, numScanPoints)
        invariant all == datums + Decode(d, offset, RECORDS - i, numScanPoints)
      {
        DecodeNext(d, offset, RECORDS - i, numScanPoints, datums, all);
        var size := SizeAt(d, offset);
        offset := Advance(offset, 4);
        var flags := SetFlagsInIntrusionDatum(d, offset, size);
        offset := Advance(offset, size);
        datums := datums + [IntrusionDatum(size, flags)];
      }
    }

    /** Two nested loops over a signed size; however large it is, the 16-bit byte
        counter stays at or below 8192 and never wraps. */
    method SetFlagsInIntrusionDatum(d: Bytes, offset: uint16, size: int32) returns (flags: seq<bool>)
      requires Holds(d, offset, FlagCount(size, numScanPoints))
      ensures flags == Flags(d, offset, FlagCount(size, numScanPoints))
    {
      var numReadFlags: uint32 := 0;
      var numReadBytes: uint16 := 0;
      flags := [];
      while numReadBytes < size && numReadFlags < numScanPoints
        invariant numReadBytes <= 8192 && numReadFlags == Min(8 * numReadBytes, numScanPoints)
        invariant numReadFlags <= FlagCount(size, numScanPoints)
        invariant flags == Flags(d, offset, numReadFlags)
        decreases numScanPoints - numReadFlags
      {
        NextByte(numReadBytes, size, numScanPoints);
        var bitset := d[offset + numReadBytes];
        FlagsToIsFlags(d, offset, numReadBytes, 0);
        var iBit := 0;
        while iBit < 8 && numReadFlags < numScanPoints
          invariant 0 <= iBit <= 8 && numReadFlags == 8 * numReadBytes + iBit <= numScanPoints
          invariant flags == FlagsTo(d, offset, numReadBytes, iBit)
          decreases 8 - iBit
        {
          flags := flags + [Bit(bitset, iBit)];
          iBit := iBit + 1;
          numReadFlags := numReadFlags + 1;
        }
        FlagsToIsFlags(d, offset, numReadBytes, iBit);
        ByteRead(numReadBytes, iBit, size, numScanPoints);
        numReadBytes := (numReadBytes + 1) % 0x1_0000;
      }
    }
  }

  // ---- The three unpackers compute one function ----

  /** Reading 20 flags as an intrusion record of three or more bytes gives what
      the word-shift and the three-byte loops give at the same place. */
  lemma UnpackersAgree(d: Bytes, at: nat, size: int32)
    requires at + 4 <= |d| && size >= 3
    ensures Flags(d, at, FlagCount(size, 20)) == Flags(d, at, 20) == WordFlags(ReadUint32LittleEndian(d, at), 20)
  {
    WordFlagsAreFlags(d, at, 20);
  }
}
