/** Single bits of bytes and words, and the loops that unpack them into flags. */
module BitFlags {
  import opened ReadWriteHelper

  /** Bit `i`: shift right `i` times and look at the lowest bit. */
  predicate Bit(n: nat, i: nat) {
    if i == 0 then n % 2 == 1 else Bit(n / 2, i - 1)
  }

  function Pow2(i: nat): (p: nat)
    ensures p > 0
  {
    if i == 0 then 1 else 2 * Pow2(i - 1)
  }

  /** Below bit `m` a number shows its lower part, from there on its upper part. */
  lemma {:induction false} BitOfParts(lo: nat, m: nat, hi: nat, i: nat)
    requires lo < Pow2(m)
    ensures Bit(lo + Pow2(m) * hi, i) == if i < m then Bit(lo, i) else Bit(hi, i - m)
    decreases m
  {
    if m > 0 {
      var p := Pow2(m - 1) * hi;
      assert lo + Pow2(m) * hi == lo + 2 * p;
      assert (lo + 2 * p) / 2 == lo / 2 + p && (lo + 2 * p) % 2 == lo % 2;
      if i > 0 {
        BitOfParts(lo / 2, m - 1, hi, i - 1);
      }
    }
  }

  lemma BitOfBytes(lo: uint8, hi: nat, i: nat)
    ensures Bit(lo + 0x100 * hi, i) == if i < 8 then Bit(lo, i) else Bit(hi, i - 8)
  {
    assert Pow2(8) == 0x100;
    BitOfParts(lo, 8, hi, i);
  }

  /** The flags of `bytes` whole bytes from `at` on and of the lowest `bits` bits
      of the next, lowest bit of the first byte first. */
  function FlagsTo(d: Bytes, at: nat, bytes: nat, bits: nat): (flags: seq<bool>)
    requires bits <= 8 && at + bytes <= |d| && (bits > 0 ==> at + bytes < |d|)
    ensures |flags| == 8 * bytes + bits
    decreases bytes, bits, d
  {
    if bits > 0 then FlagsTo(d, at, bytes, bits - 1) + [Bit(d[at + bytes], bits - 1)]
    else if bytes > 0 then FlagsTo(d, at, bytes - 1, 8)
    else []
  }

  /** The bytes from `at` on hold at least `count` bits. */
  predicate Holds(d: Bytes, at: nat, count: nat) {
    at <= |d| && count <= 8 * (|d| - at)
  }

  /** The first `count` flags of the bytes at `at`. */
  function Flags(d: Bytes, at: nat, count: nat): (flags: seq<bool>)
    requires Holds(d, at, count)
    ensures |flags| == count
  {
    FlagsTo(d, at, count / 8, count % 8)
  }

  lemma SplitCount(bytes: nat, bits: nat)
    requires bits <= 8
    ensures bits < 8 ==> (8 * bytes + bits) / 8 == bytes && (8 * bytes + bits) % 8 == bits
    ensures bits == 8 ==> (8 * bytes + bits) / 8 == bytes + 1 && (8 * bytes + bits) % 8 == 0
  {
  }

  lemma FlagsToIsFlags(d: Bytes, at: nat, bytes: nat, bits: nat)
    requires bits <= 8 && at + bytes <= |d| && (bits > 0 ==> at + bytes < |d|)
    ensures FlagsTo(d, at, bytes, bits) == Flags(d, at, 8 * bytes + bits)
  {
    SplitCount(bytes, bits);
  }

  lemma {:induction false} FlagToAt(d: Bytes, at: nat, bytes: nat, bits: nat, byte: nat, bit: nat)
    requires bits <= 8 && at + bytes <= |d| && (bits > 0 ==> at + bytes < |d|)
    requires bit < 8 && 8 * byte + bit < 8 * bytes + bits
    ensures at + byte < |d| && FlagsTo(d, at, bytes, bits)[8 * byte + bit] == Bit(d[at + byte], bit)
    decreases bytes, bits
  {
    if bits == 0 {
      FlagToAt(d, at, bytes - 1, 8, byte, bit);
    } else if 8 * byte + bit < 8 * bytes + bits - 1 {
      FlagToAt(d, at, bytes, bits - 1, byte, bit);
    }
  }

  /** Flag `k` is bit `k % 8` of byte `k / 8`. */
  lemma FlagAt(d: Bytes, at: nat, count: nat, k: nat)
    requires Holds(d, at, count) && k < count
    ensures at + k / 8 < |d| && Flags(d, at, count)[k] == Bit(d[at + k / 8], k % 8)
  {
    FlagToAt(d, at, count / 8, count % 8, k / 8, k % 8);
  }

  /** Flags depend on nothing but the bytes they are read from. */
  lemma {:induction false} SameFlagsTo(d: Bytes, at: nat, e: Bytes, bytes: nat, bits: nat)
    requires at + |e| <= |d| && d[at..at + |e|] == e
    requires bits <= 8 && bytes <= |e| && (bits > 0 ==> bytes < |e|)
    ensures FlagsTo(d, at, bytes, bits) == FlagsTo(e, 0, bytes, bits)
    decreases bytes, bits
  {
    if bits > 0 {
      assert d[at..at + |e|][bytes] == d[at + bytes];
      SameFlagsTo(d, at, e, bytes, bits - 1);
    } else if bytes > 0 {
      SameFlagsTo(d, at, e, bytes - 1, 8);
    }
  }

  lemma SameFlags(d: Bytes, at: nat, e: Bytes, count: nat)
    requires at + |e| <= |d| && d[at..at + |e|] == e && Holds(e, 0, count)
    ensures Flags(d, at, count) == Flags(e, 0, count)
  {
    SameFlagsTo(d, at, e, count / 8, count % 8);
  }

  function WordFlags(word: uint32, count: nat): (flags: seq<bool>)
    ensures |flags| == count
  {
    if count == 0 then [] else WordFlags(word, count - 1) + [Bit(word, count - 1)]
  }

  lemma {:induction false} WordFlagAt(word: uint32, count: nat, k: nat)
    requires k < count
    ensures WordFlags(word, count)[k] == Bit(word, k)
  {
    if k < count - 1 {
      WordFlagAt(word, count - 1, k);
    }
  }

  lemma BitOfWord(b3: uint8, b2: uint8, b1: uint8, b0: uint8, byte: nat, bit: nat)
    requires byte < 4 && bit < 8
    ensures Bit(Word32(b3, b2, b1, b0), 8 * byte + bit) == Bit([b0, b1, b2, b3][byte], bit)
  {
    var k := 8 * byte + bit;
    var w2: nat := b2 + 0x100 * b3;
    var w1: nat := b1 + 0x100 * w2;
    assert Word32(b3, b2, b1, b0) == b0 + 0x100 * w1;
    BitOfBytes(b0, w1, k);
    if k >= 8 {
      BitOfBytes(b1, w2, k - 8);
      if k >= 16 {
        BitOfBytes(b2, b3, k - 16);
      }
    }
  }

  /** Shifting through a little-endian word visits the bits of its bytes in order. */
  lemma WordFlagsAreFlags(d: Bytes, at: nat, count: nat)
    requires at + 4 <= |d| && count <= 32
    ensures WordFlags(ReadUint32LittleEndian(d, at), count) == Flags(d, at, count)
  {
    var word := ReadUint32LittleEndian(d, at);
    forall k | 0 <= k < count ensures WordFlags(word, count)[k] == Flags(d, at, count)[k] {
      WordFlagAt(word, count, k);
      FlagAt(d, at, count, k);
      BitOfWord(d[at + 3], d[at + 2], d[at + 1], d[at], k / 8, k % 8);
    }
  }

  /** The word-shift loop of the application data parser. */
  method UnpackWord(d: Bytes, at: nat, count: nat) returns (flags: seq<bool>)
    requires at + 4 <= |d| && count <= 32
    ensures flags == Flags(d, at, count)
  {
    var word := ReadUint32LittleEndian(d, at);
    flags := [];
    for i := 0 to count
      invariant flags == WordFlags(word, i)
    {
      flags := flags + [Bit(word, i)];
    }
    WordFlagsAreFlags(d, at, count);
  }

  /** The three-byte loop of the system state parser, which breaks off after 20 flags. */
  method UnpackCutOffPath(d: Bytes, at: nat) returns (flags: seq<bool>)
    requires at + 3 <= |d|
    ensures flags == Flags(d, at, 20)
  {
    flags := [];
    for i := 0 to 3
      invariant flags == if i == 3 then FlagsTo(d, at, 2, 4) else FlagsTo(d, at, i, 0)
    {
      var byte := d[at + i];
      var j := 0;
      while j < 8
        invariant 0 <= j <= 8 && (i == 2 ==> j <= 4)
        invariant flags == FlagsTo(d, at, i, j)
      {
        if i == 2 && j > 3 {
          break;
        }
        flags := flags + [Bit(byte, j)];
        j := j + 1;
      }
    }
  }

  // ---- Packing, the inverse ----

  /** Flags as a number, the first in its lowest bit. */
  function Pack(flags: seq<bool>): nat {
    if flags == [] then 0 else (if flags[0] then 1 else 0) + 2 * Pack(flags[1..])
  }

  lemma HalfPack(flags: seq<bool>)
    requires flags != []
    ensures Pack(flags) / 2 == Pack(flags[1..]) && Pack(flags) % 2 == if flags[0] then 1 else 0
  {
  }

  /** Bit `i` of packed flags is flag `i`. */
  lemma {:induction false} PackedBit(flags: seq<bool>, i: nat)
    requires i < |flags|
    ensures Bit(Pack(flags), i) == flags[i]
  {
    HalfPack(flags);
    if i > 0 {
      PackedBit(flags[1..], i - 1);
    }
  }

  lemma {:induction false} PackBound(flags: seq<bool>)
    ensures Pack(flags) < Pow2(|flags|)
  {
    if flags != [] {
      PackBound(flags[1..]);
    }
  }

  lemma PackByteBound(flags: seq<bool>)
    requires |flags| <= 8
    ensures Pack(flags) < 0x100
  {
    PackBound(flags);
    PowGrows(|flags|, 8);
    assert Pow2(8) == 0x100;
  }

  lemma {:induction false} PowGrows(i: nat, j: nat)
    requires i <= j
    ensures Pow2(i) <= Pow2(j)
  {
    if i < j {
      PowGrows(i, j - 1);
    }
  }

  /** Eight flags to a byte, the last byte filled up with zeros. */
  function PackBytes(flags: seq<bool>): (d: Bytes)
    ensures |d| == (|flags| + 7) / 8
  {
    PackByteBound(if |flags| < 8 then flags else flags[..8]);
    if flags == [] then [] else if |flags| < 8 then [Pack(flags)] else [Pack(flags[..8])] + PackBytes(flags[8..])
  }

  lemma {:induction false} PackedFlagAt(flags: seq<bool>, k: nat)
    requires k < |flags|
    ensures k / 8 < |PackBytes(flags)| && Bit(PackBytes(flags)[k / 8], k % 8) == flags[k]
  {
    if |flags| < 8 {
      PackedBit(flags, k);
    } else if k < 8 {
      PackedBit(flags[..8], k);
    } else {
      PackedFlagAt(flags[8..], k - 8);
    }
  }

  /** Unpacking gives back the flags that were packed. */
  lemma PackedFlags(flags: seq<bool>)
    ensures Holds(PackBytes(flags), 0, |flags|) && Flags(PackBytes(flags), 0, |flags|) == flags
  {
    forall k | 0 <= k < |flags| ensures Flags(PackBytes(flags), 0, |flags|)[k] == flags[k] {
      FlagAt(PackBytes(flags), 0, |flags|, k);
      PackedFlagAt(flags, k);
    }
  }
}
