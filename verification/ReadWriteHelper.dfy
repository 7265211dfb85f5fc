/** Fixed-width integers, byte buffers, and the endian readers and writers that
    every parser and printer of the driver is built on. */
module ReadWriteHelper {

  type uint8 = x: int | 0 <= x < 0x100
  type uint16 = x: int | 0 <= x < 0x1_0000
  type uint32 = x: int | 0 <= x < 0x1_0000_0000
  type int16 = x: int | -0x8000 <= x < 0x8000
  type int32 = x: int | -0x8000_0000 <= x < 0x8000_0000

  type Bytes = seq<uint8>

  datatype Option<+T> = None | Some(value: T) {
    function GetOr(default: T): T {
      match this
      case Some(v) => v
      case None => default
    }

    predicate IsFailure() {
      None?
    }

    function PropagateFailure<U>(): Option<U>
      requires None?
    {
      None
    }

    function Extract(): T
      requires Some?
    {
      value
    }
  }

  // Two's complement, the meaning of the conversions between int32_t and uint32_t.

  function ToUint32(v: int32): uint32 {
    if v < 0 then v + 0x1_0000_0000 else v
  }

  function ToInt32(v: uint32): int32 {
    if v < 0x8000_0000 then v else v - 0x1_0000_0000
  }

  function ToInt16(v: uint16): int16 {
    if v < 0x8000 then v else v - 0x1_0000
  }

  // What the writers store.

  function EncodeUint16BigEndian(v: uint16): (s: Bytes)
    ensures |s| == 2
  {
    [v / 0x100, v % 0x100]
  }

  function EncodeUint16LittleEndian(v: uint16): (s: Bytes)
    ensures |s| == 2
  {
    [v % 0x100, v / 0x100]
  }

  function EncodeUint32BigEndian(v: uint32): (s: Bytes)
    ensures |s| == 4
  {
    [v / 0x100_0000, v / 0x1_0000 % 0x100, v / 0x100 % 0x100, v % 0x100]
  }

  function EncodeUint32LittleEndian(v: uint32): (s: Bytes)
    ensures |s| == 4
  {
    [v % 0x100, v / 0x100 % 0x100, v / 0x1_0000 % 0x100, v / 0x100_0000]
  }

  function EncodeInt32LittleEndian(v: int32): (s: Bytes)
    ensures |s| == 4
  {
    EncodeUint32LittleEndian(ToUint32(v))
  }

  // The words with the given bytes, most significant byte first.

  function Word16(hi: int, lo: int): uint16
    requires 0 <= hi < 0x100 && 0 <= lo < 0x100
  {
    hi * 0x100 + lo
  }

  function Word32(b3: int, b2: int, b1: int, b0: int): uint32
    requires 0 <= b3 < 0x100 && 0 <= b2 < 0x100 && 0 <= b1 < 0x100 && 0 <= b0 < 0x100
  {
    b3 * 0x100_0000 + b2 * 0x1_0000 + b1 * 0x100 + b0
  }

  lemma Word32Digits(b3: uint8, b2: uint8, b1: uint8, b0: uint8, v: uint32)
    ensures Word32(b3, b2, b1, b0) == v <==>
            b3 == v / 0x100_0000 && b2 == v / 0x1_0000 % 0x100 && b1 == v / 0x100 % 0x100 && b0 == v % 0x100
  {
    var q1 := v / 0x100;
    var q2 := q1 / 0x100;
    DivideTwice(v);
    DivideThrice(v);
    assert v / 0x1_0000 == q2 && v / 0x100_0000 == q2 / 0x100;
    LastDigit(b3 * 0x1_0000 + b2 * 0x100 + b1, b0, v);
    LastDigit(b3 * 0x100 + b2, b1, q1);
    LastDigit(b3, b2, q2);
  }

  lemma DivideTwice(v: nat)
    ensures v / 0x1_0000 == v / 0x100 / 0x100
  {
  }

  lemma DivideThrice(v: nat)
    ensures v / 0x100_0000 == v / 0x1_0000 / 0x100
  {
  }

  lemma LastDigit(hi: int, lo: uint8, v: int)
    ensures hi * 0x100 + lo == v <==> hi == v / 0x100 && lo == v % 0x100
  {
  }

  // Readers. The C++ sums of shifted bytes are taken modulo the width of the result.

  function ReadUint16BigEndian(d: Bytes, at: nat): uint16
    requires at + 2 <= |d|
  {
    Word16(d[at], d[at + 1])
  }

  function ReadUint16LittleEndian(d: Bytes, at: nat): uint16
    requires at + 2 <= |d|
  {
    Word16(d[at + 1], d[at])
  }

  function ReadUint32BigEndian(d: Bytes, at: nat): uint32
    requires at + 4 <= |d|
  {
    Word32(d[at], d[at + 1], d[at + 2], d[at + 3])
  }

  function ReadUint32LittleEndian(d: Bytes, at: nat): uint32
    requires at + 4 <= |d|
  {
    Word32(d[at + 3], d[at + 2], d[at + 1], d[at])
  }

  function ReadInt32LittleEndian(d: Bytes, at: nat): int32
    requires at + 4 <= |d|
  {
    ToInt32(ReadUint32LittleEndian(d, at))
  }

  function ReadInt16LittleEndian(d: Bytes, at: nat): int16
    requires at + 2 <= |d|
  {
    ToInt16(ReadUint16LittleEndian(d, at))
  }

  // Each reader undoes the writer of the same width and byte order, wherever
  // in a buffer the value was stored.

  lemma Uint16BigEndianInverse(d: Bytes, at: nat, v: uint16)
    requires at + 2 <= |d|
    ensures d[at..at + 2] == EncodeUint16BigEndian(v) <==> ReadUint16BigEndian(d, at) == v
  {
    assert d[at..at + 2] == [d[at], d[at + 1]];
  }

  lemma Uint16LittleEndianInverse(d: Bytes, at: nat, v: uint16)
    requires at + 2 <= |d|
    ensures d[at..at + 2] == EncodeUint16LittleEndian(v) <==> ReadUint16LittleEndian(d, at) == v
  {
    assert d[at..at + 2] == [d[at], d[at + 1]];
  }

  lemma Uint32BigEndianInverse(d: Bytes, at: nat, v: uint32)
    requires at + 4 <= |d|
    ensures d[at..at + 4] == EncodeUint32BigEndian(v) <==> ReadUint32BigEndian(d, at) == v
  {
    assert d[at..at + 4] == [d[at], d[at + 1], d[at + 2], d[at + 3]];
    Word32Digits(d[at], d[at + 1], d[at + 2], d[at + 3], v);
  }

  lemma Uint32LittleEndianInverse(d: Bytes, at: nat, v: uint32)
    requires at + 4 <= |d|
    ensures d[at..at + 4] == EncodeUint32LittleEndian(v) <==> ReadUint32LittleEndian(d, at) == v
  {
    assert d[at..at + 4] == [d[at], d[at + 1], d[at + 2], d[at + 3]];
    Word32Digits(d[at + 3], d[at + 2], d[at + 1], d[at], v);
  }

  lemma Int32LittleEndianInverse(d: Bytes, at: nat, v: int32)
    requires at + 4 <= |d|
    ensures d[at..at + 4] == EncodeInt32LittleEndian(v) <==> ReadInt32LittleEndian(d, at) == v
  {
    Uint32LittleEndianInverse(d, at, ToUint32(v));
  }

  /** Big-endian is most significant byte first, little-endian least significant first. */
  lemma ByteOrder(v16: uint16, v32: uint32)
    ensures var b: seq<int> := EncodeUint16BigEndian(v16); v16 == b[0] * 256 + b[1]
    ensures var b: seq<int> := EncodeUint16LittleEndian(v16); v16 == b[0] + b[1] * 256
    ensures var b: seq<int> := EncodeUint32BigEndian(v32); v32 == b[0] * 16777216 + b[1] * 65536 + b[2] * 256 + b[3]
    ensures var b: seq<int> := EncodeUint32LittleEndian(v32); v32 == b[0] + b[1] * 256 + b[2] * 65536 + b[3] * 16777216
  {
    Word32Digits(v32 / 0x100_0000, v32 / 0x1_0000 % 0x100, v32 / 0x100 % 0x100, v32 % 0x100, v32);
  }

  /** A buffer with the bytes from `at` on replaced by `e`. */
  function Overwrite(s: Bytes, at: nat, e: Bytes): (r: Bytes)
    requires at + |e| <= |s|
    ensures |r| == |s|
  {
    s[..at] + e + s[at + |e|..]
  }

  function Zeros(n: nat): (z: Bytes)
    ensures |z| == n
  {
    seq(n, _ => 0)
  }

  /** Writing right behind what is already written, in a buffer still zero from there on. */
  lemma OverwriteNext(done: Bytes, n: nat, e: Bytes)
    requires |e| <= n
    ensures Overwrite(done + Zeros(n), |done|, e) == done + e + Zeros(n - |e|)
  {
  }

  /** The same whatever the buffer `b` held from there on. */
  lemma WriteNext(done: Bytes, b: Bytes, at: nat, e: Bytes)
    requires at == |done| && at + |e| <= |b|
    ensures Overwrite(done + b[at..], at, e) == done + e + b[at + |e|..]
  {
    assert b[at..][|e|..] == b[at + |e|..];
    assert (done + b[at..])[at + |e|..] == b[at..][|e|..];
  }

  lemma SkipZeros(done: Bytes, n: nat, k: nat)
    requires k <= n
    ensures done + Zeros(n) == done + Zeros(k) + Zeros(n - k)
  {
  }

  lemma Associative<T>(a: seq<T>, b: seq<T>, c: seq<T>)
    ensures a + (b + c) == a + b + c
  {
  }

  /** A prefix does not move what is read behind it, or in front of what follows. */
  lemma SkipPrefix(h: Bytes, payload: Bytes, k: nat)
    requires k <= |payload|
    ensures (h + payload)[|h| + k..] == payload[k..]
    ensures forall i :: 0 <= i < |h| ==> (h + payload)[i] == h[i]
  {
  }

  // Writers. `a` holds the whole buffer, `at` is the iterator's position in it.

  method WriteUint8(a: array<uint8>, at: nat, v: uint8)
    requires at < a.Length
    modifies a
    ensures a[..] == Overwrite(old(a[..]), at, [v])
  {
    a[at] := v;
  }

  method WriteUint16BigEndian(a: array<uint8>, at: nat, v: uint16)
    requires at + 2 <= a.Length
    modifies a
    ensures a[..] == Overwrite(old(a[..]), at, EncodeUint16BigEndian(v))
  {
    a[at] := v / 0x100;
    a[at + 1] := v % 0x100;
  }

  method WriteUint16LittleEndian(a: array<uint8>, at: nat, v: uint16)
    requires at + 2 <= a.Length
    modifies a
    ensures a[..] == Overwrite(old(a[..]), at, EncodeUint16LittleEndian(v))
  {
    a[at] := v % 0x100;
    a[at + 1] := v / 0x100;
  }

  method WriteUint32BigEndian(a: array<uint8>, at: nat, v: uint32)
    requires at + 4 <= a.Length
    modifies a
    ensures a[..] == Overwrite(old(a[..]), at, EncodeUint32BigEndian(v))
  {
    a[at] := v / 0x100_0000;
    a[at + 1] := v / 0x1_0000 % 0x100;
    a[at + 2] := v / 0x100 % 0x100;
    a[at + 3] := v % 0x100;
  }

  method WriteUint32LittleEndian(a: array<uint8>, at: nat, v: uint32)
    requires at + 4 <= a.Length
    modifies a
    ensures a[..] == Overwrite(old(a[..]), at, EncodeUint32LittleEndian(v))
  {
    a[at + 3] := v / 0x100_0000;
    a[at + 2] := v / 0x1_0000 % 0x100;
    a[at + 1] := v / 0x100 % 0x100;
    a[at] := v % 0x100;
  }

  method WriteInt32LittleEndian(a: array<uint8>, at: nat, v: int32)
    requires at + 4 <= a.Length
    modifies a
    ensures a[..] == Overwrite(old(a[..]), at, EncodeInt32LittleEndian(v))
  {
    var u := ToUint32(v);
    a[at + 3] := u / 0x100_0000;
    a[at + 2] := u / 0x1_0000 % 0x100;
    a[at + 1] := u / 0x100 % 0x100;
    a[at] := u % 0x100;
  }

  /** Byte buffers joined in order. */
  function Concat(chunks: seq<Bytes>): Bytes {
    if chunks == [] then [] else Concat(chunks[..|chunks| - 1]) + chunks[|chunks| - 1]
  }

  lemma ConcatSnoc(chunks: seq<Bytes>, c: Bytes)
    ensures Concat(chunks + [c]) == Concat(chunks) + c
  {
    var all := chunks + [c];
    assert all[..|all| - 1] == chunks;
  }
}
