/** Streams as a sensor sends them: payloads cut into datagrams on the wire, and
    a sort that meets what the merger asks of its sorting algorithm. */
module Fragmentation {
  import opened ReadWriteHelper
  import opened UDPPacketMerger
  import opened UDPReassembly
  import opened MeasurementStream

  /** The bytes of a datagram that the merger never looks at. */
  datatype Unread = Unread(marker: Bytes, spare: Bytes) {
    predicate Fits() {
      |marker| == 8 && |spare| == 4
    }
  }

  function Datagram(u: Unread, id: uint32, total: uint32, offset: uint32, piece: Bytes): Packet
    requires u.Fits()
  {
    u.marker + EncodeUint32LittleEndian(total) + EncodeUint32LittleEndian(id) + EncodeUint32LittleEndian(offset)
    + u.spare + piece
  }

  lemma DatagramParses(u: Unread, id: uint32, total: uint32, offset: uint32, piece: Bytes)
    requires u.Fits()
    ensures var f := Parsed(Datagram(u, id, total, offset, piece));
            Id(f) == id && Total(f) == total && Offset(f) == offset && Payload(f) == piece
  {
    var d := Datagram(u, id, total, offset, piece);
    assert d[8..12] == EncodeUint32LittleEndian(total);
    assert d[12..16] == EncodeUint32LittleEndian(id);
    assert d[16..20] == EncodeUint32LittleEndian(offset);
    Uint32LittleEndianInverse(d, 8, total);
    Uint32LittleEndianInverse(d, 12, id);
    Uint32LittleEndianInverse(d, 16, offset);
  }

  /** The first eight bytes are the marker, the protocol and the two version numbers. */
  lemma MarkerIff(d: Packet, marker: uint32, protocol: uint16, major: uint8, minor: uint8)
    ensures d[0..4] == EncodeUint32BigEndian(marker) && d[4..6] == EncodeUint16BigEndian(protocol) && d[6] == major && d[7] == minor
       <==> var h := ParseDatagramHeader(d);
            h.datagramMarker == marker && h.protocol == protocol && h.majorVersion == major && h.minorVersion == minor
  {
    Uint32BigEndianInverse(d, 0, marker);
    Uint16BigEndianInverse(d, 4, protocol);
  }

  ghost predicate AllFit(us: seq<Unread>, pieces: seq<Bytes>) {
    |us| == |pieces| && forall i :: 0 <= i < |us| ==> us[i].Fits()
  }

  /** The datagrams of consecutive pieces of a payload of `total` bytes. */
  function Cut(us: seq<Unread>, id: uint32, total: uint32, pieces: seq<Bytes>): seq<Fragment>
    requires AllFit(us, pieces) && |Concat(pieces)| <= total
  {
    if pieces == [] then []
    else
      var n := |pieces| - 1;
      Cut(us[..n], id, total, pieces[..n]) + [Parsed(Datagram(us[n], id, total, |Concat(pieces[..n])|, pieces[n]))]
  }

  ghost predicate SoundPieces(v: seq<Fragment>, id: uint32, total: uint32) {
    forall i :: 0 <= i < |v| ==>
      && Id(v[i]) == id && Total(v[i]) == total
      && Payload(v[i]) != [] && Offset(v[i]) == |Join(v[..i])|
  }

  lemma SoundPiecesStep(v: seq<Fragment>, id: uint32, total: uint32, f: Fragment)
    requires SoundPieces(v, id, total)
    requires Id(f) == id && Total(f) == total && Payload(f) != [] && Offset(f) == |Join(v)|
    ensures SoundPieces(v + [f], id, total)
    ensures Join(v + [f]) == Join(v) + Payload(f)
  {
    var w := v + [f];
    assert w[..|v|] == v;
    forall i | 0 <= i < |v| ensures w[i] == v[i] && w[..i] == v[..i] {
    }
  }

  lemma {:induction false} CutIsSound(us: seq<Unread>, id: uint32, total: uint32, pieces: seq<Bytes>)
    requires AllFit(us, pieces) && |Concat(pieces)| <= total
    requires forall i :: 0 <= i < |pieces| ==> pieces[i] != []
    ensures var v := Cut(us, id, total, pieces);
            |v| == |pieces| && Join(v) == Concat(pieces) && SoundPieces(v, id, total)
  {
    if pieces != [] {
      var n := |pieces| - 1;
      var w, offset := Cut(us[..n], id, total, pieces[..n]), |Concat(pieces[..n])|;
      CutIsSound(us[..n], id, total, pieces[..n]);
      DatagramParses(us[n], id, total, offset, pieces[n]);
      SoundPiecesStep(w, id, total, Parsed(Datagram(us[n], id, total, offset, pieces[n])));
    }
  }

  /** The datagrams of any payload cut into non-empty pieces form an instance,
      so the whole-run theorem applies to every interleaving of such datagrams. */
  lemma CutIsInstance(us: seq<Unread>, id: uint32, pieces: seq<Bytes>)
    requires AllFit(us, pieces) && pieces != [] && |Concat(pieces)| < 0x1_0000_0000
    requires forall i :: 0 <= i < |pieces| ==> pieces[i] != []
    ensures IsCut(Instance(id, Concat(pieces), Cut(us, id, |Concat(pieces)|, pieces)))
  {
    var total: uint32 := |Concat(pieces)|;
    CutIsSound(us, id, total, pieces);
    var m := Instance(id, Concat(pieces), Cut(us, id, total, pieces));
    forall i | 0 <= i < |m.pieces| ensures IsPiece(m, i) {
    }
  }

  /** Whether the length check would succeed after `before` and then `f` arrived. */
  predicate CompletesAfter(before: seq<Fragment>, f: Fragment) {
    Completes(before + [f], f)
  }

  lemma SmallSum(sofar: nat, total: uint32)
    requires sofar <= total
    ensures sofar % 0x1_0000_0000 == total <==> sofar == total
  {
  }

  /** The merger waits for the last arrival exactly when that piece is not
      empty: an empty piece arriving last comes after the instance was deployed. */
  lemma WaitsForLastIff(before: seq<Fragment>, next: Fragment, last: Fragment, total: uint32)
    requires total == PayloadLength(before + [next]) + |Payload(last)| && Total(next) == total
    ensures !CompletesAfter(before, next) <==> Payload(last) != []
  {
    SmallSum(PayloadLength(before + [next]), total);
  }

  // ---- A sort that meets the merger's demand ----

  function Insert(f: Fragment, v: seq<Fragment>): seq<Fragment> {
    if v == [] || Offset(f) <= Offset(v[0]) then [f] + v else [v[0]] + Insert(f, v[1..])
  }

  function InsertionSort(v: seq<Fragment>): seq<Fragment> {
    if v == [] then [] else Insert(v[0], InsertionSort(v[1..]))
  }

  lemma {:induction false} InsertKeeps(f: Fragment, v: seq<Fragment>)
    ensures multiset(Insert(f, v)) == multiset([f]) + multiset(v)
  {
    if v != [] && Offset(f) > Offset(v[0]) {
      InsertKeeps(f, v[1..]);
      assert v == [v[0]] + v[1..];
    }
  }

  lemma {:induction false} InsertSorts(f: Fragment, v: seq<Fragment>)
    requires SortedByOffset(v)
    ensures SortedByOffset(Insert(f, v))
    ensures forall g | g in Insert(f, v) :: g == f || g in v
  {
    if v != [] && Offset(f) > Offset(v[0]) {
      InsertSorts(f, v[1..]);
      var w := Insert(f, v[1..]);
      forall i | 0 <= i < |w| ensures Offset(v[0]) <= Offset(w[i]) {
        assert w[i] in w;
      }
    }
  }

  lemma {:induction false} InsertionSortSorts(v: seq<Fragment>)
    ensures multiset(InsertionSort(v)) == multiset(v) && SortedByOffset(InsertionSort(v))
  {
    if v != [] {
      InsertionSortSorts(v[1..]);
      InsertKeeps(v[0], InsertionSort(v[1..]));
      InsertSorts(v[0], InsertionSort(v[1..]));
      assert v == [v[0]] + v[1..];
    }
  }

  /** Insertion sort is one of the sorts the merger may be given. */
  lemma SortExists()
    ensures CorrectSort(InsertionSort)
  {
    forall v ensures Sorts(InsertionSort, v) {
      InsertionSortSorts(v);
    }
  }
}
