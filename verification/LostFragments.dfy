/** What fragments left behind by an unfinished instance do to a later instance
    with the same identification. */
module LostFragments {
  import opened ReadWriteHelper
  import opened UDPPacketMerger
  import opened UDPReassembly
  import opened MeasurementStream
  import opened Fragmentation

  /** The list of one identification after more of its fragments, from any list. */
  function FiledAfter(stale: seq<Fragment>, v: seq<Fragment>): seq<Fragment> {
    if v == [] then stale
    else
      var n := |v| - 1;
      var w := FiledAfter(stale, v[..n]) + [v[n]];
      if Completes(w, v[n]) then [] else w
  }

  /** Whatever arrives in between under other identifications. */
  lemma {:induction false} FiledAfterRun(h: seq<Fragment>, g: seq<Fragment>, id: uint32)
    ensures Filed(PendingAfter(h + g), id) == FiledAfter(Filed(PendingAfter(h), id), Project(g, id))
  {
    if g == [] {
      assert h + g == h;
    } else {
      var past, f := g[..|g| - 1], g[|g| - 1];
      assert h + g == h + past + [f];
      FiledAfterRun(h, past, id);
      HistoryStep(v => v, h + past, f);
      NextPendingAt(PendingAfter(h + past), f, id);
    }
  }

  /** The fragments under an identification are what the merger appends to. */
  lemma AppendedAfterRun(h: seq<Fragment>, past: seq<Fragment>, f: Fragment)
    ensures Appended(PendingAfter(h + past), f) == FiledAfter(Filed(PendingAfter(h), Id(f)), Project(past, Id(f))) + [f]
  {
    FiledAfterRun(h, past, Id(f));
  }

  // ---- Lengths along the arrival of one instance ----

  /** Payload bytes of the first `i` fragments. */
  function BytesOf(v: seq<Fragment>, i: nat): nat
    requires i <= |v|
  {
    PayloadLength(v[..i])
  }

  lemma BytesStep(v: seq<Fragment>, i: nat)
    requires i < |v|
    ensures BytesOf(v, i + 1) == BytesOf(v, i) + |Payload(v[i])|
  {
    assert v[..i + 1][..i] == v[..i];
  }

  lemma {:induction false} BytesGrow(v: seq<Fragment>, i: nat, j: nat)
    requires i <= j <= |v| && forall f | f in v :: Payload(f) != []
    ensures BytesOf(v, i) <= BytesOf(v, j)
    ensures i < j ==> BytesOf(v, i) < BytesOf(v, j)
    decreases j
  {
    if i < j {
      BytesStep(v, j - 1);
      BytesGrow(v, i, j - 1);
      assert v[j - 1] in v;
    }
  }

  lemma InstanceBytes(m: Instance, v: seq<Fragment>)
    requires IsCut(m) && multiset(v) == multiset(m.pieces)
    ensures BytesOf(v, |v|) == |m.payload|
    ensures forall f | f in v :: Payload(f) != [] && Total(f) == |m.payload| && Id(f) == m.id
  {
    assert v[..|v|] == v;
    PayloadLengthPermutation(v, m.pieces);
    CutLength(m);
    forall f | f in v ensures Payload(f) != [] && Total(f) == |m.payload| && Id(f) == m.id {
      assert f in multiset(m.pieces);
      PieceProperties(m, f);
    }
  }

  // ---- Stale fragments in front of an instance ----

  lemma AppendNext(stale: seq<Fragment>, v: seq<Fragment>, j: nat)
    requires j < |v|
    ensures stale + v[..j] + [v[j]] == stale + v[..j + 1]
  {
    assert v[..j + 1] == v[..j] + [v[j]];
    Associative(stale, v[..j], [v[j]]);
  }

  lemma {:induction false} LengthAppend(v: seq<Fragment>, w: seq<Fragment>)
    ensures PayloadLength(v + w) == PayloadLength(v) + PayloadLength(w)
  {
    if w == [] {
      assert v + w == v;
    } else {
      var n := |w| - 1;
      LengthAppend(v, w[..n]);
      assert v + w == v + w[..n] + [w[n]];
      PayloadLengthSnoc(v + w[..n], w[n]);
    }
  }

  /** All fragments carry something and announce what they carry together. */
  ghost predicate Arriving(v: seq<Fragment>, total: uint32) {
    && BytesOf(v, |v|) == total
    && forall f | f in v :: Payload(f) != [] && Total(f) == total
  }

  /** Bytes of the stale fragments, as far as the 32-bit counter sees them. */
  function StaleLength(stale: seq<Fragment>): uint32 {
    PayloadLength(stale) % 0x1_0000_0000
  }

  /** The stale bytes and the first `j` fragments have the announced length. */
  predicate AddsUp(stale: nat, v: seq<Fragment>, total: nat, j: nat)
    requires j <= |v|
  {
    stale + BytesOf(v, j) == total
  }

  /** The list before fragment `j`: stale fragments and all pieces so far, or, once
      their lengths happened to add up at fragment `i`, only the pieces since. */
  ghost predicate ListAt(stale: seq<Fragment>, v: seq<Fragment>, total: uint32, j: nat, i: nat, filed: seq<Fragment>)
    requires j <= |v|
  {
    i <= j &&
    if i == 0 then filed == stale + v[..j] && forall k :: 0 < k <= j ==> !AddsUp(StaleLength(stale), v, total, k)
    else AddsUp(StaleLength(stale), v, total, i) && PayloadLength(filed) == BytesOf(v, j) - BytesOf(v, i)
  }

  /** The length of the list that fragment `j` joins. */
  lemma LengthAt(stale: seq<Fragment>, v: seq<Fragment>, total: uint32, j: nat, i: nat, filed: seq<Fragment>)
    requires j < |v| && ListAt(stale, v, total, j, i, filed)
    ensures PayloadLength(filed + [v[j]])
         == if i == 0 then PayloadLength(stale) + BytesOf(v, j + 1) else BytesOf(v, j + 1) - BytesOf(v, i)
  {
    PayloadLengthSnoc(filed, v[j]);
    BytesStep(v, j);
    if i == 0 {
      LengthAppend(stale, v[..j]);
    }
  }

  lemma BytesInBetween(v: seq<Fragment>, i: nat, j: nat)
    requires i < j <= |v| && forall f | f in v :: Payload(f) != []
    ensures BytesOf(v, i) < BytesOf(v, j) <= BytesOf(v, |v|)
    ensures i > 0 ==> BytesOf(v, i) > 0
  {
    BytesGrow(v, 0, i);
    BytesGrow(v, i, j);
    BytesGrow(v, j, |v|);
  }

  /** A sum that wraps once too often cannot hit a total that one summand stays below. */
  lemma SumWraps(a: nat, b: nat, total: nat)
    requires b <= total < 0x1_0000_0000
    ensures (a + b) % 0x1_0000_0000 == total <==> a % 0x1_0000_0000 + b == total
  {
    var r := a % 0x1_0000_0000;
    WrappedSum(a, b);
    assert r + b < 0x1_0000_0000 + total;
  }

  /** Whether fragment `j` completes the list it joins. */
  lemma CompletesAt(stale: seq<Fragment>, v: seq<Fragment>, total: uint32, j: nat, i: nat, filed: seq<Fragment>)
    requires j < |v| && ListAt(stale, v, total, j, i, filed) && Arriving(v, total)
    ensures Completes(filed + [v[j]], v[j]) <==> AddsUp(StaleLength(stale), v, total, j + 1)
    ensures Completes(filed + [v[j]], v[j]) ==> filed + [v[j]] == stale + v[..j + 1]
  {
    assert v[j] in v;
    LengthAt(stale, v, total, j, i, filed);
    if i == 0 {
      CompletesWithStale(stale, v, total, j, filed + [v[j]]);
      AppendNext(stale, v, j);
    } else {
      CompletesNotAgain(StaleLength(stale), v, total, j, i, filed + [v[j]]);
    }
  }

  lemma CompletesWithStale(stale: seq<Fragment>, v: seq<Fragment>, total: uint32, j: nat, w: seq<Fragment>)
    requires j < |v| && Arriving(v, total) && PayloadLength(w) == PayloadLength(stale) + BytesOf(v, j + 1)
    ensures Completes(w, v[j]) <==> AddsUp(StaleLength(stale), v, total, j + 1)
  {
    assert v[j] in v;
    BytesInBetween(v, 0, j + 1);
    SumWraps(PayloadLength(stale), BytesOf(v, j + 1), total);
  }

  lemma CompletesNotAgain(stale: nat, v: seq<Fragment>, total: uint32, j: nat, i: nat, w: seq<Fragment>)
    requires 0 < i <= j < |v| && Arriving(v, total) && AddsUp(stale, v, total, i)
    requires PayloadLength(w) == BytesOf(v, j + 1) - BytesOf(v, i)
    ensures !Completes(w, v[j]) && !AddsUp(stale, v, total, j + 1)
  {
    assert v[j] in v;
    BytesInBetween(v, i, j + 1);
    CompletesByLength(w, v[j]);
  }

  /** The list goes on with fragment `j`, if that completes nothing. */
  lemma ListGoesOn(stale: seq<Fragment>, v: seq<Fragment>, total: uint32, j: nat, i: nat, filed: seq<Fragment>)
    requires j < |v| && ListAt(stale, v, total, j, i, filed)
    requires !AddsUp(StaleLength(stale), v, total, j + 1)
    ensures ListAt(stale, v, total, j + 1, i, filed + [v[j]])
  {
    if i > 0 {
      LengthAt(stale, v, total, j, i, filed);
    } else {
      AppendNext(stale, v, j);
    }
  }

  /** How fragment `j` moves the list on. */
  lemma ListStep(stale: seq<Fragment>, v: seq<Fragment>, total: uint32, j: nat, i: nat, filed: seq<Fragment>, next: seq<Fragment>)
    returns (i': nat)
    requires j < |v| && ListAt(stale, v, total, j, i, filed) && Arriving(v, total)
    requires next == if Completes(filed + [v[j]], v[j]) then [] else filed + [v[j]]
    ensures ListAt(stale, v, total, j + 1, i', next)
  {
    CompletesAt(stale, v, total, j, i, filed);
    if Completes(filed + [v[j]], v[j]) {
      i' := j + 1;
    } else {
      i' := i;
      ListGoesOn(stale, v, total, j, i, filed);
    }
  }

  lemma {:induction false} ListBefore(stale: seq<Fragment>, v: seq<Fragment>, total: uint32, j: nat) returns (i: nat)
    requires j <= |v| && Arriving(v, total)
    ensures ListAt(stale, v, total, j, i, FiledAfter(stale, v[..j]))
    decreases j
  {
    if j == 0 {
      assert v[..0] == [] && stale + [] == stale;
      i := 0;
    } else {
      assert v[..j][..j - 1] == v[..j - 1];
      i := ListBefore(stale, v, total, j - 1);
      i := ListStep(stale, v, total, j - 1, i, FiledAfter(stale, v[..j - 1]), FiledAfter(stale, v[..j]));
    }
  }

  /** A fragment completes the list under its identification if and only if the
      stale bytes and the pieces up to it have the announced length together; what
      it completes are then just those. */
  lemma CompletesIff(stale: seq<Fragment>, v: seq<Fragment>, total: uint32, j: nat)
    requires j < |v| && Arriving(v, total)
    ensures var w := FiledAfter(stale, v[..j]) + [v[j]];
            && (Completes(w, v[j]) <==> AddsUp(StaleLength(stale), v, total, j + 1))
            && (Completes(w, v[j]) ==> w == stale + v[..j + 1])
  {
    var i := ListBefore(stale, v, total, j);
    CompletesAt(stale, v, total, j, i, FiledAfter(stale, v[..j]));
  }

  /** What an instance leaves behind: as many bytes as were stale before, if some
      of its pieces were deployed with them, otherwise all of its bytes as well. */
  lemma LengthAfterInstance(stale: seq<Fragment>, v: seq<Fragment>, total: uint32)
    requires Arriving(v, total)
    ensures PayloadLength(FiledAfter(stale, v))
         == if exists k :: 0 < k <= |v| && AddsUp(StaleLength(stale), v, total, k) then StaleLength(stale)
            else PayloadLength(stale) + total
  {
    var i := ListBefore(stale, v, total, |v|);
    assert v[..|v|] == v;
    if i == 0 {
      LengthAppend(stale, v);
    } else {
      assert AddsUp(StaleLength(stale), v, total, i);
    }
  }

  // ---- Fragments without payload leave no trace ----

  function Carrying(v: seq<Fragment>): seq<Fragment> {
    if v == [] then []
    else if Payload(v[|v| - 1]) == [] then Carrying(v[..|v| - 1])
    else Carrying(v[..|v| - 1]) + [v[|v| - 1]]
  }

  lemma {:induction false} CarryingJoin(v: seq<Fragment>)
    ensures Join(Carrying(v)) == Join(v)
  {
    if v != [] {
      CarryingJoin(v[..|v| - 1]);
      var c := Carrying(v[..|v| - 1]);
      assert (c + [v[|v| - 1]])[..|c|] == c;
    }
  }

  lemma {:induction false} CarryingMultiset(v: seq<Fragment>, f: Fragment)
    ensures multiset(Carrying(v))[f] == if Payload(f) == [] then 0 else multiset(v)[f]
  {
    if v != [] {
      CarryingMultiset(v[..|v| - 1], f);
      assert v == v[..|v| - 1] + [v[|v| - 1]];
    }
  }

  lemma {:induction false} CarryingSorted(v: seq<Fragment>)
    requires SortedByOffset(v)
    ensures SortedByOffset(Carrying(v))
    ensures forall f | f in Carrying(v) :: f in v
  {
    if v != [] {
      CarryingSorted(v[..|v| - 1]);
      var c := Carrying(v[..|v| - 1]);
      forall k | 0 <= k < |c| ensures Offset(c[k]) <= Offset(v[|v| - 1]) {
        assert c[k] in c;
      }
    }
  }

  lemma {:induction false} NothingCarried(v: seq<Fragment>, f: Fragment)
    requires PayloadLength(v) == 0 && f in v
    ensures Payload(f) == []
  {
    if f != v[|v| - 1] {
      NothingCarried(v[..|v| - 1], f);
    }
  }

  /** Sorting the pieces together with fragments that carry nothing restores the payload. */
  lemma PayloadDespiteStale(sort: Sorter, m: Instance, stale: seq<Fragment>, v: seq<Fragment>)
    requires CorrectSort(sort) && IsCut(m) && multiset(v) == multiset(m.pieces) && PayloadLength(stale) == 0
    ensures Join(sort(stale + v)) == m.payload
  {
    var w := sort(stale + v);
    assert Sorts(sort, stale + v);
    CarryingSorted(w);
    CarryingJoin(w);
    CutLength(m);
    forall f ensures multiset(Carrying(w))[f] == multiset(m.pieces)[f] {
      CarryingMultiset(w, f);
      assert multiset(w)[f] == multiset(stale)[f] + multiset(v)[f];
      if f in stale {
        NothingCarried(stale, f);
      }
      if Payload(f) == [] {
        assert f !in m.pieces;
      }
    }
    assert multiset(Carrying(w)) == multiset(m.pieces);
    PiecesOrdered(m);
    OrderIsUnique(m.pieces, Carrying(w));
  }

  // ---- Deployments in the presence of stale fragments ----

  /** The deployment of stale fragments and the pieces so far, if they have the announced length. */
  function DeployedFrom(sort: Sorter, id: uint32, total: nat, stale: seq<Fragment>, soFar: seq<Fragment>): seq<Deployment> {
    if StaleLength(stale) + PayloadLength(soFar) == total then [Deployment(id, stale + soFar, Join(sort(stale + soFar)))]
    else []
  }

  lemma EmittedByList(sort: Sorter, pending: Pending, f: Fragment, w: seq<Fragment>)
    requires Appended(pending, f) == w
    ensures Emitted(sort, pending, f) == if Completes(w, f) then [Deployment(Id(f), w, Join(sort(w)))] else []
  {
  }

  lemma PieceCompletesIff(m: Instance, stale: seq<Fragment>, before: seq<Fragment>, f: Fragment, rest: seq<Fragment>)
    requires IsCut(m) && multiset(before + [f] + rest) == multiset(m.pieces)
    ensures Id(f) == m.id
    ensures var w := FiledAfter(stale, before) + [f];
            && (Completes(w, f) <==> StaleLength(stale) + PayloadLength(before + [f]) == |m.payload|)
            && (Completes(w, f) ==> w == stale + (before + [f]))
  {
    var v, j := before + [f] + rest, |before|;
    InstanceBytes(m, v);
    assert v[..j] == before && v[j] == f && v[..j + 1] == before + [f] && f in v;
    CompletesIff(stale, v, |m.payload|, j);
  }

  /** Whatever is pending under an identification when the pieces of an instance
      with it arrive, in any order and mixed with any others: a piece deploys if and
      only if the stale bytes (modulo 2^32) and the pieces up to it have the
      announced length together, and then it deploys just those, stale ones included. */
  lemma DeploysWhenLengthsAddUp(sort: Sorter, m: Instance, h: seq<Fragment>, past: seq<Fragment>, f: Fragment, rest: seq<Fragment>)
    requires CorrectSort(sort) && IsCut(m)
    requires multiset(Project(past, m.id) + [f] + rest) == multiset(m.pieces)
    ensures Emitted(sort, PendingAfter(h + past), f)
         == DeployedFrom(sort, m.id, |m.payload|, Filed(PendingAfter(h), m.id), Project(past, m.id) + [f])
  {
    var stale, before := Filed(PendingAfter(h), m.id), Project(past, m.id);
    PieceCompletesIff(m, stale, before, f, rest);
    AppendedAfterRun(h, past, f);
    EmittedByList(sort, PendingAfter(h + past), f, FiledAfter(stale, before) + [f]);
  }

  lemma JoinedLength(sort: Sorter, stale: seq<Fragment>, v: seq<Fragment>)
    requires CorrectSort(sort)
    ensures |Join(sort(stale + v))| == PayloadLength(stale) + PayloadLength(v)
  {
    assert Sorts(sort, stale + v);
    PayloadLengthPermutation(sort(stale + v), stale + v);
    JoinLength(sort(stale + v));
    LengthAppend(stale, v);
  }

  /** These deployments are one, of the instance's payload. */
  ghost predicate DeploysPayload(ds: seq<Deployment>, m: Instance) {
    |ds| == 1 && ds[0].id == m.id && ds[0].bytes == m.payload
  }

  lemma AllPiecesDeployed(sort: Sorter, m: Instance, stale: seq<Fragment>, v: seq<Fragment>)
    requires CorrectSort(sort) && IsCut(m) && multiset(v) == multiset(m.pieces)
    ensures var ds := DeployedFrom(sort, m.id, |m.payload|, stale, v);
            && (ds != [] <==> StaleLength(stale) == 0)
            && (DeploysPayload(ds, m) <==> PayloadLength(stale) == 0)
  {
    assert v[..|v|] == v;
    InstanceBytes(m, v);
    JoinedLength(sort, stale, v);
    if PayloadLength(stale) == 0 {
      PayloadDespiteStale(sort, m, stale, v);
    }
  }

  /** So the last piece deploys if and only if the stale bytes are a multiple of
      2^32, and it deploys the instance's payload if and only if there are none. */
  lemma DeployedDespiteStaleIff(sort: Sorter, m: Instance, h: seq<Fragment>, past: seq<Fragment>, last: Fragment)
    requires CorrectSort(sort) && IsCut(m)
    requires multiset(Project(past, m.id) + [last]) == multiset(m.pieces)
    ensures Emitted(sort, PendingAfter(h + past), last) != [] <==> StaleLength(Filed(PendingAfter(h), m.id)) == 0
    ensures DeploysPayload(Emitted(sort, PendingAfter(h + past), last), m) <==> PayloadLength(Filed(PendingAfter(h), m.id)) == 0
  {
    var v := Project(past, m.id) + [last];
    assert v + [] == v;
    DeploysWhenLengthsAddUp(sort, m, h, past, last, []);
    AllPiecesDeployed(sort, m, Filed(PendingAfter(h), m.id), v);
  }

  lemma NotWhileStale(sort: Sorter, m: Instance, h: seq<Fragment>, past: seq<Fragment>, last: Fragment)
    requires CorrectSort(sort) && IsCut(m) && multiset(Project(past, m.id) + [last]) == multiset(m.pieces)
    requires StaleLength(Filed(PendingAfter(h), m.id)) != 0
    ensures Emitted(sort, PendingAfter(h + past), last) == []
  {
    DeployedDespiteStaleIff(sort, m, h, past, last);
  }

  // ---- An input that shows it ----

  lemma {:induction false} JoinedBytes(v: seq<Fragment>, x: uint8)
    requires forall f | f in v :: x !in Payload(f)
    ensures x !in Join(v)
  {
    if v != [] {
      JoinedBytes(v[..|v| - 1], x);
      assert v[|v| - 1] in v;
    }
  }

  /** A fragment `a` of an unfinished instance, and an instance [8, 9] in two pieces. */
  ghost predicate Spoiling(a: Fragment, p0: Fragment, p1: Fragment, id: uint32) {
    && Payload(a) == [7] && Payload(p0) == [8] && Payload(p1) == [9]
    && Id(a) == Id(p0) == Id(p1) == id && Total(a) == Total(p0) == Total(p1) == 2
    && Offset(a) == Offset(p0) == 0 && Offset(p1) == 1
  }

  lemma SpoilingDatagrams(u: Unread, id: uint32)
    requires u.Fits()
    ensures Spoiling(Parsed(Datagram(u, id, 2, 0, [7])), Parsed(Datagram(u, id, 2, 0, [8])), Parsed(Datagram(u, id, 2, 1, [9])), id)
  {
    DatagramParses(u, id, 2, 0, [7]);
    DatagramParses(u, id, 2, 0, [8]);
    DatagramParses(u, id, 2, 1, [9]);
  }

  lemma OneLength(f: Fragment)
    ensures PayloadLength([f]) == |Payload(f)|
  {
    assert [f][..0] == [];
    assert PayloadLength([f]) == PayloadLength([]) + |Payload(f)|;
  }

  lemma TwoPieces(m: Instance, p0: Fragment, p1: Fragment)
    requires m.pieces == [p0, p1] && m.payload == Payload(p0) + Payload(p1)
    requires |Payload(p0)| == 1 && |Payload(p1)| == 1
    requires Id(p0) == Id(p1) == m.id && Total(p0) == Total(p1) == 2 && Offset(p0) == 0 && Offset(p1) == 1
    ensures IsCut(m)
  {
    assert m.pieces[..0] == [] && m.pieces[..1] == [p0] && [p0][..0] == [];
    assert Join([p0]) == Join([]) + Payload(p0);
    assert Join(m.pieces) == Join([p0]) + Payload(p1);
    assert IsPiece(m, 0) && IsPiece(m, 1);
  }

  lemma OneFiled(a: Fragment)
    requires |Payload(a)| == 1 && Total(a) == 2
    ensures Filed(PendingAfter([a]), Id(a)) == [a]
  {
    assert [a][..0] == [];
    OneLength(a);
  }

  lemma MixedBytes(sort: Sorter, a: Fragment, p0: Fragment)
    requires CorrectSort(sort) && Payload(a) == [7] && Payload(p0) == [8]
    ensures |Join(sort([a] + [p0]))| == 2 && 9 !in Join(sort([a] + [p0]))
  {
    OneLength(a);
    OneLength(p0);
    JoinedLength(sort, [a], [p0]);
    assert Sorts(sort, [a] + [p0]);
    forall f | f in sort([a] + [p0]) ensures 9 !in Payload(f) {
      assert f in multiset([a] + [p0]);
    }
    JoinedBytes(sort([a] + [p0]), 9);
  }

  lemma ProjectOne(f: Fragment)
    ensures Project([f], Id(f)) == [f] && Project([], Id(f)) == []
  {
    assert [f][..0] == [];
  }

  /** The first piece deploys a packet of two bytes that does not contain the 9. */
  lemma FirstPieceMixed(sort: Sorter, a: Fragment, p0: Fragment, p1: Fragment, id: uint32)
    requires CorrectSort(sort) && Spoiling(a, p0, p1, id)
    ensures var ds := Emitted(sort, PendingAfter([a]), p0);
            |ds| == 1 && ds[0].consumed == [a] + [p0] && |ds[0].bytes| == 2 && 9 !in ds[0].bytes
  {
    var m := Instance(id, [8, 9], [p0, p1]);
    TwoPieces(m, p0, p1);
    OneFiled(a);
    OneLength(a);
    OneLength(p0);
    ProjectOne(p0);
    assert [a] + [] == [a] && [] + [p0] == [p0] && [p0] + [p1] == m.pieces;
    DeploysWhenLengthsAddUp(sort, m, [a], [], p0, [p1]);
    MixedBytes(sort, a, p0);
  }

  lemma OneStale(a: Fragment)
    requires |Payload(a)| == 1 && Total(a) == 2
    ensures StaleLength(Filed(PendingAfter([a]), Id(a))) != 0
  {
    OneFiled(a);
    OneLength(a);
  }

  /** The two pieces are all of the instance, and the second deploys nothing. */
  lemma StaleFragmentSpoils(sort: Sorter, a: Fragment, p0: Fragment, p1: Fragment, id: uint32)
    requires CorrectSort(sort) && Spoiling(a, p0, p1, id)
    ensures IsCut(Instance(id, [8, 9], [p0, p1]))
    ensures Emitted(sort, PendingAfter([a] + [p0]), p1) == []
  {
    var m := Instance(id, [8, 9], [p0, p1]);
    TwoPieces(m, p0, p1);
    OneStale(a);
    ProjectOne(p0);
    NotWhileStale(sort, m, [a], [p0], p1);
  }

  // ---- How long it lasts ----

  /** Instances that arrive one after the other under one identification. */
  ghost predicate Successive(ms: seq<Instance>, vs: seq<seq<Fragment>>, id: uint32) {
    |ms| == |vs| &&
    forall k :: 0 <= k < |ms| ==> IsCut(ms[k]) && ms[k].id == id && multiset(vs[k]) == multiset(ms[k].pieces)
  }

  function Flat(vs: seq<seq<Fragment>>): seq<Fragment> {
    if vs == [] then [] else Flat(vs[..|vs| - 1]) + vs[|vs| - 1]
  }

  function TotalBytes(ms: seq<Instance>): nat {
    if ms == [] then 0 else TotalBytes(ms[..|ms| - 1]) + |ms[|ms| - 1].payload|
  }

  lemma {:induction false} FiledAfterAppend(stale: seq<Fragment>, a: seq<Fragment>, b: seq<Fragment>)
    ensures FiledAfter(stale, a + b) == FiledAfter(FiledAfter(stale, a), b)
  {
    if b == [] {
      assert a + b == a;
    } else {
      var n := |b| - 1;
      assert (a + b)[..|a + b| - 1] == a + b[..n];
      FiledAfterAppend(stale, a, b[..n]);
    }
  }

  lemma StaysSpoiledStep(stale: seq<Fragment>, m: Instance, v: seq<Fragment>)
    requires IsCut(m) && multiset(v) == multiset(m.pieces)
    requires 0 < PayloadLength(stale) < 0x1_0000_0000
    ensures 0 < PayloadLength(FiledAfter(stale, v)) <= PayloadLength(stale) + |m.payload|
  {
    InstanceBytes(m, v);
    LengthAfterInstance(stale, v, |m.payload|);
  }

  lemma SuccessivePrefix(ms: seq<Instance>, vs: seq<seq<Fragment>>, id: uint32, n: nat)
    requires Successive(ms, vs, id) && |ms| == n + 1
    ensures Successive(ms[..n], vs[..n], id)
    ensures IsCut(ms[n]) && multiset(vs[n]) == multiset(ms[n].pieces)
    ensures Flat(vs) == Flat(vs[..n]) + vs[n] && TotalBytes(ms) == TotalBytes(ms[..n]) + |ms[n].payload|
  {
  }

  /** Stale bytes are never used up: any number of whole instances later there
      still are some, as long as all bytes together stay below 2^32. */
  lemma {:induction false} StaysSpoiled(stale: seq<Fragment>, ms: seq<Instance>, vs: seq<seq<Fragment>>, id: uint32)
    requires Successive(ms, vs, id) && PayloadLength(stale) > 0
    requires PayloadLength(stale) + TotalBytes(ms) < 0x1_0000_0000
    ensures 0 < PayloadLength(FiledAfter(stale, Flat(vs))) <= PayloadLength(stale) + TotalBytes(ms)
    decreases |ms|
  {
    if ms != [] {
      var n := |ms| - 1;
      SuccessivePrefix(ms, vs, id, n);
      StaysSpoiled(stale, ms[..n], vs[..n], id);
      FiledAfterAppend(stale, Flat(vs[..n]), vs[n]);
      StaysSpoiledStep(FiledAfter(stale, Flat(vs[..n])), ms[n], vs[n]);
    }
  }

  lemma StaleAfterRun(ms: seq<Instance>, vs: seq<seq<Fragment>>, id: uint32, h: seq<Fragment>, g: seq<Fragment>)
    requires Successive(ms, vs, id) && Project(g, id) == Flat(vs)
    requires PayloadLength(Filed(PendingAfter(h), id)) > 0
    requires PayloadLength(Filed(PendingAfter(h), id)) + TotalBytes(ms) < 0x1_0000_0000
    ensures StaleLength(Filed(PendingAfter(h + g), id)) != 0
  {
    FiledAfterRun(h, g, id);
    StaysSpoiled(Filed(PendingAfter(h), id), ms, vs, id);
    NotWrapped(FiledAfter(Filed(PendingAfter(h), id), Flat(vs)));
  }

  lemma NotWrapped(v: seq<Fragment>)
    requires 0 < PayloadLength(v) < 0x1_0000_0000
    ensures StaleLength(v) != 0
  {
  }

  /** In a run: once bytes are stale under an identification, no later instance with
      it is deployed by its last piece, however many arrived whole in between. */
  lemma LaterInstancesSpoiled(sort: Sorter, ms: seq<Instance>, vs: seq<seq<Fragment>>, m: Instance,
                              h: seq<Fragment>, g: seq<Fragment>, past: seq<Fragment>, last: Fragment)
    requires CorrectSort(sort) && Successive(ms, vs, m.id) && Project(g, m.id) == Flat(vs)
    requires IsCut(m) && multiset(Project(past, m.id) + [last]) == multiset(m.pieces)
    requires PayloadLength(Filed(PendingAfter(h), m.id)) > 0
    requires PayloadLength(Filed(PendingAfter(h), m.id)) + TotalBytes(ms) < 0x1_0000_0000
    ensures Emitted(sort, PendingAfter(h + g + past), last) == []
  {
    StaleAfterRun(ms, vs, m.id, h, g);
    NotWhileStale(sort, m, h + g, past, last);
  }
}
