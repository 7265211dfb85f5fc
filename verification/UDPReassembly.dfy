/** What the fragment merger guarantees over whole runs, for every correct sort
    and every interleaving of identifications. */
module UDPReassembly {
  import opened ReadWriteHelper
  import opened UDPPacketMerger

  // ---- The order by offset does not depend on the sorting algorithm ----

  ghost predicate DistinctOffsets(v: seq<Fragment>) {
    forall i, j :: 0 <= i < j < |v| ==> Offset(v[i]) != Offset(v[j])
  }

  /** Both lists end in the one fragment of greatest offset. */
  lemma SameLast(v: seq<Fragment>, w: seq<Fragment>)
    requires v != [] && w != []
    requires multiset(v) == multiset(w) && SortedByOffset(v) && SortedByOffset(w) && DistinctOffsets(v)
    ensures v[|v| - 1] == w[|w| - 1]
  {
    var n, m := |v| - 1, |w| - 1;
    assert w[m] in multiset(v) && v[n] in multiset(w);
    var i :| 0 <= i < |v| && v[i] == w[m];
    var j :| 0 <= j < |w| && w[j] == v[n];
    assert Offset(v[i]) <= Offset(v[n]) && Offset(w[j]) <= Offset(w[m]);
  }

  lemma DropEqualLast(v: seq<Fragment>, w: seq<Fragment>)
    requires v != [] && w != [] && multiset(v) == multiset(w) && v[|v| - 1] == w[|w| - 1]
    ensures multiset(v[..|v| - 1]) == multiset(w[..|w| - 1])
  {
    WithoutMultiset(v, |v| - 1);
    WithoutMultiset(w, |w| - 1);
    assert Without(v, |v| - 1) == v[..|v| - 1] && Without(w, |w| - 1) == w[..|w| - 1];
  }

  lemma SameLength(v: seq<Fragment>, w: seq<Fragment>)
    requires multiset(v) == multiset(w)
    ensures |v| == |w|
  {
    assert |multiset(v)| == |v| && |multiset(w)| == |w|;
  }

  /** With distinct offsets there is only one ordered arrangement. */
  lemma {:induction false} OrderIsUnique(v: seq<Fragment>, w: seq<Fragment>)
    requires multiset(v) == multiset(w) && SortedByOffset(v) && SortedByOffset(w) && DistinctOffsets(v)
    ensures v == w
  {
    SameLength(v, w);
    if v != [] {
      SameLast(v, w);
      DropEqualLast(v, w);
      OrderIsUnique(v[..|v| - 1], w[..|w| - 1]);
    }
  }

  lemma DistinctOffsetsPermutation(v: seq<Fragment>, w: seq<Fragment>)
    requires multiset(v) == multiset(w) && DistinctOffsets(v)
    ensures DistinctOffsets(w)
  {
    forall i, j | 0 <= i < j < |w| ensures Offset(w[i]) != Offset(w[j]) {
      assert w[i] in multiset(v) && w[j] in multiset(v);
      var k :| 0 <= k < |v| && v[k] == w[i];
      var l :| 0 <= l < |v| && v[l] == w[j];
      if w[i] == w[j] {
        TwiceInPermutation(v, w, i, j);
        assert false;
      }
      assert k != l;
    }
  }

  /** A fragment found at two places of one list is found at two places of the other. */
  lemma TwiceInPermutation(v: seq<Fragment>, w: seq<Fragment>, i: nat, j: nat)
    requires multiset(v) == multiset(w) && i < j < |w| && w[i] == w[j]
    ensures exists k, l :: 0 <= k < l < |v| && v[k] == w[i] && v[l] == w[i]
  {
    assert w[i] in multiset(v);
    var k :| 0 <= k < |v| && v[k] == w[i];
    StillThere(v, w, k, i, j);
    var m :| 0 <= m < |Without(v, k)| && Without(v, k)[m] == w[i];
    var l := if m < k then m else m + 1;
    assert v[l] == w[i] && l != k;
  }

  lemma StillThere(v: seq<Fragment>, w: seq<Fragment>, k: nat, i: nat, j: nat)
    requires multiset(v) == multiset(w) && i < j < |w| && w[i] == w[j] && k < |v| && v[k] == w[i]
    ensures w[i] in Without(v, k)
  {
    WithoutMultiset(v, k);
    WithoutMultiset(w, j);
    assert Without(w, j)[i] == w[i];
    assert w[i] in multiset(Without(v, k));
  }

  /** Every arrival order and every correct sort, stable or not, joins the same bytes. */
  lemma SortChoiceIndependence(s1: Sorter, s2: Sorter, v: seq<Fragment>, w: seq<Fragment>)
    requires CorrectSort(s1) && CorrectSort(s2)
    requires multiset(v) == multiset(w) && DistinctOffsets(v)
    ensures s1(v) == s2(w) && Join(s1(v)) == Join(s2(w))
  {
    assert Sorts(s1, v) && Sorts(s2, w);
    DistinctOffsetsPermutation(v, s1(v));
    OrderIsUnique(s1(v), s2(w));
  }

  /** One arrival touches the list of its own identification only. */
  lemma NextPendingAt(pending: Pending, f: Fragment, id: uint32)
    ensures id in NextPending(pending, f) <==> if id == Id(f) then !Deploys(pending, f) else id in pending
    ensures Filed(NextPending(pending, f), id)
         == if id != Id(f) then Filed(pending, id) else if Deploys(pending, f) then [] else Appended(pending, f)
  {
  }

  // ---- Identifications do not interfere ----

  function Project(h: seq<Fragment>, id: uint32): seq<Fragment> {
    if h == [] then []
    else if Id(h[|h| - 1]) == id then Project(h[..|h| - 1], id) + [h[|h| - 1]]
    else Project(h[..|h| - 1], id)
  }

  function ProjectDeployments(ds: seq<Deployment>, id: uint32): seq<Deployment> {
    if ds == [] then []
    else if ds[|ds| - 1].id == id then ProjectDeployments(ds[..|ds| - 1], id) + [ds[|ds| - 1]]
    else ProjectDeployments(ds[..|ds| - 1], id)
  }

  function OnlyId(pending: Pending, id: uint32): Pending {
    if id in pending then map[id := pending[id]] else map[]
  }

  lemma ProjectDeploymentsAppend(ds: seq<Deployment>, e: seq<Deployment>, id: uint32)
    requires |e| <= 1
    ensures ProjectDeployments(ds + e, id)
         == if e != [] && e[0].id == id then ProjectDeployments(ds, id) + e else ProjectDeployments(ds, id)
  {
    if e == [] {
      assert ds + e == ds;
    } else {
      assert (ds + e)[..|ds + e| - 1] == ds;
    }
  }

  /** Restricting to one identification commutes with a step on it and hides every other step. */
  lemma OnlyIdStep(sort: Sorter, pending: Pending, f: Fragment, id: uint32)
    ensures Id(f) == id ==> NextPending(OnlyId(pending, id), f) == OnlyId(NextPending(pending, f), id)
    ensures Id(f) == id ==> Emitted(sort, OnlyId(pending, id), f) == Emitted(sort, pending, f)
    ensures Id(f) != id ==> OnlyId(NextPending(pending, f), id) == OnlyId(pending, id)
  {
    NextPendingAt(pending, f, id);
    assert Id(f) == id ==> Appended(OnlyId(pending, id), f) == Appended(pending, f);
  }

  /** A merger fed only one identification's fragments holds the same list and
      deploys the same instances as that identification sees in the full run. */
  lemma {:induction false} PerIdRefinement(sort: Sorter, h: seq<Fragment>, id: uint32)
    ensures PendingAfter(Project(h, id)) == OnlyId(PendingAfter(h), id)
    ensures ProjectDeployments(Deployments(sort, h), id) == Deployments(sort, Project(h, id))
  {
    if h == [] {
      assert PendingAfter(h) == map[];
    } else {
      var past, f := h[..|h| - 1], h[|h| - 1];
      PerIdRefinement(sort, past, id);
      OnlyIdStep(sort, PendingAfter(past), f, id);
      ProjectDeploymentsAppend(Deployments(sort, past), Emitted(sort, PendingAfter(past), f), id);
      if Id(f) == id {
        HistoryStep(sort, Project(past, id), f);
      }
    }
  }

  // ---- Nothing is lost, nothing is used twice ----

  function ConsumedBy(ds: seq<Deployment>): seq<Fragment> {
    if ds == [] then [] else ConsumedBy(ds[..|ds| - 1]) + ds[|ds| - 1].consumed
  }

  lemma ConsumedByAppend(ds: seq<Deployment>, d: Deployment)
    ensures ConsumedBy(ds + [d]) == ConsumedBy(ds) + d.consumed
  {
    assert (ds + [d])[..|ds + [d]| - 1] == ds;
  }

  /** For each identification, the fragments received are, in order, those used
      up by its deployments followed by those still pending. */
  lemma {:induction false} Conservation(sort: Sorter, h: seq<Fragment>, id: uint32)
    ensures ConsumedBy(ProjectDeployments(Deployments(sort, h), id)) + Filed(PendingAfter(h), id) == Project(h, id)
  {
    if h != [] {
      var past, f := h[..|h| - 1], h[|h| - 1];
      Conservation(sort, past, id);
      ConservationStep(PendingAfter(past), f, id, Emitted(sort, PendingAfter(past), f), Deployments(sort, past), sort);
    }
  }

  lemma ConservationStep(pending: Pending, f: Fragment, id: uint32, e: seq<Deployment>, ds: seq<Deployment>, sort: Sorter)
    requires e == Emitted(sort, pending, f)
    ensures var c := ConsumedBy(ProjectDeployments(ds, id)) + Filed(pending, id);
            var d := ConsumedBy(ProjectDeployments(ds + e, id)) + Filed(NextPending(pending, f), id);
            d == if Id(f) == id then c + [f] else c
  {
    var before, after := ProjectDeployments(ds, id), ProjectDeployments(ds + e, id);
    var filed, next := Filed(pending, id), Filed(NextPending(pending, f), id);
    NextPendingAt(pending, f, id);
    ProjectDeploymentsAppend(ds, e, id);
    if Id(f) != id {
      assert after == before && next == filed;
    } else if e == [] {
      assert after == before && next == filed + [f];
      Associative(ConsumedBy(before), filed, [f]);
    } else {
      assert e == [e[0]] && after == before + [e[0]] && next == [];
      ConsumedByAppend(before, e[0]);
      assert e[0].consumed == filed + [f];
      Associative(ConsumedBy(before), filed, [f]);
      assert ConsumedBy(after) + [] == ConsumedBy(after);
    }
  }

  /** Every reachable list is non-empty, filed under its own identification, a
      latest run of that identification's arrivals, and not yet complete. */
  ghost predicate SoundList(v: seq<Fragment>, arrivals: seq<Fragment>, id: uint32) {
    && v != []
    && (forall f | f in v :: Id(f) == id)
    && |v| <= |arrivals| && v == arrivals[|arrivals| - |v|..]
    && PayloadLength(v) % 0x1_0000_0000 != Total(v[|v| - 1])
  }

  lemma {:induction false} ReachableInvariant(h: seq<Fragment>, id: uint32)
    requires id in PendingAfter(h)
    ensures SoundList(PendingAfter(h)[id], Project(h, id), id)
  {
    var past, f := h[..|h| - 1], h[|h| - 1];
    NextPendingAt(PendingAfter(past), f, id);
    if id in PendingAfter(past) {
      ReachableInvariant(past, id);
    }
    if id == Id(f) {
      SoundListStep(Filed(PendingAfter(past), id), Project(past, id), f);
    }
  }

  lemma SoundListStep(v: seq<Fragment>, arrivals: seq<Fragment>, f: Fragment)
    requires v != [] ==> SoundList(v, arrivals, Id(f))
    requires !Completes(v + [f], f)
    ensures SoundList(v + [f], arrivals + [f], Id(f))
  {
    var w, all := v + [f], arrivals + [f];
    assert w == all[|all| - |w|..];
    assert w[|w| - 1] == f;
  }

  /** A deployment uses fragments of its own identification, its bytes are their
      payloads by offset, and its length is the total announced by the newest. */
  ghost predicate SoundDeployment(sort: Sorter, d: Deployment) {
    && d.consumed != []
    && (forall f | f in d.consumed :: Id(f) == d.id)
    && d.bytes == Join(sort(d.consumed))
    && |d.bytes| % 0x1_0000_0000 == Total(d.consumed[|d.consumed| - 1])
  }

  lemma EmittedSound(sort: Sorter, past: seq<Fragment>, f: Fragment)
    requires CorrectSort(sort) && Deploys(PendingAfter(past), f)
    ensures var v := Appended(PendingAfter(past), f);
            SoundDeployment(sort, Deployment(Id(f), v, Join(sort(v))))
  {
    var v := Appended(PendingAfter(past), f);
    if Id(f) in PendingAfter(past) {
      ReachableInvariant(past, Id(f));
    }
    assert Sorts(sort, v);
    PayloadLengthPermutation(sort(v), v);
    JoinLength(sort(v));
    assert v[|v| - 1] == f;
  }

  lemma {:induction false} DeploymentsSound(sort: Sorter, h: seq<Fragment>)
    requires CorrectSort(sort)
    ensures forall d | d in Deployments(sort, h) :: SoundDeployment(sort, d)
  {
    if h != [] {
      var past, f := h[..|h| - 1], h[|h| - 1];
      DeploymentsSound(sort, past);
      if Deploys(PendingAfter(past), f) {
        EmittedSound(sort, past, f);
      }
    }
  }

  /** Payload bytes pending under all identifications together. */
  ghost function PendingBytes(pending: Pending): nat {
    if pending == map[] then 0
    else
      var id :| id in pending;
      PayloadLength(pending[id]) + PendingBytes(pending - {id})
  }

  function DeployedBytes(ds: seq<Deployment>): nat {
    if ds == [] then 0 else DeployedBytes(ds[..|ds| - 1]) + |ds[|ds| - 1].bytes|
  }

  /** The sum may be taken in any order. */
  lemma {:induction false} PendingBytesSplit(pending: Pending, id: uint32)
    requires id in pending
    ensures PendingBytes(pending) == PayloadLength(pending[id]) + PendingBytes(pending - {id})
    decreases |pending|
  {
    var first :| first in pending && PendingBytes(pending) == PayloadLength(pending[first]) + PendingBytes(pending - {first});
    if first != id {
      PendingBytesSplit(pending - {first}, id);
      PendingBytesSplit(pending - {id}, first);
      assert pending - {first} - {id} == pending - {id} - {first};
    }
  }

  lemma FiledBytes(pending: Pending, id: uint32)
    ensures PendingBytes(pending) == PayloadLength(Filed(pending, id)) + PendingBytes(pending - {id})
  {
    if id in pending {
      PendingBytesSplit(pending, id);
    } else {
      assert pending - {id} == pending;
    }
  }

  lemma ByteStep(sort: Sorter, pending: Pending, f: Fragment, e: seq<Deployment>)
    requires CorrectSort(sort) && e == Emitted(sort, pending, f)
    ensures PendingBytes(NextPending(pending, f)) + DeployedBytes(e) == PendingBytes(pending) + |Payload(f)|
  {
    var v := Appended(pending, f);
    PayloadLengthSnoc(Filed(pending, Id(f)), f);
    FiledBytes(pending, Id(f));
    FiledBytes(NextPending(pending, f), Id(f));
    NextPendingAt(pending, f, Id(f));
    OtherIdsKept(pending, f);
    if e != [] {
      assert Sorts(sort, v);
      PayloadLengthPermutation(sort(v), v);
      JoinLength(sort(v));
      assert DeployedBytes(e) == DeployedBytes([]) + |e[0].bytes|;
    }
  }

  lemma PayloadLengthSnoc(v: seq<Fragment>, f: Fragment)
    ensures PayloadLength(v + [f]) == PayloadLength(v) + |Payload(f)|
  {
    assert (v + [f])[..|v + [f]| - 1] == v;
  }

  lemma OtherIdsKept(pending: Pending, f: Fragment)
    ensures NextPending(pending, f) - {Id(f)} == pending - {Id(f)}
  {
    EraseFiled(pending, Id(f), Appended(pending, f));
    assert pending - {Id(f)} - {Id(f)} == pending - {Id(f)};
  }

  /** Payload bytes received are payload bytes pending plus payload bytes deployed. */
  lemma {:induction false} ByteConservation(sort: Sorter, h: seq<Fragment>)
    requires CorrectSort(sort)
    ensures PayloadLength(h) == PendingBytes(PendingAfter(h)) + DeployedBytes(Deployments(sort, h))
  {
    if h != [] {
      var past, f := h[..|h| - 1], h[|h| - 1];
      ByteConservation(sort, past);
      var e := Emitted(sort, PendingAfter(past), f);
      ByteStep(sort, PendingAfter(past), f, e);
      DeployedBytesAppend(Deployments(sort, past), e);
    }
  }

  lemma DeployedBytesAppend(ds: seq<Deployment>, e: seq<Deployment>)
    requires |e| <= 1
    ensures DeployedBytes(ds + e) == DeployedBytes(ds) + DeployedBytes(e)
  {
    if e == [] {
      assert ds + e == ds;
    } else {
      assert (ds + e)[..|ds + e| - 1] == ds;
      assert e[..|e| - 1] == [];
    }
  }
}
