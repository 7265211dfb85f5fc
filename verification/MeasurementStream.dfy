/** Whole runs of the fragment merger on streams of measurement instances: each
    payload cut into pieces, the pieces of several instances interleaved and
    arriving in any order. */
module MeasurementStream {
  import opened ReadWriteHelper
  import opened UDPPacketMerger
  import opened UDPReassembly

  /** A payload and its pieces by increasing offset. */
  datatype Instance = Instance(id: uint32, payload: Bytes, pieces: seq<Fragment>)

  /** Non-empty contiguous pieces, each announcing the whole length and its own offset. */
  ghost predicate IsCut(m: Instance) {
    && m.pieces != []
    && |m.payload| < 0x1_0000_0000
    && Join(m.pieces) == m.payload
    && forall i :: 0 <= i < |m.pieces| ==> IsPiece(m, i)
  }

  ghost predicate IsPiece(m: Instance, i: nat)
    requires i < |m.pieces|
  {
    var f := m.pieces[i];
    && Id(f) == m.id && Total(f) == |m.payload|
    && Payload(f) != [] && Offset(f) == |Join(m.pieces[..i])|
  }

  /** A fragment on the wire, with the index of the instance it was cut from. */
  datatype Arrival = Arrival(owner: nat, fragment: Fragment)

  function Fragments(s: seq<Arrival>): seq<Fragment> {
    if s == [] then [] else Fragments(s[..|s| - 1]) + [s[|s| - 1].fragment]
  }

  /** The pieces of instance `k` received so far, in arrival order. */
  function Received(s: seq<Arrival>, k: nat): seq<Fragment> {
    if s == [] then []
    else if s[|s| - 1].owner == k then Received(s[..|s| - 1], k) + [s[|s| - 1].fragment]
    else Received(s[..|s| - 1], k)
  }

  ghost predicate Complete(ms: seq<Instance>, s: seq<Arrival>, k: nat) {
    k < |ms| && multiset(Received(s, k)) == multiset(ms[k].pieces)
  }

  ghost predicate InProgress(ms: seq<Instance>, s: seq<Arrival>, k: nat) {
    k < |ms| && Received(s, k) != [] && !Complete(ms, s, k)
  }

  /** `a` is a piece of its instance not sent before, and no other instance
      with the same identification is under way. */
  ghost predicate Admissible(ms: seq<Instance>, past: seq<Arrival>, a: Arrival) {
    && a.owner < |ms|
    && multiset(Received(past, a.owner) + [a.fragment]) <= multiset(ms[a.owner].pieces)
    && forall l: nat :: l != a.owner && InProgress(ms, past, l) ==> ms[l].id != ms[a.owner].id
  }

  /** Any interleaving of any number of instances; instances may share an
      identification as long as they do not overlap in time, and may be lost in part. */
  ghost predicate IsStream(ms: seq<Instance>, s: seq<Arrival>) {
    && (forall m | m in ms :: IsCut(m))
    && (s == [] || (IsStream(ms, s[..|s| - 1]) && Admissible(ms, s[..|s| - 1], s[|s| - 1])))
  }

  /** The deployment due at the last arrival of a stream, if it completed its instance. */
  ghost function Completion(ms: seq<Instance>, s: seq<Arrival>): seq<Deployment>
    requires s != []
  {
    var k := s[|s| - 1].owner;
    if Complete(ms, s, k) then [Deployment(ms[k].id, Received(s, k), ms[k].payload)] else []
  }

  /** The instances of a stream, in the order in which their last piece arrives. */
  ghost function Completions(ms: seq<Instance>, s: seq<Arrival>): seq<Deployment> {
    if s == [] then [] else Completions(ms, s[..|s| - 1]) + Completion(ms, s)
  }

  /** Pending lists are exactly the instances under way. */
  ghost predicate PendingMatches(ms: seq<Instance>, s: seq<Arrival>) {
    var pending := PendingAfter(Fragments(s));
    && (forall k: nat :: InProgress(ms, s, k) ==> ms[k].id in pending && pending[ms[k].id] == Received(s, k))
    && (forall id :: id in pending ==> exists k: nat :: InProgress(ms, s, k) && ms[k].id == id)
  }

  // ---- The pieces of one instance ----

  lemma JoinPrefixLength(v: seq<Fragment>, i: nat, j: nat)
    requires i < j <= |v|
    requires forall k :: 0 <= k < |v| ==> Payload(v[k]) != []
    ensures |Join(v[..i])| < |Join(v[..j])|
    decreases j
  {
    assert v[..j][..j - 1] == v[..j - 1];
    if i < j - 1 {
      JoinPrefixLength(v, i, j - 1);
    }
  }

  lemma PiecesOrdered(m: Instance)
    requires IsCut(m)
    ensures SortedByOffset(m.pieces) && DistinctOffsets(m.pieces)
  {
    forall i, j | 0 <= i < j < |m.pieces| ensures Offset(m.pieces[i]) < Offset(m.pieces[j]) {
      assert IsPiece(m, i) && IsPiece(m, j);
      forall k | 0 <= k < |m.pieces| ensures Payload(m.pieces[k]) != [] {
        assert IsPiece(m, k);
      }
      JoinPrefixLength(m.pieces, i, j);
    }
  }

  /** A correct sort puts all pieces of an instance back into the payload. */
  lemma SortRestoresPayload(sort: Sorter, m: Instance, v: seq<Fragment>)
    requires CorrectSort(sort) && IsCut(m) && multiset(v) == multiset(m.pieces)
    ensures Join(sort(v)) == m.payload
  {
    assert Sorts(sort, v);
    PiecesOrdered(m);
    OrderIsUnique(m.pieces, sort(v));
  }

  lemma PieceProperties(m: Instance, f: Fragment)
    requires IsCut(m) && f in m.pieces
    ensures Id(f) == m.id && Total(f) == |m.payload| && Payload(f) != []
  {
    var i :| 0 <= i < |m.pieces| && m.pieces[i] == f;
    assert IsPiece(m, i);
  }

  lemma CutLength(m: Instance)
    requires IsCut(m)
    ensures PayloadLength(m.pieces) == |m.payload|
    ensures forall f | f in m.pieces :: Payload(f) != []
  {
    JoinLength(m.pieces);
    forall f | f in m.pieces ensures Payload(f) != [] {
      PieceProperties(m, f);
    }
  }

  /** Pieces have the length of the whole payload exactly when they are all pieces. */
  lemma AllPiecesByLength(m: Instance, w: seq<Fragment>)
    requires IsCut(m) && multiset(w) <= multiset(m.pieces)
    ensures PayloadLength(w) <= |m.payload|
    ensures PayloadLength(w) == |m.payload| <==> multiset(w) == multiset(m.pieces)
  {
    CutLength(m);
    PayloadLengthSubset(w, m.pieces);
    if PayloadLength(w) == PayloadLength(m.pieces) {
      SubsetOfSameSize(w, m.pieces);
    } else if multiset(w) == multiset(m.pieces) {
      PayloadLengthPermutation(w, m.pieces);
      assert false;
    }
  }

  lemma CompletesByLength(w: seq<Fragment>, f: Fragment)
    requires PayloadLength(w) < 0x1_0000_0000
    ensures Completes(w, f) <==> PayloadLength(w) == Total(f)
  {
  }

  /** The length check succeeds exactly when the last missing piece arrives. */
  lemma CompletesExactly(m: Instance, v: seq<Fragment>, f: Fragment)
    requires IsCut(m) && multiset(v + [f]) <= multiset(m.pieces)
    ensures Id(f) == m.id
    ensures Completes(v + [f], f) <==> multiset(v + [f]) == multiset(m.pieces)
  {
    var w := v + [f];
    assert f in multiset(w) && f in m.pieces;
    PieceProperties(m, f);
    AllPiecesByLength(m, w);
    CompletesByLength(w, f);
  }

  lemma SubsetOfSameSize(v: seq<Fragment>, w: seq<Fragment>)
    requires multiset(v) <= multiset(w) && |v| == |w|
    ensures multiset(v) == multiset(w)
  {
    var rest := multiset(w) - multiset(v);
    assert multiset(w) == multiset(v) + rest;
    assert |multiset(w)| == |multiset(v)| + |rest|;
    assert |rest| == 0;
  }

  /** An instance that still has a piece to send is not complete. */
  lemma PieceMissing(v: seq<Fragment>, f: Fragment, pieces: seq<Fragment>)
    requires multiset(v + [f]) <= multiset(pieces)
    ensures multiset(v) != multiset(pieces)
  {
    var rest := multiset(pieces) - multiset(v + [f]);
    assert multiset(pieces) == multiset(v + [f]) + rest;
    assert |multiset(pieces)| == |v + [f]| + |rest|;
    assert |multiset(v)| == |v|;
  }

  // ---- One arrival ----

  lemma ReceivedStep(past: seq<Arrival>, a: Arrival, k: nat)
    ensures Received(past + [a], k) == if a.owner == k then Received(past, k) + [a.fragment] else Received(past, k)
    ensures Fragments(past + [a]) == Fragments(past) + [a.fragment]
  {
    assert (past + [a])[..|past + [a]| - 1] == past;
  }

  /** The list the merger extends is that of the arriving piece's own instance. */
  lemma ExtendsOwnInstance(ms: seq<Instance>, past: seq<Arrival>, a: Arrival)
    requires IsStream(ms, past) && Admissible(ms, past, a) && PendingMatches(ms, past)
    ensures Id(a.fragment) == ms[a.owner].id
    ensures Appended(PendingAfter(Fragments(past)), a.fragment) == Received(past, a.owner) + [a.fragment]
  {
    var m, v := ms[a.owner], Received(past, a.owner);
    assert IsCut(m);
    CompletesExactly(m, v, a.fragment);
    PieceMissing(v, a.fragment, m.pieces);
    if v == [] {
      assert m.id !in PendingAfter(Fragments(past));
    } else {
      assert InProgress(ms, past, a.owner);
    }
  }

  lemma OtherInstancesKept(ms: seq<Instance>, past: seq<Arrival>, a: Arrival, k: nat)
    requires k != a.owner
    ensures InProgress(ms, past + [a], k) == InProgress(ms, past, k)
    ensures Complete(ms, past + [a], k) == Complete(ms, past, k)
    ensures Received(past + [a], k) == Received(past, k)
  {
    ReceivedStep(past, a, k);
  }

  lemma PendingMatchesStep(ms: seq<Instance>, past: seq<Arrival>, a: Arrival)
    requires IsStream(ms, past) && Admissible(ms, past, a) && PendingMatches(ms, past)
    ensures PendingMatches(ms, past + [a])
    ensures Deploys(PendingAfter(Fragments(past)), a.fragment) == Complete(ms, past + [a], a.owner)
  {
    var s, m, f := past + [a], ms[a.owner], a.fragment;
    var before, after := PendingAfter(Fragments(past)), PendingAfter(Fragments(s));
    assert IsCut(m);
    ReceivedStep(past, a, a.owner);
    ExtendsOwnInstance(ms, past, a);
    CompletesExactly(m, Received(past, a.owner), f);
    HistoryStep(v => v, Fragments(past), f);
    assert after == NextPending(before, f);
    forall k: nat | InProgress(ms, s, k) ensures ms[k].id in after && after[ms[k].id] == Received(s, k) {
      NextPendingAt(before, f, ms[k].id);
      if k != a.owner {
        OtherInstancesKept(ms, past, a, k);
      }
    }
    forall id | id in after ensures exists k: nat :: InProgress(ms, s, k) && ms[k].id == id {
      NextPendingAt(before, f, id);
      if id == m.id {
        assert InProgress(ms, s, a.owner);
      } else {
        var k: nat :| InProgress(ms, past, k) && ms[k].id == id;
        OtherInstancesKept(ms, past, a, k);
      }
    }
  }

  /** One arrival deploys the payload if it is the last missing piece, otherwise nothing. */
  lemma ArrivalDeploys(sort: Sorter, ms: seq<Instance>, past: seq<Arrival>, a: Arrival)
    requires CorrectSort(sort) && IsStream(ms, past) && Admissible(ms, past, a) && PendingMatches(ms, past)
    ensures Emitted(sort, PendingAfter(Fragments(past)), a.fragment) == Completion(ms, past + [a])
  {
    PendingMatchesStep(ms, past, a);
    ExtendsOwnInstance(ms, past, a);
    ReceivedStep(past, a, a.owner);
    if Complete(ms, past + [a], a.owner) {
      assert IsCut(ms[a.owner]);
      SortRestoresPayload(sort, ms[a.owner], Received(past + [a], a.owner));
    }
  }

  // ---- Whole runs ----

  lemma PendingMatchesAtFirst(ms: seq<Instance>)
    ensures PendingMatches(ms, [])
  {
    assert forall k: nat :: Received([], k) == [];
  }

  /** What stays pending is exactly what is still incomplete. */
  lemma {:induction false} PendingIsIncomplete(ms: seq<Instance>, s: seq<Arrival>)
    requires IsStream(ms, s)
    ensures PendingMatches(ms, s)
  {
    if s == [] {
      PendingMatchesAtFirst(ms);
    } else {
      var past, a := s[..|s| - 1], s[|s| - 1];
      assert s == past + [a];
      PendingIsIncomplete(ms, past);
      PendingMatchesStep(ms, past, a);
    }
  }

  /** One more arrival adds what it completes, whatever came before. */
  lemma DeploymentsStep(sort: Sorter, ms: seq<Instance>, past: seq<Arrival>, a: Arrival)
    requires CorrectSort(sort) && IsStream(ms, past) && Admissible(ms, past, a)
    ensures Deployments(sort, Fragments(past + [a])) == Deployments(sort, Fragments(past)) + Completion(ms, past + [a])
  {
    PendingIsIncomplete(ms, past);
    ArrivalDeploys(sort, ms, past, a);
    HistoryStep(sort, Fragments(past), a.fragment);
    ReceivedStep(past, a, a.owner);
  }

  lemma CompletionsStep(ms: seq<Instance>, past: seq<Arrival>, a: Arrival)
    ensures Completions(ms, past + [a]) == Completions(ms, past) + Completion(ms, past + [a])
  {
    assert (past + [a])[..|past + [a]| - 1] == past;
  }

  /** For every interleaving and every correct sort, the merger deploys each
      payload byte for byte, once, at the arrival of its last missing piece and
      in completion order. */
  lemma {:induction false} WholeRunReassembly(sort: Sorter, ms: seq<Instance>, s: seq<Arrival>)
    requires CorrectSort(sort) && IsStream(ms, s)
    ensures Deployments(sort, Fragments(s)) == Completions(ms, s)
  {
    if s != [] {
      var past, a := s[..|s| - 1], s[|s| - 1];
      assert s == past + [a];
      WholeRunReassembly(sort, ms, past);
      DeploymentsStep(sort, ms, past, a);
      CompletionsStep(ms, past, a);
    }
  }

  lemma {:induction false} StreamPrefix(ms: seq<Instance>, s: seq<Arrival>, i: nat)
    requires IsStream(ms, s) && i <= |s|
    ensures IsStream(ms, s[..i])
    decreases |s|
  {
    if i == |s| {
      assert s[..i] == s;
    } else {
      StreamPrefix(ms, s[..|s| - 1], i);
      assert s[..|s| - 1][..i] == s[..i];
    }
  }

  lemma {:induction false} StreamStep(ms: seq<Instance>, s: seq<Arrival>, i: nat)
    requires IsStream(ms, s) && i < |s|
    ensures IsStream(ms, s[..i]) && Admissible(ms, s[..i], s[i])
  {
    StreamPrefix(ms, s, i + 1);
    assert s[..i + 1][..i] == s[..i];
  }

  /** At each arrival of a run: the payload if this was the last missing piece, otherwise nothing. */
  lemma DeployedExactlyAtCompletion(sort: Sorter, ms: seq<Instance>, s: seq<Arrival>, i: nat)
    requires CorrectSort(sort) && IsStream(ms, s) && i < |s|
    ensures var past, a := s[..i], s[i];
            Deployments(sort, Fragments(past + [a])) == Deployments(sort, Fragments(past)) + Completion(ms, past + [a])
  {
    StreamStep(ms, s, i);
    DeploymentsStep(sort, ms, s[..i], s[i]);
  }

  /** The instances completed, in the order in which their last piece arrives. */
  ghost function Completed(ms: seq<Instance>, s: seq<Arrival>): seq<nat> {
    if s == [] then []
    else
      var k := s[|s| - 1].owner;
      Completed(ms, s[..|s| - 1]) + if Complete(ms, s, k) then [k] else []
  }

  lemma NothingCompleteAtFirst(ms: seq<Instance>, k: nat)
    requires k < |ms| && IsCut(ms[k])
    ensures !Complete(ms, [], k)
  {
    assert |multiset(ms[k].pieces)| == |ms[k].pieces|;
  }

  /** Only a piece of an instance can complete it, and a complete one has no piece left to send. */
  lemma CompletedByOwnPiece(ms: seq<Instance>, past: seq<Arrival>, a: Arrival, k: nat)
    requires Admissible(ms, past, a)
    ensures a.owner == k ==> !Complete(ms, past, k)
    ensures a.owner != k ==> Complete(ms, past + [a], k) == Complete(ms, past, k)
  {
    if a.owner != k {
      OtherInstancesKept(ms, past, a, k);
    } else {
      PieceMissing(Received(past, k), a.fragment, ms[k].pieces);
    }
  }

  /** One arrival adds its own instance if it completes it; no instance is completed twice. */
  lemma CompletedStep(ms: seq<Instance>, past: seq<Arrival>, a: Arrival, before: seq<nat>, after: seq<nat>)
    requires Admissible(ms, past, a)
    requires after == before + if Complete(ms, past + [a], a.owner) then [a.owner] else []
    requires Distinct(before) && forall k: nat :: k in before <==> Complete(ms, past, k)
    ensures Distinct(after) && forall k: nat :: k in after <==> Complete(ms, past + [a], k)
  {
    CompletedByOwnPiece(ms, past, a, a.owner);
    forall k: nat ensures k in after <==> Complete(ms, past + [a], k) {
      CompletedByOwnPiece(ms, past, a, k);
    }
  }

  predicate Distinct(s: seq<nat>) {
    forall i, j :: 0 <= i < j < |s| ==> s[i] != s[j]
  }

  lemma {:induction false} CompletedOnce(ms: seq<Instance>, s: seq<Arrival>)
    requires IsStream(ms, s)
    ensures Distinct(Completed(ms, s))
    ensures forall k: nat :: k in Completed(ms, s) <==> Complete(ms, s, k)
  {
    if s == [] {
      forall k: nat | k < |ms| ensures !Complete(ms, s, k) {
        NothingCompleteAtFirst(ms, k);
      }
    } else {
      var past, a := s[..|s| - 1], s[|s| - 1];
      assert s == past + [a];
      CompletedOnce(ms, past);
      CompletedStep(ms, past, a, Completed(ms, past), Completed(ms, s));
    }
  }

  /** A deployment of this instance: its payload, from its pieces and no others. */
  ghost predicate IsDeploymentOf(d: Deployment, m: Instance) {
    d.id == m.id && d.bytes == m.payload && multiset(d.consumed) == multiset(m.pieces)
  }

  ghost predicate Matches(ms: seq<Instance>, ds: seq<Deployment>, ks: seq<nat>) {
    |ds| == |ks| && forall j :: 0 <= j < |ds| ==> ks[j] < |ms| && IsDeploymentOf(ds[j], ms[ks[j]])
  }

  lemma {:induction false} CompletionsMatch(ms: seq<Instance>, s: seq<Arrival>)
    ensures Matches(ms, Completions(ms, s), Completed(ms, s))
  {
    if s != [] {
      var past := s[..|s| - 1];
      CompletionsMatch(ms, past);
      MatchesAppend(ms, Completions(ms, past), Completed(ms, past), Completion(ms, s), s);
    }
  }

  lemma MatchesAppend(ms: seq<Instance>, ds: seq<Deployment>, ks: seq<nat>, e: seq<Deployment>, s: seq<Arrival>)
    requires Matches(ms, ds, ks) && s != [] && e == Completion(ms, s)
    ensures Matches(ms, ds + e, ks + if Complete(ms, s, s[|s| - 1].owner) then [s[|s| - 1].owner] else [])
  {
  }

  /** The merger's deployments are, one for one, those of the completed instances:
      every instance whose pieces have all arrived is deployed once, and no other ever. */
  lemma DeployedOnce(sort: Sorter, ms: seq<Instance>, s: seq<Arrival>)
    requires CorrectSort(sort) && IsStream(ms, s)
    ensures Matches(ms, Deployments(sort, Fragments(s)), Completed(ms, s))
    ensures Distinct(Completed(ms, s))
    ensures forall k: nat :: k in Completed(ms, s) <==> Complete(ms, s, k)
  {
    WholeRunReassembly(sort, ms, s);
    CompletionsMatch(ms, s);
    CompletedOnce(ms, s);
  }

  /** When every started instance is complete, nothing is left behind. */
  lemma NothingLeftBehind(ms: seq<Instance>, s: seq<Arrival>)
    requires IsStream(ms, s)
    requires forall k: nat :: k < |ms| && Received(s, k) != [] ==> Complete(ms, s, k)
    ensures PendingAfter(Fragments(s)) == map[]
  {
    PendingIsIncomplete(ms, s);
  }
}
