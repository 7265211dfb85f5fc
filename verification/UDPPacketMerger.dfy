/** The merger that files incoming measurement fragments by identification and
    deploys an instance as soon as the payload sizes filed under its
    identification add up to the total length its header announces. */
module UDPPacketMerger {
  import opened ReadWriteHelper

  const HEADER_SIZE := 24
  const DATAGRAM_MARKER_SIZE := 20

  datatype DatagramHeader = DatagramHeader(
    datagramMarker: uint32, protocol: uint16, majorVersion: uint8, minorVersion: uint8,
    totalLength: uint32, identification: uint32, fragmentOffset: uint32)

  /** The header's fields, each read at its fixed offset. */
  function ParseDatagramHeader(buffer: Bytes): DatagramHeader
    requires DATAGRAM_MARKER_SIZE <= |buffer|
  {
    DatagramHeader(ReadUint32BigEndian(buffer, 0), ReadUint16BigEndian(buffer, 4), buffer[6], buffer[7],
                   ReadUint32LittleEndian(buffer, 8), ReadUint32LittleEndian(buffer, 12), ReadUint32LittleEndian(buffer, 16))
  }

  /** A datagram long enough to carry the header. */
  type Packet = b: Bytes | HEADER_SIZE <= |b| witness seq(HEADER_SIZE, _ => 0)

  datatype ParsedPacketBuffer = ParsedPacketBuffer(buffer: Bytes, header: DatagramHeader)

  /** A datagram filed with its parsed header. */
  type Fragment = f: ParsedPacketBuffer | HEADER_SIZE <= |f.buffer|
    witness ParsedPacketBuffer(seq(HEADER_SIZE, _ => 0), DatagramHeader(0, 0, 0, 0, 0, 0, 0))

  type Pending = map<uint32, seq<Fragment>>

  function Parsed(p: Packet): Fragment {
    ParsedPacketBuffer(p, ParseDatagramHeader(p))
  }

  function Id(f: Fragment): uint32 { f.header.identification }
  function Total(f: Fragment): uint32 { f.header.totalLength }
  function Offset(f: Fragment): uint32 { f.header.fragmentOffset }
  function Payload(f: Fragment): Bytes { f.buffer[HEADER_SIZE..] }

  /** Payloads joined in list order. */
  function Join(v: seq<Fragment>): (bytes: Bytes) {
    if v == [] then [] else Join(v[..|v| - 1]) + Payload(v[|v| - 1])
  }

  /** Number of payload bytes in a list of fragments. */
  function PayloadLength(v: seq<Fragment>): nat {
    if v == [] then 0 else PayloadLength(v[..|v| - 1]) + |Payload(v[|v| - 1])|
  }

  // The library sort is a parameter: any function that orders by offset and
  // keeps the elements. Nothing is said about fragments with equal offsets.

  type Sorter = seq<Fragment> -> seq<Fragment>

  ghost predicate SortedByOffset(v: seq<Fragment>) {
    forall i, j :: 0 <= i < j < |v| ==> Offset(v[i]) <= Offset(v[j])
  }

  ghost predicate Sorts(sort: Sorter, v: seq<Fragment>) {
    multiset(sort(v)) == multiset(v) && SortedByOffset(sort(v))
  }

  ghost predicate CorrectSort(sort: Sorter) {
    forall v :: Sorts(sort, v)
  }

  // One step of the merger, as a function of what is pending.

  function Filed(pending: Pending, id: uint32): seq<Fragment> {
    if id in pending then pending[id] else []
  }

  function Appended(pending: Pending, f: Fragment): seq<Fragment> {
    Filed(pending, Id(f)) + [f]
  }

  /** The running length is a 32-bit counter, compared with the newest header's total. */
  predicate Completes(v: seq<Fragment>, f: Fragment) {
    PayloadLength(v) % 0x1_0000_0000 == Total(f)
  }

  predicate Deploys(pending: Pending, f: Fragment) {
    Completes(Appended(pending, f), f)
  }

  function NextPending(pending: Pending, f: Fragment): Pending {
    if Deploys(pending, f) then pending - {Id(f)} else pending[Id(f) := Appended(pending, f)]
  }

  /** What is pending after a whole history of arrivals. */
  function PendingAfter(h: seq<Fragment>): Pending {
    if h == [] then map[] else NextPending(PendingAfter(h[..|h| - 1]), h[|h| - 1])
  }

  /** A deployed instance: the fragments it consumed, in arrival order, and its bytes. */
  datatype Deployment = Deployment(id: uint32, consumed: seq<Fragment>, bytes: Bytes)

  /** What one arrival deploys: at most one instance. */
  function Emitted(sort: Sorter, pending: Pending, f: Fragment): seq<Deployment> {
    if Deploys(pending, f) then
      [Deployment(Id(f), Appended(pending, f), Join(sort(Appended(pending, f))))]
    else []
  }

  /** Everything deployed over a history, oldest first. */
  function Deployments(sort: Sorter, h: seq<Fragment>): seq<Deployment> {
    if h == [] then []
    else Deployments(sort, h[..|h| - 1]) + Emitted(sort, PendingAfter(h[..|h| - 1]), h[|h| - 1])
  }

  predicate DeploysLast(h: seq<Fragment>) {
    h != [] && Deploys(PendingAfter(h[..|h| - 1]), h[|h| - 1])
  }

  function LastBytes(ds: seq<Deployment>): Option<Bytes> {
    if ds == [] then None else Some(ds[|ds| - 1].bytes)
  }

  function LastDeployed(sort: Sorter, h: seq<Fragment>): Option<Bytes> {
    LastBytes(Deployments(sort, h))
  }

  /** How one more arrival extends a history. */
  lemma HistoryStep(sort: Sorter, h: seq<Fragment>, f: Fragment)
    ensures PendingAfter(h + [f]) == NextPending(PendingAfter(h), f)
    ensures DeploysLast(h + [f]) == Deploys(PendingAfter(h), f)
    ensures Deployments(sort, h + [f]) == Deployments(sort, h) + Emitted(sort, PendingAfter(h), f)
  {
    var g := h + [f];
    assert g[..|g| - 1] == h;
    assert g[|g| - 1] == f;
    assert g != [];
  }

  /** The merger's fields against the history of arrivals. */
  ghost predicate Consistent(sort: Sorter, h: seq<Fragment>, pending: Pending, deployed: Option<Bytes>, complete: bool) {
    && pending == PendingAfter(h)
    && deployed == LastDeployed(sort, h)
    && (complete ==> DeploysLast(h))
  }

  /** What filing a fragment, and erasing its list if that completes it, does to the fields. */
  ghost predicate Arrives(sort: Sorter, pending: Pending, deployed: Option<Bytes>, f: Fragment,
                          pending': Pending, deployed': Option<Bytes>, complete': bool) {
    var v := Appended(pending, f);
    && complete' == Completes(v, f)
    && pending' == (if complete' then pending[Id(f) := v] - {Id(f)} else pending[Id(f) := v])
    && deployed' == (if complete' then Some(Join(sort(v))) else deployed)
  }

  /** The deployment of one arrival, if any. */
  function NewlyDeployed(sort: Sorter, pending: Pending, deployed: Option<Bytes>, f: Fragment): Option<Bytes> {
    if Deploys(pending, f) then Some(Join(sort(Appended(pending, f)))) else deployed
  }

  lemma ArrivalIsStep(sort: Sorter, pending: Pending, deployed: Option<Bytes>,
                      f: Fragment, pending': Pending, deployed': Option<Bytes>, complete': bool)
    requires Arrives(sort, pending, deployed, f, pending', deployed', complete')
    ensures complete' == Deploys(pending, f) && pending' == NextPending(pending, f)
    ensures deployed' == NewlyDeployed(sort, pending, deployed, f)
  {
    EraseFiled(pending, Id(f), Appended(pending, f));
  }

  lemma LastBytesAppend(ds: seq<Deployment>, e: seq<Deployment>)
    requires |e| <= 1
    ensures LastBytes(ds + e) == if e == [] then LastBytes(ds) else Some(e[0].bytes)
  {
    assert e == [] ==> ds + e == ds;
  }

  lemma LastDeployedStep(sort: Sorter, h: seq<Fragment>, f: Fragment)
    ensures LastDeployed(sort, h + [f]) == NewlyDeployed(sort, PendingAfter(h), LastDeployed(sort, h), f)
  {
    HistoryStep(sort, h, f);
    LastBytesAppend(Deployments(sort, h), Emitted(sort, PendingAfter(h), f));
  }

  lemma ArrivalKeepsConsistent(sort: Sorter, h: seq<Fragment>, pending: Pending, deployed: Option<Bytes>, complete: bool,
                               f: Fragment, pending': Pending, deployed': Option<Bytes>, complete': bool)
    requires Consistent(sort, h, pending, deployed, complete)
    requires Arrives(sort, pending, deployed, f, pending', deployed', complete')
    ensures complete' == DeploysLast(h + [f])
    ensures Consistent(sort, h + [f], pending', deployed', complete')
  {
    ArrivalIsStep(sort, pending, deployed, f, pending', deployed', complete');
    LastDeployedStep(sort, h, f);
    HistoryStep(sort, h, f);
  }

  lemma EraseFiled<K, V>(m: map<K, V>, k: K, v: V)
    ensures m[k := v] - {k} == m - {k}
  {
  }

  class UDPPacketMerger {
    const sort: Sorter
    var isComplete: bool
    var deployed: Option<Bytes>  // None is the buffer that was never set
    var pending: Pending
    ghost var history: seq<Fragment>

    ghost predicate Valid()
      reads this
    {
      CorrectSort(sort) && Consistent(sort, history, pending, deployed, isComplete)
    }

    constructor (sort: Sorter)
      requires CorrectSort(sort)
      ensures Valid() && history == [] && !isComplete && this.sort == sort
    {
      this.sort := sort;
      isComplete, deployed, pending := false, None, map[];
      history := [];
    }

    method GetDeployedPacketBuffer() returns (r: Option<Bytes>)
      requires Valid()
      modifies this
      ensures Valid() && !isComplete
      ensures r == old(deployed) == deployed && pending == old(pending) && history == old(history)
    {
      isComplete := false;
      r := deployed;
    }

    /** The flag answers exactly whether this arrival deployed an instance. */
    method AddUDPPacket(buffer: Packet) returns (r: bool)
      requires Valid()
      modifies this
      ensures Valid() && history == old(history) + [Parsed(buffer)]
      ensures r == isComplete == DeploysLast(history)
    {
      r := AddParsed(Parsed(buffer));
    }

    /** The same once the header has been read. */
    method AddParsed(f: Fragment) returns (r: bool)
      requires Valid()
      modifies this
      ensures Valid() && history == old(history) + [f]
      ensures r == isComplete == DeploysLast(history)
    {
      ghost var h, p, d, c := history, pending, deployed, isComplete;
      history := h + [f];
      FileAndDeploy(f);
      ArrivalKeepsConsistent(sort, h, p, d, c, f, pending, deployed, isComplete);
      r := isComplete;
    }

    /** One arrival, as it changes the fields. */
    method FileAndDeploy(f: Fragment)
      requires CorrectSort(sort)
      modifies this`pending, this`deployed, this`isComplete
      ensures Arrives(sort, old(pending), old(deployed), f, pending, deployed, isComplete)
    {
      if isComplete {
        isComplete := false;
      }
      AddToMap(f);
      assert pending[Id(f)] == Appended(old(pending), f);
      var _ := DeployPacketIfComplete(f.header, f);
    }

    method AddToMap(f: Fragment)
      modifies this`pending
      ensures pending == old(pending)[Id(f) := Appended(old(pending), f)]
    {
      if f.header.identification in pending {
        pending := pending[f.header.identification := pending[f.header.identification] + [f]];
      } else {
        assert [] + [f] == [f];
        pending := pending[f.header.identification := [f]];
      }
    }

    method DeployPacketIfComplete(header: DatagramHeader, ghost f: Fragment) returns (done: bool)
      requires CorrectSort(sort) && header == f.header && !isComplete
      modifies this`pending, this`deployed, this`isComplete
      ensures done == isComplete == (Id(f) in old(pending) && Completes(old(pending)[Id(f)], f))
      ensures pending == if done then old(pending) - {Id(f)} else old(pending)
      ensures deployed == if done then Some(Join(sort(old(pending)[Id(f)]))) else old(deployed)
    {
      if header.identification !in pending {
        return false;
      }
      var complete := CheckIfComplete(header, f);
      if !complete {
        return false;
      }
      var vec := sort(pending[header.identification]);
      var bytes := RemoveHeader(vec);
      deployed := Some(bytes);
      pending := pending - {header.identification};
      return true;
    }

    method CheckIfComplete(header: DatagramHeader, ghost f: Fragment) returns (complete: bool)
      requires CorrectSort(sort) && header == f.header && header.identification in pending
      modifies this`isComplete
      ensures complete == Completes(pending[Id(f)], f)
      ensures isComplete == (old(isComplete) || complete)
    {
      var vec := sort(pending[header.identification]);
      var curLength := CurrentLength(vec);
      assert Sorts(sort, pending[header.identification]);
      PayloadLengthPermutation(vec, pending[header.identification]);
      if curLength != header.totalLength {
        return false;
      }
      isComplete := true;
      return true;
    }
  }

  lemma LengthUpTo(vec: seq<Fragment>, i: nat)
    requires i < |vec|
    ensures PayloadLength(vec[..i + 1]) == PayloadLength(vec[..i]) + (|vec[i].buffer| - HEADER_SIZE)
  {
    assert vec[..i + 1][..i] == vec[..i];
  }

  lemma WrappedSum(a: nat, b: nat)
    ensures (a % 0x1_0000_0000 + b) % 0x1_0000_0000 == (a + b) % 0x1_0000_0000
  {
  }

  method CurrentLength(vec: seq<Fragment>) returns (curLength: uint32)
    ensures curLength == PayloadLength(vec) % 0x1_0000_0000
  {
    curLength := 0;
    for i := 0 to |vec|
      invariant curLength == PayloadLength(vec[..i]) % 0x1_0000_0000
    {
      LengthUpTo(vec, i);
      WrappedSum(PayloadLength(vec[..i]), |vec[i].buffer| - HEADER_SIZE);
      curLength := (curLength + (|vec[i].buffer| - HEADER_SIZE)) % 0x1_0000_0000;
    }
    assert vec[..|vec|] == vec;
  }

  method RemoveHeader(vec: seq<Fragment>) returns (bytes: Bytes)
    ensures bytes == Join(vec)
  {
    bytes := [];
    for i := 0 to |vec|
      invariant bytes == Join(vec[..i])
    {
      assert vec[..i + 1][..i] == vec[..i];
      bytes := bytes + vec[i].buffer[HEADER_SIZE..];
    }
    assert vec[..|vec|] == vec;
  }

  // Lengths do not depend on the order of a list.

  function Without(v: seq<Fragment>, j: nat): seq<Fragment>
    requires j < |v|
  {
    v[..j] + v[j + 1..]
  }

  lemma WithoutMultiset(v: seq<Fragment>, j: nat)
    requires j < |v|
    ensures multiset(Without(v, j)) == multiset(v) - multiset{v[j]}
  {
    assert v == v[..j] + [v[j]] + v[j + 1..];
  }

  lemma {:induction false} PayloadLengthWithout(v: seq<Fragment>, j: nat)
    requires j < |v|
    ensures PayloadLength(v) == PayloadLength(Without(v, j)) + |Payload(v[j])|
  {
    var n := |v| - 1;
    if j == n {
      assert Without(v, j) == v[..n];
    } else {
      PayloadLengthWithout(v[..n], j);
      assert Without(v, j)[..n - 1] == Without(v[..n], j);
    }
  }

  /** Fewer fragments carry no more bytes, and strictly fewer when none is empty. */
  lemma {:induction false} PayloadLengthSubset(v: seq<Fragment>, w: seq<Fragment>)
    requires multiset(v) <= multiset(w)
    ensures PayloadLength(v) <= PayloadLength(w)
    ensures (forall f | f in w :: Payload(f) != []) && PayloadLength(v) == PayloadLength(w) ==> |v| == |w|
  {
    var n := |v| - 1;
    if v != [] {
      assert v[n] in multiset(v);
      var j :| 0 <= j < |w| && w[j] == v[n];
      SubsetWithout(v, w, j);
      PayloadLengthWithout(w, j);
      PayloadLengthSubset(v[..n], Without(w, j));
    } else if w != [] {
      assert w[|w| - 1] in w;
    }
  }

  lemma SubsetWithout(v: seq<Fragment>, w: seq<Fragment>, j: nat)
    requires v != [] && multiset(v) <= multiset(w) && j < |w| && w[j] == v[|v| - 1]
    ensures multiset(v[..|v| - 1]) <= multiset(Without(w, j))
    ensures forall f | f in Without(w, j) :: f in w
  {
    WithoutMultiset(v, |v| - 1);
    assert Without(v, |v| - 1) == v[..|v| - 1];
    WithoutMultiset(w, j);
  }

  lemma PayloadLengthPermutation(v: seq<Fragment>, w: seq<Fragment>)
    requires multiset(v) == multiset(w)
    ensures PayloadLength(v) == PayloadLength(w)
  {
    PayloadLengthSubset(v, w);
    PayloadLengthSubset(w, v);
  }

  lemma {:induction false} JoinLength(v: seq<Fragment>)
    ensures |Join(v)| == PayloadLength(v)
  {
    if v != [] {
      JoinLength(v[..|v| - 1]);
    }
  }
}
