/** The two ways of driving the fragment merger: a callback per datagram, and a
    blocking call that reads datagrams until an instance is deployed. */
module ScannerDrivers {
  import opened ReadWriteHelper
  import opened UDPPacketMerger

  datatype ReceiveResult<+T> = Data(data: T) | TimeoutError

  /** A history extended by datagrams taken from a socket. */
  function After(h: seq<Fragment>, packets: seq<Packet>): seq<Fragment>
    decreases |packets|
  {
    if packets == [] then h else After(h + [Parsed(packets[0])], packets[1..])
  }

  /** The parsed results of a list of deployments. */
  function Results<T>(parse: Bytes -> T, ds: seq<Deployment>): seq<T> {
    if ds == [] then [] else Results(parse, ds[..|ds| - 1]) + [parse(ds[|ds| - 1].bytes)]
  }

  /** The parsed form of the newest deployment. */
  function LastResult<T>(sort: Sorter, parse: Bytes -> T, h: seq<Fragment>): T {
    parse(LastDeployed(sort, h).GetOr([]))
  }

  lemma ResultsAppend<T>(parse: Bytes -> T, ds: seq<Deployment>, e: seq<Deployment>, all: seq<Deployment>)
    requires |e| <= 1 && all == ds + e
    ensures e == [] ==> all == ds
    ensures e != [] ==> Results(parse, all) == Results(parse, ds) + [parse(all[|all| - 1].bytes)]
  {
    if e != [] {
      assert all[..|all| - 1] == ds;
    }
  }

  /** One datagram adds the newest deployment's result if it deploys, otherwise nothing. */
  lemma ResultsStep<T>(sort: Sorter, parse: Bytes -> T, h: seq<Fragment>, f: Fragment)
    ensures var before, after := Results(parse, Deployments(sort, h)), Results(parse, Deployments(sort, h + [f]));
            after == if DeploysLast(h + [f]) then before + [LastResult(sort, parse, h + [f])] else before
  {
    var e := Emitted(sort, PendingAfter(h), f);
    HistoryStep(sort, h, f);
    assert e == [] <==> !DeploysLast(h + [f]);
    ResultsAppend(parse, Deployments(sort, h), e, Deployments(sort, h + [f]));
  }

  class AsyncSickSafetyScanner<T> {
    const merger: UDPPacketMerger
    const parse: Bytes -> T
    var delivered: seq<T>  // arguments of the callback, in call order

    ghost predicate Valid()
      reads this, merger
    {
      merger.Valid() && delivered == Results(parse, Deployments(merger.sort, merger.history))
    }

    constructor (sort: Sorter, parse: Bytes -> T)
      requires CorrectSort(sort)
      ensures Valid() && fresh(merger) && merger.history == [] && merger.sort == sort && this.parse == parse
    {
      this.merger := new UDPPacketMerger(sort);
      this.parse, this.delivered := parse, [];
    }

    /** The callback runs exactly when this datagram deploys an instance, with its parsed bytes. */
    method ProcessUDPPacket(buffer: Packet)
      requires Valid()
      modifies this, merger
      ensures Valid() && merger.history == old(merger.history) + [Parsed(buffer)]
      ensures |delivered| == |old(delivered)| + if DeploysLast(merger.history) then 1 else 0
    {
      ResultsStep(merger.sort, parse, merger.history, Parsed(buffer));
      var complete := merger.AddUDPPacket(buffer);
      if complete {
        var deployedBuffer := merger.GetDeployedPacketBuffer();
        delivered := delivered + [parse(deployedBuffer.GetOr([]))];
      }
    }
  }

  /** What one blocking receive leaves: the history, the datagrams not read,
      and whether it ended with a deployment. */
  datatype Reading = Reading(history: seq<Fragment>, rest: seq<Packet>, deployed: bool)

  /** Read datagrams until the history is one that `stops`, or there are no more. */
  function ReadUntil(stops: seq<Fragment> -> bool, h: seq<Fragment>, socket: seq<Packet>): (r: Reading)
    ensures socket != [] ==> |r.rest| < |socket|
    ensures if r.deployed then socket != [] && stops(r.history) else r.rest == []
    decreases |socket|
  {
    if socket == [] then Reading(h, [], false)
    else
      var h' := h + [Parsed(socket[0])];
      if stops(h') then Reading(h', socket[1..], true) else ReadUntil(stops, h', socket[1..])
  }

  /** The results of calling the blocking receive until it times out. */
  function ReceiveAll<T>(sort: Sorter, parse: Bytes -> T, h: seq<Fragment>, socket: seq<Packet>): seq<T>
    decreases |socket|
  {
    var r := ReadUntil(DeploysLast, h, socket);
    if r.deployed then [LastResult(sort, parse, r.history)] + ReceiveAll(sort, parse, r.history, r.rest) else []
  }

  class SyncSickSafetyScanner<T> {
    const merger: UDPPacketMerger
    const parse: Bytes -> T
    var socket: seq<Packet>  // datagrams still to arrive; none left means the next receive times out

    ghost predicate Valid()
      reads this, merger
    {
      merger.Valid() && !merger.isComplete
    }

    constructor (sort: Sorter, parse: Bytes -> T, socket: seq<Packet>)
      requires CorrectSort(sort)
      ensures Valid() && fresh(merger) && merger.history == [] && merger.sort == sort
      ensures this.parse == parse && this.socket == socket
    {
      this.merger := new UDPPacketMerger(sort);
      this.parse, this.socket := parse, socket;
    }

    /** Reads up to and including the first deploying datagram, or times out after reading all. */
    method Receive() returns (r: ReceiveResult<T>)
      requires Valid()
      modifies this, merger
      ensures Valid()
      ensures var reading := ReadUntil(DeploysLast, old(merger.history), old(socket));
              && merger.history == reading.history && socket == reading.rest
              && r == if reading.deployed then Data(LastResult(merger.sort, parse, merger.history)) else TimeoutError
    {
      ghost var reading := ReadUntil(DeploysLast, merger.history, socket);
      while !merger.isComplete
        invariant merger.Valid()
        invariant if merger.isComplete then reading == Reading(merger.history, socket, true)
                  else reading == ReadUntil(DeploysLast, merger.history, socket)
        decreases |socket|, if merger.isComplete then 0 else 1
      {
        if socket == [] {
          return TimeoutError;
        }
        var buffer := socket[0];
        socket := socket[1..];
        var _ := merger.AddUDPPacket(buffer);
      }
      var deployedBuffer := merger.GetDeployedPacketBuffer();
      r := Data(parse(deployedBuffer.GetOr([])));
    }
  }

  lemma ReceiveAllOnce<T>(sort: Sorter, parse: Bytes -> T, h: seq<Fragment>, socket: seq<Packet>, r: Reading, done: seq<T>)
    requires r == ReadUntil(DeploysLast, h, socket)
    ensures done + ReceiveAll(sort, parse, h, socket)
         == if r.deployed then done + [LastResult(sort, parse, r.history)] + ReceiveAll(sort, parse, r.history, r.rest) else done
    ensures if r.deployed then |r.rest| < |socket| else r.rest == []
  {
    if r.deployed {
      Associative(done, [LastResult(sort, parse, r.history)], ReceiveAll(sort, parse, r.history, r.rest));
    } else {
      assert done + [] == done;
    }
  }

  /** A client that calls the blocking receive until it times out collects these results. */
  method ReceiveUntilTimeout<T>(scanner: SyncSickSafetyScanner<T>) returns (results: seq<T>)
    requires scanner.Valid()
    modifies scanner, scanner.merger
    ensures scanner.Valid() && scanner.socket == []
    ensures results == ReceiveAll(scanner.merger.sort, scanner.parse, old(scanner.merger.history), old(scanner.socket))
  {
    results := [];
    ghost var all := ReceiveAll(scanner.merger.sort, scanner.parse, scanner.merger.history, scanner.socket);
    var timedOut := false;
    while !timedOut
      invariant scanner.Valid()
      invariant if timedOut then scanner.socket == [] && all == results
                else all == results + ReceiveAll(scanner.merger.sort, scanner.parse, scanner.merger.history, scanner.socket)
      decreases !timedOut, |scanner.socket|
    {
      timedOut, results := ReceiveMore(scanner, results);
    }
  }

  /** One more receive, added to the results so far. */
  method ReceiveMore<T>(scanner: SyncSickSafetyScanner<T>, results: seq<T>) returns (timedOut: bool, more: seq<T>)
    requires scanner.Valid()
    modifies scanner, scanner.merger
    ensures scanner.Valid()
    ensures var all := results + ReceiveAll(scanner.merger.sort, scanner.parse, old(scanner.merger.history), old(scanner.socket));
            if timedOut then scanner.socket == [] && all == more
            else all == more + ReceiveAll(scanner.merger.sort, scanner.parse, scanner.merger.history, scanner.socket)
    ensures !timedOut ==> |scanner.socket| < |old(scanner.socket)|
  {
    ghost var h, s := scanner.merger.history, scanner.socket;
    ReceiveAllOnce(scanner.merger.sort, scanner.parse, h, s, ReadUntil(DeploysLast, h, s), results);
    var r := scanner.Receive();
    timedOut := r.TimeoutError?;
    more := if timedOut then results else results + [r.data];
  }

  /** A client that hands every datagram to the callback path. */
  method HandleAll<T>(scanner: AsyncSickSafetyScanner<T>, packets: seq<Packet>)
    requires scanner.Valid()
    modifies scanner, scanner.merger
    ensures scanner.Valid() && scanner.merger.history == After(old(scanner.merger.history), packets)
  {
    ghost var all := After(scanner.merger.history, packets);
    for i := 0 to |packets|
      invariant scanner.Valid() && all == After(scanner.merger.history, packets[i..])
    {
      assert packets[i..][1..] == packets[i + 1..];
      scanner.ProcessUDPPacket(packets[i]);
    }
  }

  /** Both clients, fed the same datagrams from the start, end with the same results. */
  method BothWays<T>(sort: Sorter, parse: Bytes -> T, packets: seq<Packet>) returns (received: seq<T>, delivered: seq<T>)
    requires CorrectSort(sort)
    ensures received == delivered == Results(parse, Deployments(sort, After([], packets)))
  {
    var sync := new SyncSickSafetyScanner(sort, parse, packets);
    received := ReceiveUntilTimeout(sync);
    var async := new AsyncSickSafetyScanner(sort, parse);
    HandleAll(async, packets);
    delivered := async.delivered;
    SyncAgreesWithAsync(sort, parse, [], packets);
  }

  /** A blocking receive reads a prefix of what arrives. */
  lemma {:induction false} ReadsPrefix(stops: seq<Fragment> -> bool, h: seq<Fragment>, socket: seq<Packet>)
    ensures var r := ReadUntil(stops, h, socket);
            var n := |socket| - |r.rest|;
            n >= 0 && r.rest == socket[n..] && r.history == After(h, socket[..n])
    decreases |socket|
  {
    if socket != [] {
      AfterFirst(h, socket, |socket| - |ReadUntil(stops, h, socket).rest|);
      ReadsPrefix(stops, h + [Parsed(socket[0])], socket[1..]);
    }
  }

  /** It stops nowhere before the end of that prefix, and a timeout not there either. */
  lemma {:induction false} StopsAtFirst(stops: seq<Fragment> -> bool, h: seq<Fragment>, socket: seq<Packet>, k: nat)
    requires var r := ReadUntil(stops, h, socket);
             0 < k <= |socket| - |r.rest| && (r.deployed ==> k < |socket| - |r.rest|)
    ensures !stops(After(h, socket[..k]))
    decreases |socket|
  {
    AfterFirst(h, socket, k);
    if k > 1 {
      StopsAtFirst(stops, h + [Parsed(socket[0])], socket[1..], k - 1);
    }
  }

  lemma AfterFirst(h: seq<Fragment>, socket: seq<Packet>, n: nat)
    requires 0 < n <= |socket|
    ensures After(h, socket[..n]) == After(h + [Parsed(socket[0])], socket[1..][..n - 1])
    ensures n == 1 ==> After(h, socket[..n]) == h + [Parsed(socket[0])]
    ensures socket[n..] == socket[1..][n - 1..]
  {
    assert socket[..n][1..] == socket[1..][..n - 1];
  }

  /** One datagram either is the first result or only extends the history. */
  lemma ReceiveAllStep<T>(sort: Sorter, parse: Bytes -> T, h: seq<Fragment>, socket: seq<Packet>, h': seq<Fragment>)
    requires socket != [] && h' == h + [Parsed(socket[0])]
    ensures ReceiveAll(sort, parse, h, socket)
         == if DeploysLast(h') then [LastResult(sort, parse, h')] + ReceiveAll(sort, parse, h', socket[1..])
            else ReceiveAll(sort, parse, h', socket[1..])
  {
  }

  /** On any stream of datagrams, calling the blocking receive until it times out
      yields the results the callback path delivers for the same datagrams. */
  lemma {:induction false} SyncAgreesWithAsync<T>(sort: Sorter, parse: Bytes -> T, h: seq<Fragment>, socket: seq<Packet>)
    ensures Results(parse, Deployments(sort, After(h, socket)))
         == Results(parse, Deployments(sort, h)) + ReceiveAll(sort, parse, h, socket)
    decreases |socket|
  {
    var before := Results(parse, Deployments(sort, h));
    if socket == [] {
      assert before + [] == before;
    } else {
      var h' := h + [Parsed(socket[0])];
      ResultsStep(sort, parse, h, Parsed(socket[0]));
      ReceiveAllStep(sort, parse, h, socket, h');
      SyncAgreesWithAsync(sort, parse, h', socket[1..]);
      Associative(before, [LastResult(sort, parse, h')], ReceiveAll(sort, parse, h', socket[1..]));
    }
  }
}
