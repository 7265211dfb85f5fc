/** The measurement path end to end: datagrams of interleaved instances, the
    fragment merger, the packet parser, and both ways of handing out the results. */
module ScanDelivery {
  import opened ReadWriteHelper
  import opened UDPPacketMerger
  import opened MeasurementStream
  import opened ScannerDrivers
  import opened CheckedParsing

  /** The datagrams in the socket are those of the stream, in order of arrival. */
  ghost predicate Carries(socket: seq<Packet>, s: seq<Arrival>) {
    After([], socket) == Fragments(s)
  }

  /** On any interleaving of measurement instances, blocking receives and the
      callback both hand out the parsed payloads of exactly the completed
      instances, each once and in order of completion. */
  lemma CompletedInstancesDelivered(sort: Sorter, ms: seq<Instance>, s: seq<Arrival>, socket: seq<Packet>)
    requires CorrectSort(sort) && IsStream(ms, s) && Carries(socket, s)
    ensures ReceiveAll(sort, CheckedScan, [], socket) == Results(CheckedScan, Completions(ms, s))
    ensures Results(CheckedScan, Deployments(sort, After([], socket))) == Results(CheckedScan, Completions(ms, s))
  {
    SyncAgreesWithAsync(sort, CheckedScan, [], socket);
    WholeRunReassembly(sort, ms, s);
    var all := ReceiveAll(sort, CheckedScan, [], socket);
    assert Results(CheckedScan, Deployments(sort, [])) + all == all;
  }
}
