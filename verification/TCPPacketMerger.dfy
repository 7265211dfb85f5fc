/** Rebuilding a CoLa2 packet from the chunks in which TCP delivers it. */
module TCPPacketMerger {
  import opened ReadWriteHelper
  import opened Telegram

  /** The completion test: the 32-bit remainder of the target equals the new chunk's length. */
  predicate Fits(target: nat, have: nat, length: nat) {
    (target - have % 0x1_0000_0000) % 0x1_0000_0000 == length
  }

  class TCPPacketMerger {
    var isComplete: bool
    var deployed: Option<Bytes>
    var buffers: seq<Bytes>
    var targetSize: nat

    constructor (targetSize: nat)
      ensures !isComplete && deployed == None && buffers == [] && this.targetSize == targetSize
    {
      isComplete, deployed, buffers := false, None, [];
      this.targetSize := targetSize;
    }

    predicate IsEmpty()
      reads this
    {
      buffers == []
    }

    method SetTargetSize(size: nat)
      modifies this`targetSize
      ensures targetSize == size
    {
      targetSize := size;
    }

    method GetDeployedPacketBuffer() returns (r: Option<Bytes>)
      modifies this`isComplete
      ensures !isComplete && r == deployed
    {
      isComplete := false;
      r := deployed;
    }

    method AddTCPPacket(chunk: Bytes) returns (r: bool)
      modifies this`isComplete, this`deployed, this`buffers
      ensures r == isComplete == Fits(targetSize, |Concat(old(buffers))|, |chunk|)
      ensures deployed == if r then Some(Concat(old(buffers)) + chunk) else old(deployed)
      ensures buffers == if r then [] else old(buffers) + [chunk]
    {
      if isComplete {
        isComplete := false;
      }
      AddToMap(chunk);
      ConcatSnoc(old(buffers), chunk);
      if isComplete {
        DeployPacket();
      }
      r := isComplete;
    }

    method AddToMap(chunk: Bytes)
      modifies this`isComplete, this`buffers
      ensures buffers == old(buffers) + [chunk]
      ensures isComplete == (old(isComplete) || Fits(targetSize, |Concat(old(buffers))|, |chunk|))
    {
      var size := GetCurrentSize();
      var currentSize: uint32 := size % 0x1_0000_0000;
      var remainingSize: uint32 := (targetSize - currentSize) % 0x1_0000_0000;
      buffers := buffers + [chunk];
      if remainingSize == |chunk| {
        isComplete := true;
      }
    }

    method GetCurrentSize() returns (sum: nat)
      ensures sum == |Concat(buffers)|
    {
      sum := 0;
      for i := 0 to |buffers|
        invariant sum == |Concat(buffers[..i])|
      {
        assert buffers[..i + 1][..i] == buffers[..i];
        sum := sum + |buffers[i]|;
      }
      assert buffers[..|buffers|] == buffers;
    }

    method DeployPacket()
      modifies this`deployed, this`buffers
      ensures deployed == Some(Concat(old(buffers))) && buffers == []
    {
      var bytes: Bytes := [];
      for i := 0 to |buffers|
        invariant bytes == Concat(buffers[..i])
      {
        assert buffers[..i + 1][..i] == buffers[..i];
        bytes := bytes + buffers[i];
      }
      assert buffers[..|buffers|] == buffers;
      deployed := Some(bytes);
      buffers := [];
    }
  }

  // ---- Receiving one packet ----

  /** What one call of the socket's receive yields. A timeout closes the socket. */
  datatype Delivery = Chunk(bytes: Bytes) | Timeout

  datatype ReceiveOutcome = Received(packet: Bytes, rest: seq<Delivery>) | TimedOut(rest: seq<Delivery>)

  /** The loop from a state with `have` bytes buffered, over the coming deliveries. */
  function Assemble(target: nat, have: Bytes, script: seq<Delivery>): (r: ReceiveOutcome)
    ensures |r.rest| <= |script| && (script != [] ==> |r.rest| < |script|)
    decreases |script|
  {
    if script == [] then TimedOut([])
    else
      match script[0]
      case Timeout => TimedOut(script[1..])
      case Chunk(c) =>
        if Fits(target, |have|, |c|) then Received(have + c, script[1..])
        else Assemble(target, have + c, script[1..])
  }

  /** The first chunk must reach to the end of the length field. */
  predicate FirstChunkReadable(script: seq<Delivery>) {
    script != [] && script[0].Chunk? ==> 8 <= |script[0].bytes|
  }

  function ReceiveResponse(script: seq<Delivery>): (r: ReceiveOutcome)
    requires FirstChunkReadable(script)
    ensures |r.rest| <= |script| && (script != [] ==> |r.rest| < |script|)
  {
    if script == [] then TimedOut([])
    else
      match script[0]
      case Timeout => TimedOut(script[1..])
      case Chunk(c) => Assemble(ExpectedPacketLength(c), [], script)
  }

  function Chunks(cs: seq<Bytes>): seq<Delivery> {
    seq(|cs|, i requires 0 <= i < |cs| => Chunk(cs[i]))
  }

  /** Whether the loop completes with the chunk at index `i`. */
  predicate FitsAt(target: nat, cs: seq<Bytes>, i: nat)
    requires i < |cs|
  {
    Fits(target, |Concat(cs[..i])|, |cs[i]|)
  }

  /** The loop passes over a run of chunks none of which completes the packet. */
  lemma {:induction false} AssembleSkips(target: nat, cs: seq<Bytes>, n: nat, script: seq<Delivery>)
    requires n <= |cs| && forall i :: 0 <= i < n ==> !FitsAt(target, cs, i)
    ensures Assemble(target, [], Chunks(cs[..n]) + script) == Assemble(target, Concat(cs[..n]), script)
  {
    if n == 0 {
      assert Chunks(cs[..0]) + script == script;
    } else {
      var c := cs[n - 1];
      AssembleSkips(target, cs, n - 1, [Chunk(c)] + script);
      assert Chunks(cs[..n]) + script == Chunks(cs[..n - 1]) + ([Chunk(c)] + script);
      assert cs[..n] == cs[..n - 1] + [c];
      ConcatSnoc(cs[..n - 1], c);
      assert !FitsAt(target, cs, n - 1);
    }
  }

  lemma AssembleStops(target: nat, cs: seq<Bytes>, n: nat, script: seq<Delivery>)
    requires n < |cs| && FitsAt(target, cs, n) && forall i :: 0 <= i < n ==> !FitsAt(target, cs, i)
    ensures Assemble(target, [], Chunks(cs) + script) == Received(Concat(cs[..n + 1]), Chunks(cs[n + 1..]) + script)
  {
    var after := Chunks(cs[n + 1..]) + script;
    AssembleSkips(target, cs, n, [Chunk(cs[n])] + after);
    assert Chunks(cs) + script == Chunks(cs[..n]) + ([Chunk(cs[n])] + after);
    assert cs[..n + 1] == cs[..n] + [cs[n]];
    ConcatSnoc(cs[..n], cs[n]);
  }

  lemma {:induction false} ConcatGrows(cs: seq<Bytes>, i: nat, j: nat)
    requires i <= j <= |cs| && forall k :: i <= k < j ==> cs[k] != []
    ensures |Concat(cs[..i])| <= |Concat(cs[..j])|
    ensures i < j ==> |Concat(cs[..i])| < |Concat(cs[..j])|
    decreases j
  {
    if i < j {
      ConcatGrows(cs, i, j - 1);
      assert cs[..j][..j - 1] == cs[..j - 1];
    }
  }

  /** The loop returns exactly the given chunks, and leaves exactly what comes
      after them, if and only if the last of them is the first that fits. */
  lemma StopsAfterLastIff(target: nat, cs: seq<Bytes>, script: seq<Delivery>)
    requires cs != [] && forall i :: 0 <= i < |cs| ==> cs[i] != []
    ensures Assemble(target, [], Chunks(cs) + script) == Received(Concat(cs), script)
       <==> FitsAt(target, cs, |cs| - 1) && forall i :: 0 <= i < |cs| - 1 ==> !FitsAt(target, cs, i)
  {
    if n: nat :| n < |cs| && FitsAt(target, cs, n) {
      var m := FirstFit(target, cs, n);
      AssembleStops(target, cs, m, script);
      assert cs[..|cs|] == cs;
      ConcatGrows(cs, m + 1, |cs|);
      if m == |cs| - 1 {
        assert cs[m + 1..] == [] && Chunks([]) + script == script;
      }
    } else {
      AssembleSkips(target, cs, |cs|, script);
      assert cs[..|cs|] == cs;
      assert !FitsAt(target, cs, |cs| - 1);
    }
  }

  lemma FirstFit(target: nat, cs: seq<Bytes>, n: nat) returns (m: nat)
    requires n < |cs| && FitsAt(target, cs, n)
    ensures m <= n && FitsAt(target, cs, m) && forall i :: 0 <= i < m ==> !FitsAt(target, cs, i)
  {
    m := 0;
    while !FitsAt(target, cs, m)
      invariant m <= n && forall i :: 0 <= i < m ==> !FitsAt(target, cs, i)
      decreases n - m
    {
      m := m + 1;
    }
  }

  lemma FitsBelowTarget(target: nat, have: nat, length: nat)
    requires have < target < 0x1_0000_0000
    ensures Fits(target, have, length) <==> have + length == target
  {
  }

  /** Any telegram whose length field is right, split into non-empty chunks of
      which the first reaches the end of the length field, comes back whole: the
      loop ends with the last chunk and takes nothing beyond it. */
  lemma TelegramReassembly(t: Bytes, cs: seq<Bytes>, script: seq<Delivery>)
    requires 8 <= |t| && ExpectedPacketLength(t) == |t|
    requires Concat(cs) == t && cs != [] && 8 <= |cs[0]| && forall i :: 0 <= i < |cs| ==> cs[i] != []
    ensures FirstChunkReadable(Chunks(cs) + script)
    ensures ReceiveResponse(Chunks(cs) + script) == Received(t, script)
  {
    FirstChunkIsPrefix(cs);
    assert ExpectedPacketLength(cs[0]) == |t|;
    forall i | 0 <= i < |cs| ensures FitsAt(|t|, cs, i) <==> i == |cs| - 1 {
      FitsAtEndOnly(cs, i);
    }
    StopsAfterLastIff(|t|, cs, script);
    assert (Chunks(cs) + script)[0] == Chunk(cs[0]);
  }

  lemma FitsAtEndOnly(cs: seq<Bytes>, i: nat)
    requires i < |cs| && |Concat(cs)| < 0x1_0000_0000
    requires forall k :: 0 <= k < |cs| ==> cs[k] != []
    ensures FitsAt(|Concat(cs)|, cs, i) <==> i == |cs| - 1
  {
    assert cs[..|cs|] == cs;
    ConcatGrows(cs, i, |cs|);
    ConcatGrows(cs, i + 1, |cs|);
    assert cs[..i + 1] == cs[..i] + [cs[i]];
    ConcatSnoc(cs[..i], cs[i]);
    FitsBelowTarget(|Concat(cs)|, |Concat(cs[..i])|, |cs[i]|);
  }

  lemma {:induction false} FirstChunkIsPrefix(cs: seq<Bytes>)
    requires cs != []
    ensures |cs[0]| <= |Concat(cs)| && Concat(cs)[..|cs[0]|] == cs[0]
    ensures forall k :: 0 <= k < |cs[0]| ==> Concat(cs)[k] == cs[0][k]
  {
    if |cs| == 1 {
      assert cs[..0] == [];
    } else {
      FirstChunkIsPrefix(cs[..|cs| - 1]);
    }
  }

  /** Whatever arrives, a packet handed out has the expected length modulo 2^32:
      chunks that run past the end of a telegram never complete it early. */
  lemma {:induction false} ReceivedLength(target: nat, have: Bytes, script: seq<Delivery>)
    ensures var r := Assemble(target, have, script);
            r.Received? ==> |r.packet| % 0x1_0000_0000 == target % 0x1_0000_0000
    decreases |script|
  {
    if script != [] && script[0].Chunk? {
      FitsCongruent(target, |have|, |script[0].bytes|);
      ReceivedLength(target, have + script[0].bytes, script[1..]);
    }
  }

  lemma FitsCongruent(target: nat, have: nat, length: nat)
    ensures Fits(target, have, length) ==> (have + length) % 0x1_0000_0000 == target % 0x1_0000_0000
  {
  }
}
