/** `checkCid` of check.js: one IPFS Check request per peered sample. */
module Check {

  import opened Wrappers
  import opened Peer

  datatype BitswapResult = BitswapResult(duration: nat, found: bool, responded: bool, error: string)

  /** The JSON body the IPFS Check service answers with; `duration` is in
      nanoseconds. */
  datatype CheckResult = CheckResult(
    connectionError: string,
    peerFoundInDHT: map<string, int>,
    cidInDHT: bool,
    dataAvailableOverBitswap: BitswapResult)

  /** A peered sample with the check result attached. */
  datatype CheckedSample = CheckedSample(cid: string, peer: Option<string>, result: CheckResult)

  /** `checker.check(cid, multiaddr)` as the `n`-th request of the stage
      (counting from 0); `None` stands for a request that throws (a network
      error, a non-2xx answer, the timeout abort). The request number lets two
      identical requests get different answers, as a network call can. */
  type Checker = (nat, string, string) -> Option<CheckResult>

  datatype CheckCall = CheckCall(cid: string, multiaddr: string)

  /** The multiaddr argument: `/p2p/` followed by the sample's peer, which a
      sample without a peer renders as `undefined`. */
  function Multiaddr(peer: Option<string>): (addr: string)
    ensures |addr| >= 5 && addr[..5] == "/p2p/"
    ensures peer.Some? ==> addr[5..] == peer.value
    ensures peer.None? ==> addr == "/p2p/undefined"
  {
    "/p2p/" + (if peer.Some? then peer.value else "undefined")
  }

  /** peer.js already emits `/p2p/<id>`, so the check is asked about
      `/p2p//p2p/<id>`. */
  lemma PeerPrefixedTwice(id: string)
    ensures Multiaddr(Some("/p2p/" + id)) == "/p2p//p2p/" + id
  {
  }

  /** The sample with the check result added to its fields. */
  function Attach(sample: PeeredSample, result: CheckResult): (c: CheckedSample)
    ensures c.cid == sample.cid && c.peer == sample.peer && c.result == result
  {
    CheckedSample(sample.cid, sample.peer, result)
  }

  /** What the stage yields for the input at position `n`: the checked sample,
      or nothing when the check throws. */
  function CheckOne(check: Checker, n: nat, sample: PeeredSample): (yielded: seq<CheckedSample>)
  {
    match check(n, sample.cid, Multiaddr(sample.peer))
    case None => []
    case Some(result) => [Attach(sample, result)]
  }

  /** The stage's output over a finite input. */
  function Checked(check: Checker, source: seq<PeeredSample>): (out: seq<CheckedSample>)
  {
    if |source| == 0 then []
    else Checked(check, source[..|source| - 1]) + CheckOne(check, |source| - 1, source[|source| - 1])
  }

  /** The check of the input at position `n` answers. */
  predicate Succeeds(check: Checker, n: nat, sample: PeeredSample)
  {
    check(n, sample.cid, Multiaddr(sample.peer)).Some?
  }

  /** The positions of the inputs whose check succeeded, in order. */
  function Kept(check: Checker, source: seq<PeeredSample>): (kept: seq<nat>)
  {
    if |source| == 0 then []
    else Kept(check, source[..|source| - 1]) +
         (if Succeeds(check, |source| - 1, source[|source| - 1]) then [|source| - 1] else [])
  }

  /** The kept positions are strictly increasing positions of the input whose
      check succeeded. */
  lemma {:induction false} KeptPositions(check: Checker, source: seq<PeeredSample>)
    ensures var kept := Kept(check, source);
            && |kept| <= |source|
            && (forall k :: 0 <= k < |kept| ==> kept[k] < |source| && Succeeds(check, kept[k], source[kept[k]]))
            && (forall k, l :: 0 <= k < l < |kept| ==> kept[k] < kept[l])
  {
    if |source| > 0 {
      var init := source[..|source| - 1];
      KeptPositions(check, init);
      var initKept := Kept(check, init);
      assert forall k :: 0 <= k < |initKept| ==> source[initKept[k]] == init[initKept[k]];
    }
  }

  /** Every input whose check succeeds is kept. */
  lemma {:induction false} KeptComplete(check: Checker, source: seq<PeeredSample>, i: nat)
    requires i < |source| && Succeeds(check, i, source[i])
    ensures i in Kept(check, source)
  {
    var init := source[..|source| - 1];
    if i < |source| - 1 {
      assert source[i] == init[i];
      KeptComplete(check, init, i);
    }
  }

  /** The `k`-th output is the input at position `Kept[k]` with its check
      result attached, all other fields unchanged. */
  lemma {:induction false} CheckedAtKept(check: Checker, source: seq<PeeredSample>)
    ensures var out := Checked(check, source);
            var kept := Kept(check, source);
            && |out| == |kept|
            && (forall k :: 0 <= k < |kept| && kept[k] < |source| ==>
                  out[k] == Attach(source[kept[k]], out[k].result) &&
                  check(kept[k], source[kept[k]].cid, Multiaddr(source[kept[k]].peer)) == Some(out[k].result))
  {
    if |source| > 0 {
      var init := source[..|source| - 1];
      CheckedAtKept(check, init);
      KeptPositions(check, init);
      var initKept := Kept(check, init);
      assert forall k :: 0 <= k < |initKept| ==> source[initKept[k]] == init[initKept[k]];
    }
  }

  /** The output is an order-preserving subsequence of the input, made of
      exactly the inputs whose check succeeded. */
  lemma CheckedIsSubsequence(check: Checker, source: seq<PeeredSample>)
    ensures var out := Checked(check, source);
            var kept := Kept(check, source);
            && |out| == |kept| <= |source|
            && (forall k, l :: 0 <= k < l < |kept| ==> kept[k] < kept[l])
            && (forall k :: 0 <= k < |kept| ==>
                  (&& kept[k] < |source|
                   && out[k] == Attach(source[kept[k]], out[k].result)
                   && check(kept[k], source[kept[k]].cid, Multiaddr(source[kept[k]].peer)) == Some(out[k].result)))
            && (forall i :: 0 <= i < |source| ==> (Succeeds(check, i, source[i]) <==> i in kept))
  {
    KeptPositions(check, source);
    CheckedAtKept(check, source);
    var kept := Kept(check, source);
    forall i | 0 <= i < |source|
      ensures Succeeds(check, i, source[i]) <==> i in kept
    {
      if Succeeds(check, i, source[i]) {
        KeptComplete(check, source, i);
      }
    }
  }

  /** The number of inputs whose check throws. */
  function Failures(check: Checker, source: seq<PeeredSample>): (failures: nat)
  {
    if |source| == 0 then 0
    else Failures(check, source[..|source| - 1]) + (if Succeeds(check, |source| - 1, source[|source| - 1]) then 0 else 1)
  }

  /** Every input is either yielded once or dropped: a throwing check drops
      that sample and processing goes on. */
  lemma {:induction false} CheckedLength(check: Checker, source: seq<PeeredSample>)
    ensures |Checked(check, source)| + Failures(check, source) == |source|
  {
    if |source| > 0 {
      CheckedLength(check, source[..|source| - 1]);
    }
  }

  /** `checkCid(checker)` applied to a finite `source`: returns the samples
      yielded and the requests made of the checker. */
  method CheckCid(check: Checker, source: seq<PeeredSample>) returns (out: seq<CheckedSample>, calls: seq<CheckCall>)
    ensures |calls| == |source|
    ensures forall i :: 0 <= i < |source| ==> calls[i] == CheckCall(source[i].cid, Multiaddr(source[i].peer))
    ensures out == Checked(check, source)
  {
    out, calls := [], [];
    var i := 0;
    while i < |source|
      invariant 0 <= i <= |source|
      invariant |calls| == i
      invariant forall j :: 0 <= j < i ==> calls[j] == CheckCall(source[j].cid, Multiaddr(source[j].peer))
      invariant out == Checked(check, source[..i])
    {
      var sample := source[i];
      assert source[..i + 1][..i] == source[..i];
      var multiaddr := Multiaddr(sample.peer);
      calls := calls + [CheckCall(sample.cid, multiaddr)];
      var result := check(i, sample.cid, multiaddr);
      if result.Some? {
        var checkedSample := Attach(sample, result.value);
        out := out + [checkedSample];
      }
      i := i + 1;
    }
    assert source[..i] == source;
  }
}
