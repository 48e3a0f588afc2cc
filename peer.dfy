/** `selectPeer` of peer.js: for each sampled CID, ask the IPFS Cluster where
    it is pinned and pick one peer believed to hold it. */
module Peer {

  import opened Wrappers
  import opened Utils
  import opened Batching
  import opened Cids

  /** Requests for cluster pin statuses are capped at 120 CIDs: the request
      grows past the 8k request length limit at around 126 CIDs. */
  const MaxClusterStatusCids: nat := 120

  datatype Sample = Sample(cid: string)

  /** A sample after peer resolution; `peer` is `None` when no peer was found. */
  datatype PeeredSample = PeeredSample(cid: string, peer: Option<string>)

  /** One value of a status's `peerMap`: a cluster peer's pin state for the CID
      (`"pinned"`, `"pin_queued"`, `"remote"`, `"unpinned"`, ...). */
  datatype PinInfo = PinInfo(ipfsPeerId: string, status: string)

  /** A cluster status for one CID; `peerMap` holds `Object.values(peerMap)` in
      order. */
  datatype StatusReport = StatusReport(cid: string, peerMap: seq<PinInfo>)

  /** The cluster client: `statusAll` for a batch of CIDs and `status` for one.
      `None` stands for a request that throws. */
  datatype Cluster = Cluster(
    statusAll: seq<string> -> Option<seq<StatusReport>>,
    status: string -> Option<StatusReport>)

  /** The requests made to the cluster, in the order they are made. */
  datatype ClusterCall = StatusAll(cids: seq<string>) | Status(cid: string)

  /** What `selectPeer` works with: the cluster, the CID library, the optional
      elastic provider address and the successive results of `Math.random()`. */
  datatype Env = Env(
    cluster: Cluster,
    cids: CidLibrary,
    elasticProviderAddr: Option<string>,
    draws: nat -> real)

  /** The batch size actually used: a missing or zero request falls back to the
      cap, and any request is then clamped to at most the cap. `None` is an
      omitted argument. */
  function EffectiveBatchSize(batchSize: Option<int>): (size: int)
    ensures size <= MaxClusterStatusCids
    ensures batchSize.None? || batchSize == Some(0) ==> size == MaxClusterStatusCids
    ensures batchSize.Some? && 1 <= batchSize.value <= MaxClusterStatusCids ==> size == batchSize.value
    ensures batchSize.Some? && batchSize.value > MaxClusterStatusCids ==> size == MaxClusterStatusCids
    ensures batchSize.Some? && batchSize.value < 0 ==> size == batchSize.value
  {
    var requested := if batchSize.None? || batchSize.value == 0 then MaxClusterStatusCids as int else batchSize.value;
    if requested < MaxClusterStatusCids then requested else MaxClusterStatusCids
  }

  /** An elastic provider address is used only when it is a non-empty string. */
  predicate Truthy(addr: Option<string>)
  {
    addr.Some? && addr.value != ""
  }

  predicate AllUnpinned(infos: seq<PinInfo>)
  {
    forall i :: 0 <= i < |infos| ==> infos[i].status == "unpinned"
  }

  /** A pin is eligible unless it is held by another cluster peer (`remote`) or
      not yet fetched (`pin_queued`). */
  predicate Eligible(info: PinInfo)
  {
    info.status != "remote" && info.status != "pin_queued"
  }

  lemma PinnedAndUnpinnedAreEligible(id: string)
    ensures Eligible(PinInfo(id, "pinned")) && Eligible(PinInfo(id, "unpinned"))
    ensures !Eligible(PinInfo(id, "remote")) && !Eligible(PinInfo(id, "pin_queued"))
  {
  }

  predicate HasEligible(infos: seq<PinInfo>)
  {
    exists i :: 0 <= i < |infos| && Eligible(infos[i])
  }

  /** The eligible pin infos, in their original order. */
  function EligibleInfos(infos: seq<PinInfo>): (r: seq<PinInfo>)
    ensures |r| <= |infos|
    ensures forall i :: 0 <= i < |r| ==> Eligible(r[i]) && r[i] in infos
    ensures forall i :: 0 <= i < |infos| && Eligible(infos[i]) ==> infos[i] in r
  {
    if |infos| == 0 then []
    else
      var init := infos[..|infos| - 1];
      var last := infos[|infos| - 1];
      assert infos == init + [last];
      EligibleInfos(init) + (if Eligible(last) then [last] else [])
  }

  /** The filter keeps each eligible pin info as often as it occurs, and no
      other. */
  lemma {:induction false} EligibleInfosCount(infos: seq<PinInfo>)
    ensures forall x :: multiset(EligibleInfos(infos))[x] == if Eligible(x) then multiset(infos)[x] else 0
  {
    if |infos| > 0 {
      var init := infos[..|infos| - 1];
      assert infos == init + [infos[|infos| - 1]];
      EligibleInfosCount(init);
    }
  }

  /** The positions of the eligible pin infos, in order. */
  function EligiblePositions(infos: seq<PinInfo>): (pos: seq<nat>)
  {
    if |infos| == 0 then []
    else EligiblePositions(infos[..|infos| - 1]) +
         (if Eligible(infos[|infos| - 1]) then [|infos| - 1] else [])
  }

  /** The eligible positions increase and are exactly the positions of
      eligible pins. */
  lemma {:induction false} EligiblePositionsExact(infos: seq<PinInfo>)
    ensures var pos := EligiblePositions(infos);
            && (forall k :: 0 <= k < |pos| ==> pos[k] < |infos|)
            && (forall k, l :: 0 <= k < l < |pos| ==> pos[k] < pos[l])
            && (forall i :: 0 <= i < |infos| ==> (Eligible(infos[i]) <==> i in pos))
  {
    if |infos| > 0 {
      var n := |infos| - 1;
      var init := infos[..n];
      EligiblePositionsExact(init);
      var pos0 := EligiblePositions(init);
      var tail := if Eligible(infos[n]) then [n] else [];
      assert EligiblePositions(infos) == pos0 + tail;
      forall i | 0 <= i < |infos|
        ensures Eligible(infos[i]) <==> i in pos0 + tail
      {
        if i < n {
          assert infos[i] == init[i];
          assert i !in tail;
        } else {
          assert i !in pos0;
        }
      }
    }
  }

  /** The filter keeps the eligible pin infos in pin order: its `k`-th item is
      the pin at the `k`-th eligible position. With `EligiblePositionsExact`
      this fixes the filter's result. */
  lemma {:induction false} EligibleInfosInOrder(infos: seq<PinInfo>)
    ensures var r := EligibleInfos(infos);
            var pos := EligiblePositions(infos);
            && |r| == |pos|
            && (forall k :: 0 <= k < |pos| ==> pos[k] < |infos| && r[k] == infos[pos[k]])
  {
    if |infos| > 0 {
      var n := |infos| - 1;
      var init := infos[..n];
      EligibleInfosInOrder(init);
      var pos0 := EligiblePositions(init);
      var r0 := EligibleInfos(init);
      var pos := pos0 + (if Eligible(infos[n]) then [n] else []);
      var r := r0 + (if Eligible(infos[n]) then [infos[n]] else []);
      assert EligiblePositions(infos) == pos;
      assert EligibleInfos(infos) == r;
      forall k | 0 <= k < |pos|
        ensures pos[k] < |infos| && r[k] == infos[pos[k]]
      {
        if k < |pos0| {
          assert pos[k] == pos0[k] && r[k] == r0[k];
          assert infos[pos0[k]] == init[pos0[k]];
        }
      }
    }
  }

  lemma EligibleNonEmpty(infos: seq<PinInfo>)
    ensures |EligibleInfos(infos)| > 0 <==> HasEligible(infos)
  {
    var r := EligibleInfos(infos);
    if HasEligible(infos) {
      var k :| 0 <= k < |infos| && Eligible(infos[k]);
      assert infos[k] in r;
    }
    if |r| > 0 {
      assert r[0] in infos;
      var k :| 0 <= k < |infos| && infos[k] == r[0];
      assert Eligible(infos[k]);
    }
  }

  /** One `/p2p/` address per pin info, built from its IPFS peer id. */
  function PeerAddresses(infos: seq<PinInfo>): (addrs: seq<string>)
    ensures |addrs| == |infos|
  {
    seq(|infos|, i requires 0 <= i < |infos| => "/p2p/" + infos[i].ipfsPeerId)
  }

  /** The addresses a peer is picked from: one per eligible pin, then the
      elastic provider's when it is configured. */
  function Candidates(infos: seq<PinInfo>, elastic: Option<string>): (c: seq<string>)
    ensures |c| == |EligibleInfos(infos)| + (if Truthy(elastic) then 1 else 0)
    ensures Truthy(elastic) ==> c[|c| - 1] == elastic.value
  {
    PeerAddresses(EligibleInfos(infos)) + (if Truthy(elastic) then [elastic.value] else [])
  }

  /** `addr` is a peer `selectPeer` may emit for these pins: the `/p2p/`
      address of an eligible pin, or the elastic provider's address when some
      pin is eligible. */
  ghost predicate IsCandidate(addr: string, infos: seq<PinInfo>, elastic: Option<string>)
  {
    || (exists i :: 0 <= i < |infos| && Eligible(infos[i]) && addr == "/p2p/" + infos[i].ipfsPeerId)
    || (Truthy(elastic) && addr == elastic.value && HasEligible(infos))
  }

  lemma CandidatesSound(infos: seq<PinInfo>, elastic: Option<string>)
    ensures |Candidates(infos, elastic)| > 0 <==> HasEligible(infos) || Truthy(elastic)
    ensures HasEligible(infos) ==>
              forall j :: 0 <= j < |Candidates(infos, elastic)| ==>
                IsCandidate(Candidates(infos, elastic)[j], infos, elastic)
    ensures HasEligible(infos) && Truthy(elastic) ==>
              Candidates(infos, elastic)[|Candidates(infos, elastic)| - 1] == elastic.value
    // The eligible pins' addresses come first, one per filtered pin, in order.
    ensures forall k :: 0 <= k < |EligibleInfos(infos)| ==>
              Candidates(infos, elastic)[k] == "/p2p/" + EligibleInfos(infos)[k].ipfsPeerId
    // Every eligible pin's address is a candidate.
    ensures forall i :: 0 <= i < |infos| && Eligible(infos[i]) ==>
              "/p2p/" + infos[i].ipfsPeerId in Candidates(infos, elastic)
  {
    var eligible := EligibleInfos(infos);
    EligibleNonEmpty(infos);
    forall i | 0 <= i < |infos| && Eligible(infos[i])
      ensures "/p2p/" + infos[i].ipfsPeerId in Candidates(infos, elastic)
    {
      var k :| 0 <= k < |eligible| && eligible[k] == infos[i];
      assert Candidates(infos, elastic)[k] == "/p2p/" + infos[i].ipfsPeerId;
    }
    if HasEligible(infos) {
      forall j | 0 <= j < |Candidates(infos, elastic)|
        ensures IsCandidate(Candidates(infos, elastic)[j], infos, elastic)
      {
        if j < |eligible| {
          var info := eligible[j];
          assert Candidates(infos, elastic)[j] == "/p2p/" + info.ipfsPeerId;
          assert info in infos;
          var k :| 0 <= k < |infos| && infos[k] == info;
        }
      }
    }
  }

  /** The peer choice for a status that has some pin not reported unpinned:
      a candidate at a random index drawn uniformly below the number of candidates, or
      nothing when no pin is eligible. */
  function Pick(env: Env, held: StatusReport, r: real): (o: Option<PeeredSample>)
    requires 0.0 <= r < 1.0
    ensures o.Some? <==> HasEligible(held.peerMap)
    ensures o.Some? ==> o.value.cid == held.cid && o.value.peer.Some?
    ensures o.Some? ==> IsCandidate(o.value.peer.value, held.peerMap, env.elasticProviderAddr)
  {
    var eligible := EligibleInfos(held.peerMap);
    var peers := Candidates(held.peerMap, env.elasticProviderAddr);
    CandidatesSound(held.peerMap, env.elasticProviderAddr);
    EligibleNonEmpty(held.peerMap);
    if |eligible| == 0 then
      None
    else
      var index := RandomInt(0, |peers|, r);
      Some(PeeredSample(held.cid, Some(peers[index])))
  }

  /** The emitted peer is the candidate at index `randomInt(0, n)` for the `n`
      candidates. */
  lemma PickAtRandomIndex(env: Env, held: StatusReport, r: real)
    requires 0.0 <= r < 1.0 && HasEligible(held.peerMap)
    ensures var c := Candidates(held.peerMap, env.elasticProviderAddr);
            && |c| > 0
            && Pick(env, held, r) == Some(PeeredSample(held.cid, Some(c[RandomInt(0, |c|, r)])))
  {
    EligibleNonEmpty(held.peerMap);
  }

  /** The candidate at index `j` of `n` is picked for every fraction in
      `[j / n, (j + 1) / n)`, and the random index is `j` for those fractions
      only: every candidate gets an equal share of draws. */
  lemma PickShare(env: Env, held: StatusReport, r: real, j: nat)
    requires 0.0 <= r < 1.0 && HasEligible(held.peerMap)
    requires j < |Candidates(held.peerMap, env.elasticProviderAddr)|
    ensures var c := Candidates(held.peerMap, env.elasticProviderAddr);
            && (RandomInt(0, |c|, r) == j <==> j as real <= r * |c| as real < (j + 1) as real)
            && (j as real <= r * |c| as real < (j + 1) as real ==>
                  Pick(env, held, r) == Some(PeeredSample(held.cid, Some(c[j]))))
  {
    var n := |Candidates(held.peerMap, env.elasticProviderAddr)|;
    RandomIntPreimage(0, n, r, j);
    PickAtRandomIndex(env, held, r);
  }

  /** Every candidate, the elastic provider's address included, is picked for
      some draw: the one at index `j` for the fraction `j / n`. */
  lemma EveryCandidateReachable(env: Env, held: StatusReport, j: nat)
    requires HasEligible(held.peerMap)
    requires j < |Candidates(held.peerMap, env.elasticProviderAddr)|
    ensures var n := |Candidates(held.peerMap, env.elasticProviderAddr)|;
            var r := j as real / n as real;
            0.0 <= r < 1.0 &&
            Pick(env, held, r) == Some(PeeredSample(held.cid, Some(Candidates(held.peerMap, env.elasticProviderAddr)[j])))
  {
    var n := |Candidates(held.peerMap, env.elasticProviderAddr)|;
    RandomIntHits(0, n, j);
    EligibleNonEmpty(held.peerMap);
  }

  /** What one status of a `statusAll` reply leads to: the sample emitted (if
      any), the CID of the fallback `cluster.status` request (if one is made),
      whether a random draw was taken and whether the fallback request threw. */
  datatype Resolution = Resolution(emitted: Option<PeeredSample>, fallback: Option<string>, drew: bool, failed: bool)

  function Resolve(env: Env, status: StatusReport, r: real): (res: Resolution)
    requires 0.0 <= r < 1.0
    // A fallback request is made exactly when every pin (of possibly none) is
    // unpinned and the CID converts; it asks for the converted CID.
    ensures res.fallback == if AllUnpinned(status.peerMap) then ToOtherCidVersion(env.cids, status.cid) else None
    // Only the fallback request can throw, and then nothing is emitted.
    ensures res.failed <==> res.fallback.Some? && env.cluster.status(res.fallback.value).None?
    ensures res.failed ==> res.emitted.None?
    // A random draw is taken exactly when a peer is emitted.
    ensures res.drew <==> res.emitted.Some? && res.emitted.value.peer.Some?
    // A CID that does not convert is emitted without a peer, as it came.
    ensures AllUnpinned(status.peerMap) && res.fallback.None? ==>
              res.emitted == Some(PeeredSample(status.cid, None))
    // A status with a pin not reported unpinned is decided on its own pins.
    ensures !AllUnpinned(status.peerMap) ==> res.emitted == Pick(env, status, r)
    // After the fallback: without a peer under the reply's (converted) CID when
    // it is all unpinned too, otherwise decided on the reply's pins.
    ensures res.fallback.Some? && !res.failed ==>
              var reply := env.cluster.status(res.fallback.value).value;
              res.emitted == if AllUnpinned(reply.peerMap) then Some(PeeredSample(reply.cid, None))
                             else Pick(env, reply, r)
  {
    if AllUnpinned(status.peerMap) then
      match ToOtherCidVersion(env.cids, status.cid)
      case None => Resolution(Some(PeeredSample(status.cid, None)), None, false, false)
      case Some(other) =>
        match env.cluster.status(other)
        case None => Resolution(None, Some(other), false, true)
        case Some(reply) =>
          if AllUnpinned(reply.peerMap) then Resolution(Some(PeeredSample(reply.cid, None)), Some(other), false, false)
          else
            var o := Pick(env, reply, r);
            Resolution(o, Some(other), o.Some?, false)
    else
      var o := Pick(env, status, r);
      Resolution(o, None, o.Some?, false)
  }

  /** A status whose pins are all `remote` or `pin_queued` yields nothing: it is
      dropped, not emitted without a peer. */
  lemma NoEligiblePinDropsSample(env: Env, status: StatusReport, r: real)
    requires 0.0 <= r < 1.0
    requires !AllUnpinned(status.peerMap) && !HasEligible(status.peerMap)
    ensures Resolve(env, status, r) == Resolution(None, None, false, false)
  {
  }

  /** The state of a `selectPeer` run: samples emitted, cluster requests made,
      random draws taken, and whether a cluster request threw. */
  datatype Run = Run(out: seq<PeeredSample>, calls: seq<ClusterCall>, draws: nat, failed: bool)

  /** The run after one status led to `res`. */
  function Record(st: Run, res: Resolution): (next: Run)
  {
    Run(st.out + (if res.emitted.Some? then [res.emitted.value] else []),
        st.calls + (if res.fallback.Some? then [Status(res.fallback.value)] else []),
        st.draws + (if res.drew then 1 else 0),
        res.failed)
  }

  function StepStatus(env: Env, status: StatusReport, st: Run): (next: Run)
    requires ValidDraws(env.draws)
  {
    Record(st, Resolve(env, status, env.draws(st.draws)))
  }

  /** The statuses of one `statusAll` reply, handled in order until a request throws. */
  function RunStatuses(env: Env, statuses: seq<StatusReport>, st: Run): (final: Run)
    requires ValidDraws(env.draws)
    decreases |statuses|
  {
    if st.failed || |statuses| == 0 then st
    else RunStatuses(env, statuses[1..], StepStatus(env, statuses[0], st))
  }

  /** The batches, one `statusAll` request each, handled in order until a
      request throws. */
  function RunBatches(env: Env, batches: seq<seq<string>>, st: Run): (final: Run)
    requires ValidDraws(env.draws)
    decreases |batches|
  {
    if st.failed || |batches| == 0 then st
    else
      var asked := st.(calls := st.calls + [StatusAll(batches[0])]);
      match env.cluster.statusAll(batches[0])
      case None => asked.(failed := true)
      case Some(statuses) => RunBatches(env, batches[1..], RunStatuses(env, statuses, asked))
  }

  function CidsOf(source: seq<Sample>): (cids: seq<string>)
    ensures |cids| == |source| && forall i :: 0 <= i < |source| ==> cids[i] == source[i].cid
  {
    seq(|source|, i requires 0 <= i < |source| => source[i].cid)
  }

  function BatchesOf(batchSize: Option<int>, source: seq<Sample>): (batches: seq<seq<string>>)
  {
    Batches(CidsOf(source), ChunkSize(EffectiveBatchSize(batchSize)))
  }

  /** The whole `selectPeer` stage over a finite input. */
  function SelectPeerSpec(env: Env, batchSize: Option<int>, source: seq<Sample>): (run: Run)
    requires ValidDraws(env.draws)
  {
    RunBatches(env, BatchesOf(batchSize, source), Run([], [], 0, false))
  }

  /** The CIDs of the `statusAll` requests among `calls`, in order. */
  function BulkArgs(calls: seq<ClusterCall>): (asked: seq<seq<string>>)
  {
    if |calls| == 0 then []
    else BulkArgs(calls[..|calls| - 1]) +
         (if calls[|calls| - 1].StatusAll? then [calls[|calls| - 1].cids] else [])
  }

  /** One status adds at most one sample and at most one request, a
      `cluster.status` request. */
  lemma RecordAppends(st: Run, res: Resolution)
    ensures var next := Record(st, res);
            && |st.out| <= |next.out| <= |st.out| + 1 && next.out[..|st.out|] == st.out
            && |st.calls| <= |next.calls| <= |st.calls| + 1 && next.calls[..|st.calls|] == st.calls
            && (|next.calls| > |st.calls| ==> next.calls[|st.calls|].Status?)
            && BulkArgs(next.calls) == BulkArgs(st.calls)
  {
    var next := Record(st, res);
    if res.fallback.Some? {
      assert next.calls[..|next.calls| - 1] == st.calls;
    } else {
      assert next.calls == st.calls;
    }
  }

  /** Handling the statuses of one reply only appends: at most one sample per
      status, earlier samples kept. */
  lemma {:induction false} RunStatusesAppendsOut(env: Env, statuses: seq<StatusReport>, st: Run)
    requires ValidDraws(env.draws)
    ensures var r := RunStatuses(env, statuses, st);
            |st.out| <= |r.out| <= |st.out| + |statuses| && r.out[..|st.out|] == st.out
    decreases |statuses|
  {
    if !st.failed && |statuses| > 0 {
      var next := StepStatus(env, statuses[0], st);
      RecordAppends(st, Resolve(env, statuses[0], env.draws(st.draws)));
      RunStatusesAppendsOut(env, statuses[1..], next);
      var r := RunStatuses(env, statuses[1..], next);
      assert r.out[..|st.out|] == r.out[..|next.out|][..|st.out|];
    }
  }

  /** Handling the statuses of one reply makes at most one `cluster.status`
      request per status and no `statusAll` request. */
  lemma {:induction false} RunStatusesAppends(env: Env, statuses: seq<StatusReport>, st: Run)
    requires ValidDraws(env.draws)
    ensures var r := RunStatuses(env, statuses, st);
            && |st.calls| <= |r.calls| <= |st.calls| + |statuses| && r.calls[..|st.calls|] == st.calls
            && (forall i :: |st.calls| <= i < |r.calls| ==> r.calls[i].Status?)
            && BulkArgs(r.calls) == BulkArgs(st.calls)
    decreases |statuses|
  {
    if !st.failed && |statuses| > 0 {
      var next := StepStatus(env, statuses[0], st);
      RecordAppends(st, Resolve(env, statuses[0], env.draws(st.draws)));
      RunStatusesAppends(env, statuses[1..], next);
      var r := RunStatuses(env, statuses[1..], next);
      assert r.calls[..|st.calls|] == r.calls[..|next.calls|][..|st.calls|];
      assert forall i :: |st.calls| <= i < |next.calls| ==> r.calls[i] == next.calls[i];
    }
  }

  predicate IsPrefix<T(==)>(a: seq<T>, b: seq<T>)
  {
    |a| <= |b| && b[..|a|] == a
  }

  /** Exactly one `statusAll` request per batch, with that batch's CIDs, in
      batch order; a run cut short by a thrown request has made them for a
      non-empty prefix of the batches. */
  lemma {:induction false} RunBatchesQueries(env: Env, batches: seq<seq<string>>, st: Run)
    requires ValidDraws(env.draws) && !st.failed
    ensures IsPrefix(BulkArgs(RunBatches(env, batches, st).calls), BulkArgs(st.calls) + batches)
    ensures |batches| > 0 ==> |BulkArgs(RunBatches(env, batches, st).calls)| > |BulkArgs(st.calls)|
    ensures !RunBatches(env, batches, st).failed ==>
              BulkArgs(RunBatches(env, batches, st).calls) == BulkArgs(st.calls) + batches
    decreases |batches|
  {
    if |batches| > 0 {
      var asked := st.(calls := st.calls + [StatusAll(batches[0])]);
      assert asked.calls[..|asked.calls| - 1] == st.calls;
      assert BulkArgs(asked.calls) == BulkArgs(st.calls) + [batches[0]];
      assert BulkArgs(asked.calls) + batches[1..] == BulkArgs(st.calls) + batches;
      var reply := env.cluster.statusAll(batches[0]);
      if reply.Some? {
        var mid := RunStatuses(env, reply.value, asked);
        RunStatusesAppends(env, reply.value, asked);
        assert RunBatches(env, batches, st) == RunBatches(env, batches[1..], mid);
        if !mid.failed {
          RunBatchesQueries(env, batches[1..], mid);
        }
      }
    }
  }

  /** The batches of a `selectPeer` input hold 1 to 120 CIDs each and put
      together give the input's CIDs in order. */
  lemma BatchesOfInput(batchSize: Option<int>, source: seq<Sample>)
    ensures forall i :: 0 <= i < |BatchesOf(batchSize, source)| ==>
              1 <= |BatchesOf(batchSize, source)[i]| <= MaxClusterStatusCids
    ensures Flatten(BatchesOf(batchSize, source)) == CidsOf(source)
  {
    var size := ChunkSize(EffectiveBatchSize(batchSize));
    assert size <= MaxClusterStatusCids;
    BatchesSizes(CidsOf(source), size);
    BatchesFlatten(CidsOf(source), size);
  }

  /** For a whole `selectPeer` run: the `statusAll` requests carry batches of
      at most 120 CIDs, one request per batch, and when no request threw their
      CIDs put together are the input's CIDs in order. */
  lemma SelectPeerQueries(env: Env, batchSize: Option<int>, source: seq<Sample>)
    requires ValidDraws(env.draws)
    ensures var asked := BulkArgs(SelectPeerSpec(env, batchSize, source).calls);
            && (forall i :: 0 <= i < |asked| ==> 1 <= |asked[i]| <= MaxClusterStatusCids)
            && IsPrefix(asked, BatchesOf(batchSize, source))
    ensures !SelectPeerSpec(env, batchSize, source).failed ==>
              var asked := BulkArgs(SelectPeerSpec(env, batchSize, source).calls);
              asked == BatchesOf(batchSize, source) && Flatten(asked) == CidsOf(source)
  {
    var batches := BatchesOf(batchSize, source);
    var start := Run([], [], 0, false);
    RunBatchesQueries(env, batches, start);
    assert BulkArgs(start.calls) + batches == batches;
    BatchesOfInput(batchSize, source);
    PrefixBounded(BulkArgs(RunBatches(env, batches, start).calls), batches);
  }

  /** A prefix of a list of batches of 1 to 120 CIDs is made of such batches. */
  lemma PrefixBounded(asked: seq<seq<string>>, batches: seq<seq<string>>)
    requires IsPrefix(asked, batches)
    requires forall i :: 0 <= i < |batches| ==> 1 <= |batches[i]| <= MaxClusterStatusCids
    ensures forall i :: 0 <= i < |asked| ==> 1 <= |asked[i]| <= MaxClusterStatusCids
  {
    assert forall i :: 0 <= i < |asked| ==> asked[i] == batches[..|asked|][i];
  }

  /** The handling of one status of a `statusAll` reply, in the loop body of
      `selectPeer`; `r` is the fraction the random pick would use. */
  method ResolveStatus(env: Env, reported: StatusReport, r: real) returns (res: Resolution)
    requires 0.0 <= r < 1.0
    ensures res == Resolve(env, reported, r)
  {
    var status := reported;
    var pinInfos := status.peerMap;
    var fallback: Option<string> := None;
    if AllUnpinned(pinInfos) {
      var otherCid := ToOtherCidVersion(env.cids, status.cid);
      if otherCid.None? {
        return Resolution(Some(PeeredSample(status.cid, None)), None, false, false);
      }
      fallback := otherCid;
      var single := env.cluster.status(otherCid.value);
      if single.None? {
        return Resolution(None, fallback, false, true);
      }
      status := single.value;
      pinInfos := status.peerMap;
      if AllUnpinned(pinInfos) {
        return Resolution(Some(PeeredSample(status.cid, None)), fallback, false, false);
      }
    }
    var eligiblePinInfos := EligibleInfos(pinInfos);
    if |eligiblePinInfos| == 0 {
      return Resolution(None, fallback, false, false);
    }
    var eligiblePeers := PeerAddresses(eligiblePinInfos);
    if Truthy(env.elasticProviderAddr) {
      eligiblePeers := eligiblePeers + [env.elasticProviderAddr.value];
    }
    var index := RandomInt(0, |eligiblePeers|, r);
    res := Resolution(Some(PeeredSample(status.cid, Some(eligiblePeers[index]))), fallback, true, false);
  }

  /** The inner loop of `selectPeer`: the statuses of one `statusAll` reply,
      in order, until a `cluster.status` request throws. */
  method ResolveReply(env: Env, statuses: seq<StatusReport>, out0: seq<PeeredSample>, calls0: seq<ClusterCall>, k0: nat)
    returns (out: seq<PeeredSample>, calls: seq<ClusterCall>, k: nat, failed: bool)
    requires ValidDraws(env.draws)
    ensures Run(out, calls, k, failed) == RunStatuses(env, statuses, Run(out0, calls0, k0, false))
  {
    ghost var final := RunStatuses(env, statuses, Run(out0, calls0, k0, false));
    out, calls, k, failed := out0, calls0, k0, false;
    var j := 0;
    while j < |statuses|
      invariant 0 <= j <= |statuses|
      invariant RunStatuses(env, statuses[j..], Run(out, calls, k, false)) == final
    {
      assert statuses[j..][1..] == statuses[j + 1..];
      ghost var next := StepStatus(env, statuses[j], Run(out, calls, k, false));
      var res := ResolveStatus(env, statuses[j], env.draws(k));
      if res.fallback.Some? {
        calls := calls + [Status(res.fallback.value)];
      }
      if res.failed {
        failed := true;
        return;
      }
      if res.emitted.Some? {
        out := out + [res.emitted.value];
      }
      if res.drew {
        k := k + 1;
      }
      assert Run(out, calls, k, false) == next;
      j := j + 1;
    }
  }

  /** `selectPeer(cluster, batchSize, options)` applied to a finite `source`.
      Returns the samples yielded, the cluster requests made, and whether a
      cluster request threw (which ends the stream). */
  method SelectPeer(env: Env, batchSize: Option<int>, source: seq<Sample>)
    returns (out: seq<PeeredSample>, calls: seq<ClusterCall>, failed: bool)
    requires ValidDraws(env.draws)
    ensures var r := SelectPeerSpec(env, batchSize, source);
            out == r.out && calls == r.calls && failed == r.failed
    ensures forall i :: 0 <= i < |BulkArgs(calls)| ==> 1 <= |BulkArgs(calls)[i]| <= MaxClusterStatusCids
    ensures !failed ==> BulkArgs(calls) == BatchesOf(batchSize, source) && Flatten(BulkArgs(calls)) == CidsOf(source)
  {
    SelectPeerQueries(env, batchSize, source);
    var size := EffectiveBatchSize(batchSize);
    var batches := Batches(CidsOf(source), ChunkSize(size));
    ghost var final := RunBatches(env, batches, Run([], [], 0, false));
    out, calls, failed := [], [], false;
    var k: nat := 0;
    var i := 0;
    while i < |batches|
      invariant 0 <= i <= |batches|
      invariant RunBatches(env, batches[i..], Run(out, calls, k, false)) == final
    {
      var samples := batches[i];
      assert batches[i..][1..] == batches[i + 1..];
      calls := calls + [StatusAll(samples)];
      var statuses := env.cluster.statusAll(samples);
      if statuses.None? {
        failed := true;
        return;
      }
      out, calls, k, failed := ResolveReply(env, statuses.value, out, calls, k);
      if failed {
        return;
      }
      i := i + 1;
    }
  }
}
