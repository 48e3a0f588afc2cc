/** prom.js: the Prometheus counters and `recordMetrics`, the stage that folds
    each checked sample into them and passes it on. */
module Prom {

  import opened Wrappers
  import opened Check

  datatype CounterSpec = CounterSpec(name: string, help: string, labelNames: seq<string>)

  datatype Registry = Registry(
    samplesTotal: CounterSpec,
    connectionErrorsTotal: CounterSpec,
    dhtProviderRecordsTotal: CounterSpec,
    bitswapHaveDurationSeconds: CounterSpec)

  /** The namespace `createRegistry` uses when it is given none. */
  const DefaultNamespace: string := "checkup"

  /** The counters' help texts. */
  const SamplesHelp: string := "Number of random samples taken by peer ID."
  const ConnectionErrorsHelp: string := "Number of samples taken where we were not able to connect to the target peer."
  const DhtHelp: string := "Provider records found or not found by peer ID."
  const BitswapHelp: string := "Time taken to check the peer HAS the sample CID over bitswap by peer ID."

  /** `createRegistry(ns = 'checkup')`: the four counters and their labels.
      Only an omitted argument takes the default; an empty string is kept. */
  function CreateRegistry(ns: Option<string>): (r: Registry)
    ensures var prefix := if ns.Some? then ns.value else DefaultNamespace;
            && r.samplesTotal.name == prefix + "_samples_total"
            && r.connectionErrorsTotal.name == prefix + "_connection_errors_total"
            && r.dhtProviderRecordsTotal.name == prefix + "_dht_provider_records_total"
            && r.bitswapHaveDurationSeconds.name == prefix + "_bitswap_have_duration_seconds"
    ensures && r.samplesTotal.labelNames == ["peer"]
            && r.connectionErrorsTotal.labelNames == ["peer"]
            && r.dhtProviderRecordsTotal.labelNames == ["peer", "found"]
            && r.bitswapHaveDurationSeconds.labelNames == ["peer", "responded", "found"]
  {
    var prefix := if ns.Some? then ns.value else DefaultNamespace;
    Registry(
      CounterSpec(prefix + "_samples_total",
                  SamplesHelp, ["peer"]),
      CounterSpec(prefix + "_connection_errors_total",
                  ConnectionErrorsHelp, ["peer"]),
      CounterSpec(prefix + "_dht_provider_records_total",
                  DhtHelp, ["peer", "found"]),
      CounterSpec(prefix + "_bitswap_have_duration_seconds",
                  BitswapHelp, ["peer", "responded", "found"]))
  }

  /** Whatever the namespace, the four metric names are distinct, so they can
      be registered side by side. */
  lemma RegistryNamesDistinct(ns: Option<string>)
    ensures var r := CreateRegistry(ns);
            var names := [r.samplesTotal.name, r.connectionErrorsTotal.name,
                          r.dhtProviderRecordsTotal.name, r.bitswapHaveDurationSeconds.name];
            forall i, j :: 0 <= i < j < 4 ==> names[i] != names[j]
  {
    var r := CreateRegistry(ns);
    var names := [r.samplesTotal.name, r.connectionErrorsTotal.name,
                  r.dhtProviderRecordsTotal.name, r.bitswapHaveDurationSeconds.name];
    var p := |if ns.Some? then ns.value else DefaultNamespace|;
    assert |names[0]| == p + 14 && |names[1]| == p + 24;
    assert |names[2]| == p + 27 && |names[3]| == p + 30;
  }

  /** The `peer` label; a sample without a peer is counted under an absent label. */
  type PeerLabel = Option<string>

  /** The counters' values. The duration counter is kept in nanoseconds. */
  datatype Counters = Counters(
    samplesTotal: map<PeerLabel, nat>,
    connectionErrorsTotal: map<PeerLabel, nat>,
    dhtProviderRecordsTotal: map<(PeerLabel, bool), nat>,
    bitswapHaveDurationNanos: map<(PeerLabel, bool, bool), nat>)

  const NoCounts: Counters := Counters(map[], map[], map[], map[])

  /** A counter's value for a label set; one never incremented reads as zero. */
  function Get<K>(m: map<K, nat>, k: K): (v: nat)
  {
    if k in m then m[k] else 0
  }

  /** Adds `amount` to the counter under the label set `k`. */
  function Inc<K(!new)>(m: map<K, nat>, k: K, amount: nat): (m': map<K, nat>)
    ensures Get(m', k) == Get(m, k) + amount
    ensures forall j :: j != k ==> Get(m', j) == Get(m, j)
  {
    m[k := Get(m, k) + amount]
  }

  /** The connection failed: the result's connection error is a non-empty string. */
  predicate ConnectionFailed(result: CheckResult)
  {
    result.connectionError != ""
  }

  function BitswapLabels(s: CheckedSample): (labels: (PeerLabel, bool, bool))
  {
    (s.peer, s.result.dataAvailableOverBitswap.responded, s.result.dataAvailableOverBitswap.found)
  }

  /** The counter updates for one sample. */
  function RecordSample(c: Counters, s: CheckedSample): (d: Counters)
    // every sample counts once under its peer, and once under its peer and whether the DHT had a provider record
    ensures Get(d.samplesTotal, s.peer) == Get(c.samplesTotal, s.peer) + 1
    ensures forall p :: p != s.peer ==> Get(d.samplesTotal, p) == Get(c.samplesTotal, p)
    ensures Get(d.dhtProviderRecordsTotal, (s.peer, s.result.cidInDHT)) ==
            Get(c.dhtProviderRecordsTotal, (s.peer, s.result.cidInDHT)) + 1
    ensures forall l :: l != (s.peer, s.result.cidInDHT) ==>
              Get(d.dhtProviderRecordsTotal, l) == Get(c.dhtProviderRecordsTotal, l)
    // then exactly one of the connection error and duration counters moves
    ensures ConnectionFailed(s.result) ==>
              && d.bitswapHaveDurationNanos == c.bitswapHaveDurationNanos
              && Get(d.connectionErrorsTotal, s.peer) == Get(c.connectionErrorsTotal, s.peer) + 1
              && forall p :: p != s.peer ==> Get(d.connectionErrorsTotal, p) == Get(c.connectionErrorsTotal, p)
    ensures !ConnectionFailed(s.result) ==>
              && d.connectionErrorsTotal == c.connectionErrorsTotal
              && Get(d.bitswapHaveDurationNanos, BitswapLabels(s)) ==
                 Get(c.bitswapHaveDurationNanos, BitswapLabels(s)) + s.result.dataAvailableOverBitswap.duration
              && forall l :: l != BitswapLabels(s) ==>
                   Get(d.bitswapHaveDurationNanos, l) == Get(c.bitswapHaveDurationNanos, l)
  {
    var counted := c.(samplesTotal := Inc(c.samplesTotal, s.peer, 1),
                      dhtProviderRecordsTotal := Inc(c.dhtProviderRecordsTotal, (s.peer, s.result.cidInDHT), 1));
    if ConnectionFailed(s.result) then
      counted.(connectionErrorsTotal := Inc(c.connectionErrorsTotal, s.peer, 1))
    else
      counted.(bitswapHaveDurationNanos := Inc(c.bitswapHaveDurationNanos, BitswapLabels(s),
                                               s.result.dataAvailableOverBitswap.duration))
  }

  /** The counters after a finite stream of samples. */
  function RecordAll(c: Counters, source: seq<CheckedSample>): (d: Counters)
  {
    if |source| == 0 then c
    else RecordSample(RecordAll(c, source[..|source| - 1]), source[|source| - 1])
  }

  /** The number of samples with this peer. */
  function SamplesFor(source: seq<CheckedSample>, p: PeerLabel): (count: nat)
  {
    if |source| == 0 then 0
    else SamplesFor(source[..|source| - 1], p) + (if source[|source| - 1].peer == p then 1 else 0)
  }

  /** The number of samples with this peer and this `CidInDHT`. */
  function DhtFor(source: seq<CheckedSample>, p: PeerLabel, found: bool): (count: nat)
  {
    if |source| == 0 then 0
    else
      var s := source[|source| - 1];
      DhtFor(source[..|source| - 1], p, found) + (if s.peer == p && s.result.cidInDHT == found then 1 else 0)
  }

  /** The number of samples with this peer whose connection failed. */
  function ConnErrorsFor(source: seq<CheckedSample>, p: PeerLabel): (count: nat)
  {
    if |source| == 0 then 0
    else
      var s := source[|source| - 1];
      ConnErrorsFor(source[..|source| - 1], p) + (if s.peer == p && ConnectionFailed(s.result) then 1 else 0)
  }

  /** The number of samples with this peer whose connection succeeded. */
  function ConnectedFor(source: seq<CheckedSample>, p: PeerLabel): (count: nat)
  {
    if |source| == 0 then 0
    else
      var s := source[|source| - 1];
      ConnectedFor(source[..|source| - 1], p) + (if s.peer == p && !ConnectionFailed(s.result) then 1 else 0)
  }

  /** The bitswap durations, in nanoseconds, of the connected samples with
      these labels. */
  function DurationFor(source: seq<CheckedSample>, l: (PeerLabel, bool, bool)): (total: nat)
  {
    if |source| == 0 then 0
    else
      var s := source[|source| - 1];
      DurationFor(source[..|source| - 1], l) +
      (if BitswapLabels(s) == l && !ConnectionFailed(s.result) then s.result.dataAvailableOverBitswap.duration else 0)
  }

  /** After a stream of samples every counter has grown by exactly what the
      samples with its labels contribute: one per sample for the samples and
      DHT counters, one per failed connection, and the summed durations of the
      connected samples. */
  lemma RecordAllCounts(c: Counters, source: seq<CheckedSample>)
    ensures forall p :: Get(RecordAll(c, source).samplesTotal, p) == Get(c.samplesTotal, p) + SamplesFor(source, p)
    ensures forall p, f :: Get(RecordAll(c, source).dhtProviderRecordsTotal, (p, f)) ==
                           Get(c.dhtProviderRecordsTotal, (p, f)) + DhtFor(source, p, f)
    ensures forall p :: Get(RecordAll(c, source).connectionErrorsTotal, p) ==
                        Get(c.connectionErrorsTotal, p) + ConnErrorsFor(source, p)
    ensures forall l :: Get(RecordAll(c, source).bitswapHaveDurationNanos, l) ==
                        Get(c.bitswapHaveDurationNanos, l) + DurationFor(source, l)
  {
    forall p ensures Get(RecordAll(c, source).samplesTotal, p) == Get(c.samplesTotal, p) + SamplesFor(source, p) {
      SamplesCount(c, source, p);
    }
    forall p, f ensures Get(RecordAll(c, source).dhtProviderRecordsTotal, (p, f)) ==
                        Get(c.dhtProviderRecordsTotal, (p, f)) + DhtFor(source, p, f) {
      DhtCount(c, source, p, f);
    }
    forall p ensures Get(RecordAll(c, source).connectionErrorsTotal, p) ==
                     Get(c.connectionErrorsTotal, p) + ConnErrorsFor(source, p) {
      ConnErrorsCount(c, source, p);
    }
    forall l ensures Get(RecordAll(c, source).bitswapHaveDurationNanos, l) ==
                     Get(c.bitswapHaveDurationNanos, l) + DurationFor(source, l) {
      DurationCount(c, source, l);
    }
  }

  /** The samples counter for one peer label. */
  lemma {:induction false} SamplesCount(c: Counters, source: seq<CheckedSample>, p: PeerLabel)
    ensures Get(RecordAll(c, source).samplesTotal, p) == Get(c.samplesTotal, p) + SamplesFor(source, p)
  {
    if |source| > 0 {
      SamplesCount(c, source[..|source| - 1], p);
    }
  }

  /** The DHT counter for one peer label and one `CidInDHT` value. */
  lemma {:induction false} DhtCount(c: Counters, source: seq<CheckedSample>, p: PeerLabel, f: bool)
    ensures Get(RecordAll(c, source).dhtProviderRecordsTotal, (p, f)) ==
            Get(c.dhtProviderRecordsTotal, (p, f)) + DhtFor(source, p, f)
  {
    if |source| > 0 {
      DhtCount(c, source[..|source| - 1], p, f);
    }
  }

  /** The connection error counter for one peer label. */
  lemma {:induction false} ConnErrorsCount(c: Counters, source: seq<CheckedSample>, p: PeerLabel)
    ensures Get(RecordAll(c, source).connectionErrorsTotal, p) ==
            Get(c.connectionErrorsTotal, p) + ConnErrorsFor(source, p)
  {
    if |source| > 0 {
      ConnErrorsCount(c, source[..|source| - 1], p);
    }
  }

  /** The duration counter for one label set. */
  lemma {:induction false} DurationCount(c: Counters, source: seq<CheckedSample>, l: (PeerLabel, bool, bool))
    ensures Get(RecordAll(c, source).bitswapHaveDurationNanos, l) ==
            Get(c.bitswapHaveDurationNanos, l) + DurationFor(source, l)
  {
    if |source| > 0 {
      DurationCount(c, source[..|source| - 1], l);
    }
  }

  /** For every `peer` label, the absent one included, each sample goes to
      exactly one of the two branches (connection error or connected) and has
      exactly one `found` value for the DHT counter. */
  lemma {:induction false} SamplesSplit(source: seq<CheckedSample>, p: PeerLabel)
    ensures SamplesFor(source, p) == ConnErrorsFor(source, p) + ConnectedFor(source, p)
    ensures SamplesFor(source, p) == DhtFor(source, p, true) + DhtFor(source, p, false)
  {
    if |source| > 0 {
      SamplesSplit(source[..|source| - 1], p);
    }
  }

  /** Counters never decrease. */
  lemma RecordAllMonotone(c: Counters, source: seq<CheckedSample>)
    ensures var d := RecordAll(c, source);
            && (forall p :: Get(c.samplesTotal, p) <= Get(d.samplesTotal, p))
            && (forall p, f :: Get(c.dhtProviderRecordsTotal, (p, f)) <= Get(d.dhtProviderRecordsTotal, (p, f)))
            && (forall p :: Get(c.connectionErrorsTotal, p) <= Get(d.connectionErrorsTotal, p))
            && (forall l :: Get(c.bitswapHaveDurationNanos, l) <= Get(d.bitswapHaveDurationNanos, l))
  {
    RecordAllCounts(c, source);
  }

  /** The process-wide metrics: the registry's counter descriptions and the
      counters' current values. */
  class Metrics {
    const registry: Registry
    var samplesTotal: map<PeerLabel, nat>
    var connectionErrorsTotal: map<PeerLabel, nat>
    var dhtProviderRecordsTotal: map<(PeerLabel, bool), nat>
    var bitswapHaveDurationNanos: map<(PeerLabel, bool, bool), nat>

    function Value(): (c: Counters)
      reads this
    {
      Counters(samplesTotal, connectionErrorsTotal, dhtProviderRecordsTotal, bitswapHaveDurationNanos)
    }

    /** `createRegistry(ns)`: fresh counters, all at zero. */
    constructor (ns: Option<string>)
      ensures registry == CreateRegistry(ns)
      ensures Value() == NoCounts
    {
      registry := CreateRegistry(ns);
      samplesTotal, connectionErrorsTotal := map[], map[];
      dhtProviderRecordsTotal, bitswapHaveDurationNanos := map[], map[];
    }

    /** The loop body of `recordMetrics`: the counter updates for one sample. */
    method Record(sample: CheckedSample)
      modifies this
      ensures Value() == RecordSample(old(Value()), sample)
    {
      var peer, result := sample.peer, sample.result;
      samplesTotal := Inc(samplesTotal, peer, 1);
      dhtProviderRecordsTotal := Inc(dhtProviderRecordsTotal, (peer, result.cidInDHT), 1);
      if ConnectionFailed(result) {
        connectionErrorsTotal := Inc(connectionErrorsTotal, peer, 1);
      } else {
        bitswapHaveDurationNanos := Inc(bitswapHaveDurationNanos,
                                        (peer, result.dataAvailableOverBitswap.responded,
                                         result.dataAvailableOverBitswap.found),
                                        result.dataAvailableOverBitswap.duration);
      }
    }

    /** `recordMetrics(metrics)` applied to a finite `source`: the samples are
        passed on unchanged and in order, and the counters take every sample
        into account. */
    method RecordMetrics(source: seq<CheckedSample>) returns (out: seq<CheckedSample>)
      modifies this
      ensures out == source
      ensures Value() == RecordAll(old(Value()), source)
    {
      ghost var start := Value();
      out := [];
      var i := 0;
      while i < |source|
        invariant 0 <= i <= |source|
        invariant out == source[..i]
        invariant Value() == RecordAll(start, out)
      {
        var sample := source[i];
        Record(sample);
        out := out + [sample];
        assert out[..i] == source[..i];
        i := i + 1;
      }
      assert source[..i] == source;
    }
  }

  /** A reachable peer `P` that has a provider record and answers over
      bitswap in two seconds adds one to the DHT counter and two seconds to
      the duration counter under `{peer: P, responded: true, found: true}`. */
  lemma TwoSecondCheck(p: string, c: Counters)
    ensures var s := CheckedSample("Y", Some(p),
                       CheckResult("", map[], true, BitswapResult(2000000000, true, true, "")));
            var d := RecordSample(c, s);
            && Get(d.dhtProviderRecordsTotal, (Some(p), true)) == Get(c.dhtProviderRecordsTotal, (Some(p), true)) + 1
            && Get(d.bitswapHaveDurationNanos, (Some(p), true, true)) ==
               Get(c.bitswapHaveDurationNanos, (Some(p), true, true)) + 2000000000
            && d.connectionErrorsTotal == c.connectionErrorsTotal
  {
  }
}
