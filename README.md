# checkup: a Dafny model of the audit pipeline

checkup keeps checking that content pinned by an IPFS Cluster can really be fetched from the network. Samples of CIDs flow through four stream stages:

- `selectPeer` (peer.js) asks the cluster where each CID is pinned and picks one eligible peer at random.
- `checkCid` (check.js) asks the IPFS Check service whether that peer serves the CID.
- `recordMetrics` (prom.js) folds each result into Prometheus counters and passes the sample on.
- `randomInt` and `randomBigInt` (utils.js) are the random helpers.

This project models these stages in Dafny and proves properties of the model.

Each asynchronous generator becomes a method from a finite input sequence to the output sequence. The collaborators become parameters:

- The cluster client is a pair of functions, `statusAll` and `status`. Each returns `None` when the request throws.
- The IPFS Check client is a function `(n, cid, multiaddr) -> Option<CheckResult>`, where `n` numbers the stage's requests from 0. Two identical requests can therefore get different answers, as a network call with a timeout can.
- The multiformats CID library is a record of functions (`parse`, `format`, `toV0`, `toV1`).
- `Math.random()` is a function `draws: nat -> real`. The k-th call returns `draws(k)`, a fraction in [0, 1).

Every method also returns the requests it made, in order, so the contracts can say which calls happen.

The model follows the code in these places:

- `checkCid` makes no exception for samples without a peer. It calls the checker with `/p2p/undefined` (check.js:22).
- `checkCid` puts `/p2p/` in front of a peer that peer.js already prefixed with `/p2p/` (check.js:22, peer.js:69). The checker is therefore asked about `/p2p//p2p/<id>`.
- A CID with pins but no eligible pin is dropped, not emitted without a peer (peer.js:64-67).
- After a successful fallback lookup, the sample is emitted under the reply's CID, which is the converted version (peer.js:49-54).
- `recordMetrics` increments the DHT counter for every sample, with or without a peer. A missing peer is an absent label, not an "unknown" one (prom.js:51-52).
- There is no weighted routing to a secondary provider. The elastic provider address, when configured, is just one more candidate. It is appended after the eligible peers (peer.js:70-72).

Modules: `Wrappers` (the `Option` type), `Utils`, `Batching` (the `it-batch` library), `Cids` (`toOtherCidVersion`), `Peer`, `Check` and `Prom`.

## Model

| member | source | states |
|---|---|---|
| Utils.RandomInt | utils.js:6-8 | For min < max the result lies in [min, max). It is min when min == max, and lies in [max, min] when max < min. |
| Utils.RandomIntPreimage | utils.js:6-8 | The result is j exactly when the draw times (max - min) lies in [j - min, j - min + 1). Each value gets an interval of equal width, so the draw is uniform. |
| Utils.RandomIntHits | utils.js:6-8 | Each j in [min, max) is returned for the fraction (j - min) / (max - min). |
| Utils.DecimalLength | utils.js:18 | The length of `range.toString()` for a BigInt: its decimal digits, plus one for the sign of a negative value. Its property is `DecimalLengthBounds`. |
| Utils.DecimalLengthBounds | utils.js:18 | The length of a non-negative range's decimal string is its digit count: range < 10^len, and 10^(len-1) <= range when range >= 1. |
| Utils.DigitGroups | utils.js:18 | `digits`, the decimal length of the range divided by nine plus two, is at least 2. |
| Utils.NineDigits | utils.js:21 | Each draw contributes a value in [0, 10^9). |
| Utils.Accumulated | utils.js:19-22 | The value of `rand` after n rounds: each round multiplies it by 10^9 and adds the round's nine-digit draw. Its property is `AccumulatedBounds`. |
| Utils.AccumulatedBounds | utils.js:17-22 | After n rounds, 0 <= rand < 10^(9n). |
| Utils.DrawSpaceExceedsRange | utils.js:16-22 | 10^(9 * digits) exceeds range * 10^9, so the draws cover the range with over nine extra digits. |
| Utils.RandomBigInt | utils.js:15-24 | The loop runs exactly `digits` times, one draw per round, and rand is the number those draws build. The result is min + rand % range. It lies in [min, max) when max > min. It is an error (`None`) when max == min. |
| Batching.ChunkSize | peer.js:32 | The batch size handed to it-batch is at least 1. It is unchanged when at least 1. |
| Batching.Batches | peer.js:32 | it-batch: the input cut into consecutive batches of `n` items, the last possibly shorter. Its properties are `BatchesFlatten` and `BatchesSizes`. |
| Batching.BatchesFlatten | peer.js:32 | The batches concatenate back to the input, in order. |
| Batching.BatchesSizes | peer.js:32 | Every batch is non-empty and holds at most the batch size. All batches but the last are full. |
| Cids.ToOtherCidVersion | peer.js:86-89 | A CID that does not parse gives no conversion. A version 0 CID always converts. |
| Cids.LawfulWitness | peer.js:86-89 | Some library obeys `Lawful` while parsing a string to a CID of version 0 with the dag-pb codec, as multiformats does, so the version 0 laws are not vacuous. |
| Cids.OtherVersionFlips | peer.js:86-89 | For a library obeying `Lawful`, the converted CID parses, and at the other version: 0 becomes 1 and 1 becomes 0. |
| Cids.FlipTwice | peer.js:86-89 | For a library obeying `Lawful`, converting a canonical CID string twice gives it back. |
| Peer.EffectiveBatchSize | peer.js:16-26 | The batch size is `min(batchSize || 120, 120)`: 120 when omitted, 0 or above 120, and the requested size when that is in [1, 120] or negative. It never exceeds 120. |
| Peer.Truthy | peer.js:70 | The elastic provider address is used exactly when it is given and is not the empty string. |
| Peer.AllUnpinned | peer.js:38 | Every pin info (of possibly none) reports `unpinned`; the same test is applied to the fallback reply at peer.js:51. |
| Peer.Eligible | peer.js:58-62 | A pin info is eligible iff its status is neither `remote` nor `pin_queued`. |
| Peer.PinnedAndUnpinnedAreEligible | peer.js:58-62 | `pinned` and `unpinned` pins are eligible; `remote` and `pin_queued` pins are not. |
| Peer.EligibleInfos | peer.js:61-62 | The filter keeps exactly the eligible pin infos: each result is an eligible input, and each eligible input is in the result. |
| Peer.EligibleInfosCount | peer.js:61-62 | The filter keeps each eligible pin info as many times as it occurs, and no other pin info. |
| Peer.EligiblePositionsExact | peer.js:61-62 | The eligible positions are strictly increasing and are exactly the positions of eligible pin infos. |
| Peer.EligibleInfosInOrder | peer.js:61-62 | The k-th kept pin info is the pin at the k-th eligible position, so the filter keeps pin order. |
| Peer.EligibleNonEmpty | peer.js:61-64 | Some pin info is eligible iff the filtered list is non-empty. |
| Peer.PeerAddresses | peer.js:69 | One `/p2p/` address per pin info, in order, built from its IPFS peer id; as many addresses as pin infos. |
| Peer.Candidates | peer.js:69-72 | There is one candidate per kept pin info, plus one for a configured elastic provider, whose address comes last. |
| Peer.CandidatesSound | peer.js:69-72 | Every candidate address is `/p2p/` + the peer id of an eligible pin, or the elastic provider address. Conversely, every eligible pin's `/p2p/` address is a candidate. The k-th candidate is the address of the k-th kept pin info. The elastic address comes last and only after some eligible pin. |
| Peer.Pick | peer.js:61-77 | A sample is emitted iff some pin is eligible. It is emitted under the status's CID, with a peer that is a candidate. |
| Peer.PickAtRandomIndex | peer.js:69-77 | When some pin is eligible, the emitted peer is the candidate at index `randomInt(0, n)` of the n candidates. |
| Peer.PickShare | peer.js:74-77 | The random index is j for exactly the fractions in [j/n, (j+1)/n), and those fractions pick the candidate at j: each candidate gets an equal share of draws. |
| Peer.EveryCandidateReachable | peer.js:69-77 | Every candidate, including the elastic provider, is the pick for some draw. |
| Peer.Resolve | peer.js:36-78 | A fallback `status` request is made iff every pin is unpinned (vacuously for none) and the CID converts, and it asks for the converted CID. Only that request can throw. A non-convertible CID is emitted without a peer under its own CID. A fallback reply that is all unpinned too gives a peerless sample under the reply's CID. Otherwise the peer is picked from the reply's pins, or from the status's own pins when not all are unpinned. A draw is taken iff a peer is emitted. |
| Peer.NoEligiblePinDropsSample | peer.js:64-67 | A status whose pins are not all unpinned, and none of them eligible, emits nothing and makes no request. |
| Peer.Record | peer.js:36-78 | The effect of one status on the run: the sample it yields (peer.js:44, 53 or 77) is appended, the fallback `cluster.status` request (peer.js:49) is appended, a draw is counted when a peer is picked (peer.js:74), and a throw is recorded. Its property is `RecordAppends`. |
| Peer.StepStatus | peer.js:36-78 | One iteration of the loop over a reply's statuses: `Resolve` the status with the next unused draw and `Record` the result. |
| Peer.RecordAppends | peer.js:36-78 | Handling one status appends at most one sample and at most one request, which is a `status` request. Earlier outputs and requests are kept. |
| Peer.RunStatuses | peer.js:36-78 | The statuses of one `statusAll` reply, handled in order by `Resolve` until a fallback request throws. Its properties are `RunStatusesAppendsOut` and `RunStatusesAppends`. |
| Peer.RunBatches | peer.js:32-78 | One `statusAll` request per batch, then its reply's statuses, until a request throws. Its properties are `RunBatchesQueries`. |
| Peer.CidsOf | peer.js:34 | The CIDs of the samples, in order, one per sample. |
| Peer.BatchesOf | peer.js:26-32 | The input's CIDs cut into batches at the clamped batch size. Its properties are `BatchesOfInput`. |
| Peer.SelectPeerSpec | peer.js:24-81 | The whole stage: `RunBatches` over the batches of the input at the effective batch size. Its properties are `SelectPeerQueries`. |
| Peer.RunStatusesAppendsOut | peer.js:36-78 | Through one reply's statuses: at most one sample per status, earlier samples kept. |
| Peer.RunStatusesAppends | peer.js:36-78 | Through one reply's statuses, in order: at most one `status` request per status, no `statusAll` request, earlier requests kept. |
| Peer.RunBatchesQueries | peer.js:32-34 | Exactly one `statusAll` request per batch, with that batch's CIDs, in batch order. A run ended by a throw has requested a non-empty prefix of the batches. |
| Peer.BatchesOfInput | peer.js:24-32 | The batches of the input hold 1 to 120 CIDs each and concatenate back to the input's CIDs in order. |
| Peer.SelectPeerQueries | peer.js:24-34 | Over a whole run, each `statusAll` request carries 1 to 120 CIDs, and the requests follow the batches. Without a throw, their CIDs concatenate back to the input's CIDs. |
| Peer.ResolveStatus | peer.js:36-77 | The per-status loop body, with the reassigned `status` and `pinInfos` and the pushed elastic address, computes `Resolve`. |
| Peer.ResolveReply | peer.js:36-78 | The inner loop over a reply's statuses computes `RunStatuses`, stopping at the first throw. |
| Peer.SelectPeer | peer.js:24-81 | The stage's outputs, requests and failure are those of `SelectPeerSpec`. The `statusAll` requests hold at most 120 CIDs each. Without a throw, they are exactly the batches of the input. |
| Check.Multiaddr | check.js:22 | The multiaddr is `/p2p/` followed by the peer, and `/p2p/undefined` for a sample without a peer. |
| Check.PeerPrefixedTwice | check.js:22 | A peer emitted by selectPeer as `/p2p/<id>` is checked at `/p2p//p2p/<id>`. |
| Check.Attach | check.js:24 | The checked sample keeps the sample's cid and peer and gains the result. |
| Check.CheckOne | check.js:21-28 | For one input: the checked sample when its check answers, nothing when it throws. |
| Check.Checked | check.js:19-29 | The stage's output: for each input in order, the checked sample when its check answers, nothing when it throws. Its properties are `CheckedIsSubsequence` and `CheckedLength`. |
| Check.KeptPositions | check.js:19-29 | The kept positions are strictly increasing input positions whose check succeeded. |
| Check.KeptComplete | check.js:19-29 | Every input whose check succeeds is kept. |
| Check.CheckedAtKept | check.js:23-25 | The k-th output is the input at the k-th kept position with its check result attached. |
| Check.CheckedIsSubsequence | check.js:19-29 | The output is an order-preserving subsequence of the input, made of exactly the inputs whose check succeeded. |
| Check.CheckedLength | check.js:19-29 | Outputs plus dropped inputs equal the input length. A throwing check drops only its own sample. |
| Check.CheckCid | check.js:14-31 | The checker is called exactly once per input, in order, at `/p2p/` + peer, including samples without a peer; the i-th input is the i-th request. The output is `Checked`. |
| Prom.CreateRegistry | prom.js:12-38 | The counters are named `<ns>_samples_total`, `<ns>_connection_errors_total`, `<ns>_dht_provider_records_total` and `<ns>_bitswap_have_duration_seconds`. `ns` defaults to `checkup` only when omitted. Each counter has its label names. |
| Prom.RegistryNamesDistinct | prom.js:16-34 | The four metric names are pairwise distinct for every namespace. |
| Prom.ConnectionFailed | prom.js:54 | The connection failed when the result's connection error is a non-empty string, the truthiness test on `ConnectionError`. |
| Prom.BitswapLabels | prom.js:57-60 | The duration counter's labels: the peer, and the bitswap result's `Responded` and `Found`. |
| Prom.Inc | prom.js:51-61 | prom-client's `counter.inc(labels, amount)`: the counter under those labels grows by `amount`, and every other label set keeps its value. |
| Prom.RecordSample | prom.js:49-62 | One sample adds 1 to `samplesTotal{peer}` and 1 to `dhtProviderRecordsTotal{peer, found: CidInDHT}`. Then exactly one of two changes: `connectionErrorsTotal{peer}` by 1 when the connection error is non-empty, or the duration under `{peer, responded, found}` by Duration. Every other label set is unchanged. |
| Prom.RecordAll | prom.js:48-62 | The counters after folding `RecordSample` over the samples in order. Its properties are `RecordAllCounts`, `RecordAllMonotone` and the four per-counter lemmas. |
| Prom.RecordAllCounts | prom.js:48-62 | After a stream, each counter has grown by exactly the count of samples, or the sum of connected durations, carrying its labels. |
| Prom.SamplesCount | prom.js:51 | `samplesTotal{peer}` grows by the number of samples with that peer. |
| Prom.DhtCount | prom.js:52 | `dhtProviderRecordsTotal{peer, found}` grows by the number of samples with that peer and that `CidInDHT`. |
| Prom.ConnErrorsCount | prom.js:54-56 | `connectionErrorsTotal{peer}` grows by the number of samples with that peer whose connection failed. |
| Prom.DurationCount | prom.js:57-61 | The duration under `{peer, responded, found}` grows by the summed durations of the connected samples with those labels. |
| Prom.SamplesSplit | prom.js:51-62 | Per peer, samples = connection errors + connected samples, and samples = DHT found + DHT not found. |
| Prom.RecordAllMonotone | prom.js:51-61 | Counters never decrease. |
| Prom.TwoSecondCheck | prom.js:52-61 | A connected two-second check of peer P adds 1 to `dhtProviderRecordsTotal{P, true}` and 2 s to the duration under `{P, true, true}`. |
| Prom.Metrics.constructor | prom.js:12-38 | A new registry starts with all counters empty (zero). |
| Prom.Metrics.Record | prom.js:49-62 | The counter increments for one sample leave the counters at `RecordSample` of the old ones. |
| Prom.Metrics.RecordMetrics | prom.js:43-67 | The samples are re-emitted unchanged and in order, and the counters equal `RecordAll` of the old counters over the samples. |

## Left out

- index.js is not part of this model. It holds the pipeline wiring, the PostgreSQL connection, the `/metrics` HTTP server, the `finally` cleanup and `logResult`, which only formats log lines. All of these are I/O.
- sample.js is not part of this model. It is database access only. Its `getSample` never yields, so it has no sampling logic to model.
- ipfs-check-client.js is not part of this model. It is an HTTP client with a timeout abort. The model sees it only as a function that returns a result or throws (`None`).
- elastic-provider.js is not part of this model: it wraps S3 requests. Only the configured address string takes part in peer selection.
- bin.js is not part of this model: it parses environment variables.
- `sleep` in utils.js is not modelled, because it is a timer.
- Laziness and asynchrony: each stage is modelled on a source that ends. On an unbounded source, it-batch holds back a partial batch until it is full, so a run of `SelectPeer` on a finite prefix matches the real stage only when the prefix length is a multiple of `ChunkSize(EffectiveBatchSize(batchSize))`, the batch size it-batch actually uses.
- `debug` logging is not modelled.
- Utils.RandomInt: computes with exact reals. The rounding of the floating-point product is not modelled.
- Utils.NineDigits: JavaScript's `| 0` is modelled as floor. The two agree because the value is non-negative and below 2^31.
- Peer.EffectiveBatchSize: the batch size is an integer or omitted. Fractional and NaN sizes are not modelled.
- Batching.ChunkSize: a batch size below 1 is read as 1. This matches how it-batch treats such sizes; it-batch's code is not part of this model.
- Cids.ToOtherCidVersion: `CID.parse`, `toV0`, `toV1` and `String(cid)` of multiformats are parameters. They are constrained only by the laws in `Lawful`, and only where a lemma says so. The laws cover only CIDs the library parses: only versions 0 and 1 parse, a parsed CID comes back from its string form, and the two conversions undo each other and give CIDs that come back from their string form.
- Peer.SelectPeer: the cluster is a fixed function of its arguments. A cluster whose answer changes between two identical requests is not represented.
- Prom.Metrics.RecordMetrics: the bitswap duration counter is kept in integer nanoseconds. prom-client adds `Duration / 1e9` seconds as a float. Durations are non-negative, so prom-client's refusal of negative increments never arises.
- Prom.CreateRegistry: always returns a registry. prom-client's `Counter` constructor throws on a metric name it does not accept (for example a namespace containing `-` or starting with a digit) and on a name already in the global registry, which a second `createRegistry` call hits. prom-client's name rules and its global registry are not part of this model.
- Prom.Metrics.RecordMetrics: prom-client's registry, its text exposition and its label serialisation are not modelled. Concurrent scrapes are not modelled either, since the pipeline is single-threaded.
