# lotus-spook: peer-record logger and gossipsub session bookkeeping

lotus-spook is a crawler for the Filecoin gossipsub network. It connects to the
bootstrap peers and accepts inbound gossipsub streams. It answers each peer's
hello with grafts for every topic that peer declared. It then drains the
peer's messages and harvests the signed peer records that arrive in prune
peer-exchange (PX) lists. An accepted record is written once to a JSON output
log. That log is deduplicated by sequence number per peer.

This Dafny project models the two sequential pieces at the core.

- **`PeerLogger`** (`logger.dfy`) models `Logger.AddPeer`. The `Logger` class
  holds the known-peer index (`peers: map<PeerId, u64>`) and the output log
  (`out: seq<PeerRecord>`). `AddPeer` runs the source's chain of early
  returns. It is proved against the value-level specification `Submit` on a
  `Store`, and every property is a lemma about `Submit` and `SubmitAll`.
  There are two invariants. `Covered` says every logged record is indexed, at
  or below its index entry. `Ordered` says log entries for the same peer have
  strictly increasing sequence numbers. Both hold for every run.
- **`PeerRecords`** (`peer_records.dfy`) holds the types both other parts
  share: peer IDs, multiaddresses, peer records, the `u64` sequence number and
  the outcome of consuming a signed envelope.
- **`PubsubPb`** (`pubsub_pb.dfy`) holds the decoded gossipsub wire messages:
  subscriptions, control block, grafts, prunes and PX entries. Optional
  protobuf fields are `Option`s. The getters return the protobuf default for
  an absent field, as the generated Go getters do.
- **`GossipNode`** (`node.dfy`) models the `Node` class. It holds the shared
  logger and the per-peer backoff map `nextGraft`. It covers:
  - the hello-to-graft derivation and the pre-solicitation wait;
  - the drain loop's prune handling: PX submission, backoff update and the
    scheduled re-graft;
  - `Background`'s count of bootstrap addresses that parse.

  Each loop of the source is a method with loop invariants, proved equal to a
  specification function. Most of these are recursive: `PxOf`, `PxSubs`,
  `Regrafts`, `DrainGrafts`, `DrainLog`, `DrainRegrafts` and `Connectable`.
  `BuildHelloReply` equals `HelloReply`, a sequence comprehension over the
  subscriptions. The backoff map after a prune loop equals the closed form
  `AfterPrunes`. `HandleGSStream` is a case split over how the session ends,
  and its drain case is stated by `Drain`. The properties are lemmas about
  those functions.

Inputs from the environment are parameters:
- the result of consuming an envelope is an `Envelope` value: undecodable,
  another payload type, or a peer record;
- whether JSON encoding succeeded is a `bool`;
- the clock reading and the `rand.Intn(10)` draw for each prune are a
  `PruneEnv`;
- address parsing is a function `string -> ParsedAddr`;
- the frames read from the stream are a sequence of decoded `Frame`s, ending
  at end of stream or at a read error.

Times and durations are unbounded integers in nanoseconds, with
`Second == 1_000_000_000`. Sequence numbers and backoffs are `u64`.

## Model

| member | source | states |
|---|---|---|
| PeerLogger.Judge | cmd/spook/logger.go:30-51 | Which check decides a submission, each as an if-and-only-if on the envelope, the claimed ID and the index. An undecodable envelope is rejected first, then a non-PeerRecord payload, then an embedded ID that differs from the claimed one, then a sequence number not strictly newer than the stored one. Otherwise, including a first record with any sequence number, it is accepted. |
| PeerLogger.Submit | cmd/spook/logger.go:30-58 | The value-level effect of one AddPeer: the store is kept on every rejection; on acceptance the index is updated, then the record is appended if it could be encoded. No peer leaves the index and at most one record is appended. |
| PeerLogger.SubmitAll | cmd/spook/logger.go:26-59 | A run of AddPeer calls in order. No peer leaves the index, and the log grows by at most one record per submission. |
| PeerLogger.SubmitEffect | cmd/spook/logger.go:30-58 | The store is unchanged exactly when the submission is rejected. On acceptance the peer's entry becomes the record's sequence number and no other entry changes. Exactly that record is appended when it could be encoded, and nothing is appended otherwise. The index is updated even if the encode fails. |
| PeerLogger.SubmitKeepsConsistent | cmd/spook/logger.go:47-55 | One submission preserves Covered and Ordered. |
| PeerLogger.SubmitAllConsistent | cmd/spook/logger.go:47-55 | Any run of submissions from a consistent store keeps it consistent. In particular, successive log entries for the same peer have strictly increasing sequence numbers. |
| PeerLogger.SubmitAllMonotone | cmd/spook/logger.go:47-55 | Across any run of submissions, no peer leaves the index and no stored sequence number decreases. The log is only appended to, by at most one record per submission. |
| PeerLogger.SubmitTwice | cmd/spook/logger.go:47-55 | Submitting the same envelope for the same peer twice in a row has the effect of submitting it once. |
| PeerLogger.DistinctPeersCommute | cmd/spook/logger.go:47-55 | Two submissions under distinct claimed IDs give the same index in either order, and the log holds the same records as a multiset. |
| PeerLogger.JudgeOtherPeer | cmd/spook/logger.go:47-53 | A submission for one peer does not change how a submission for another peer is judged. |
| PeerLogger.Logger.constructor | cmd/spook/logger.go:19-24 | NewLogger gives an empty index and an empty log, which is consistent. |
| PeerLogger.Logger.AddPeer | cmd/spook/logger.go:26-59 | The returned verdict is Judge on the old index. The new state is Submit of the old state. Consistency is preserved. |
| GossipNode.GraftsFor | cmd/spook/node.go:162-171 | One graft per subscription of the hello, for the same topic and in the same order. |
| GossipNode.HelloReply | cmd/spook/node.go:162-171 | The message written after the hello: no subscriptions, a control block with no prunes, and as many grafts as the hello has subscriptions. |
| GossipNode.BuildHelloReply | cmd/spook/node.go:159-171 | The reply has no subscriptions and no prunes. It has exactly one graft per subscription of the hello, for the same topic, in the same order. It equals HelloReply. |
| GossipNode.HelloTwoTopics | cmd/spook/node.go:162-186 | A hello declaring t1 and t2 is answered with a control block of exactly two grafts, for t1 and t2. |
| GossipNode.GraftWait | cmd/spook/node.go:173-182 | The wait is positive iff the peer has a backoff deadline later than now. In that case it ends one second past the deadline. Otherwise it is zero. |
| GossipNode.RegraftDelay | cmd/spook/node.go:233 | The re-graft delay lies between the backoff plus 1 s and the backoff plus 10 s, for any draw of rand.Intn(10). |
| GossipNode.AfterPrunes | cmd/spook/node.go:213-231 | After an RPC's prunes from p, the backoff entry of p is now plus the last prune's backoff (last writer wins). Other peers' entries are untouched. The map is unchanged when there are no prunes. |
| GossipNode.Regrafts | cmd/spook/node.go:213-249 | One re-graft is scheduled per prune. |
| GossipNode.RegraftsAt | cmd/spook/node.go:227-243 | The re-graft of the m-th prune writes a message with exactly one graft, for that prune's topic. Its delay lies in [backoff + 1 s, backoff + 10 s]. |
| GossipNode.PxOf | cmd/spook/node.go:220-225 | The logger submissions of a PX list's first j entries, in order. Entries without a signed record are skipped, so there are at most j of them. |
| GossipNode.PxOfPrefix | cmd/spook/node.go:220-225 | PX entries are submitted in list order: the submissions of a prefix are a prefix of the submissions of the whole list. |
| GossipNode.PxOfSound | cmd/spook/node.go:220-225 | Every submission comes from a PX entry that carries a signed record. It is made under that entry's own peer ID, with that record. |
| GossipNode.PxOfComplete | cmd/spook/node.go:220-225 | Every PX entry that carries a signed record is submitted, under its own peer ID. |
| GossipNode.PxSubsPrefix | cmd/spook/node.go:213-225 | Prunes are handled in list order: the submissions of the earlier prunes come first. |
| GossipNode.DrainGrafts | cmd/spook/node.go:196-249 | The backoff map after the first i frames. It keeps every key it started with and adds at most the session's peer. |
| GossipNode.DrainLog | cmd/spook/node.go:196-249 | The logger after the first i frames. No peer leaves the index and the log only grows. |
| GossipNode.DrainRegrafts | cmd/spook/node.go:196-249 | The re-grafts scheduled by the first i frames, in order: exactly one per prune received. |
| GossipNode.DrainGraftsOthers | cmd/spook/node.go:196-249 | Over a whole session, backoff entries are only added for the session's peer. No entry is removed, and other peers' entries are untouched. |
| GossipNode.DrainWithoutControl | cmd/spook/node.go:208-211 | Frames without a control block leave the backoff map, the logger and the re-graft schedule unchanged. |
| GossipNode.DrainLogConsistent | cmd/spook/node.go:196-249 | A session keeps the logger consistent and never lowers a stored sequence number. |
| GossipNode.Connectable | cmd/spook/node.go:84-100 | The peer infos of the bootstrap addresses that parse, in order. There are at most as many as addresses. |
| GossipNode.ConnectableMembers | cmd/spook/node.go:84-100 | A bootstrap address yields a connector iff it parses. Addresses that fail to parse are skipped without aborting. |
| GossipNode.ConnectableSound | cmd/spook/node.go:84-100 | Every connector comes from an address that parses to it. |
| GossipNode.ConnectableComplete | cmd/spook/node.go:84-100 | Every address that parses yields a connector. |
| GossipNode.Node.constructor | cmd/spook/node.go:72-76 | NewNode, without the host: the given logger and an empty backoff map. |
| GossipNode.Node.Background | cmd/spook/node.go:83-105 | One connector is started per address that parses, in order. wg.Done is called iff no address parses. |
| GossipNode.Node.SubmitPeerExchange | cmd/spook/node.go:220-225 | The loop over a PX list leaves the logger equal to running the list's submissions (PxOf) from the old logger. Consistency is preserved. |
| GossipNode.Node.HandlePrune | cmd/spook/node.go:214-248 | For one prune: the logger runs the prune's PX submissions. nextGraft[p] becomes now plus the backoff and nothing else in the map changes. The returned re-graft is the prune's (RegraftFor). |
| GossipNode.Node.HandlePrunes | cmd/spook/node.go:213-249 | For the prune loop: the backoff map ends as AfterPrunes, the logger as the run of PxSubs, and the schedule equals Regrafts. |
| GossipNode.Node.HandleRpc | cmd/spook/node.go:208-249 | For one frame: the same three results. A frame without a control block changes neither the backoff map nor the logger, and schedules nothing. |
| GossipNode.Node.Drain | cmd/spook/node.go:196-250 | For the drain loop over all frames read: the backoff map, the logger and the schedule equal DrainGrafts, DrainLog and DrainRegrafts. |
| GossipNode.Node.HandleGSStream | cmd/spook/node.go:128-251 | For the session: it ends without changing the backoff map or the logger, and schedules nothing, if the outbound stream cannot be opened, the hello cannot be read, or the graft reply cannot be written. In the first two cases no reply is built and no wait is taken. Otherwise the reply is HelloReply of the hello, and the wait is GraftWait on the backoff map as it was. After draining, the state is as Drain states. |

## Left out

- The libp2p host: construction, security transports, identity loading and stream handler registration (`NewNode` beyond its two fields). These are foreign library calls.
- Stream I/O: opening streams, the length-delimited protobuf reader with its 1 MiB bound, `Reset`, `Close` and `ClosePeer`. The session receives the outcome of each step and the decoded frames as inputs.
- Envelope signature verification and JSON encoding: `record.ConsumeEnvelope` is abstracted to an `Envelope` value, and `Encode` to a success flag. A failed encode is modelled as appending nothing; a partial write of the JSON stream is not modelled.
- Concurrency: the logger and node mutexes, the goroutine per re-graft, its `time.Sleep` and its write, and the unsynchronised assignment to the session's `err` from those goroutines. A re-graft is returned as a value (its delay and its message). Whether its write succeeds is not modelled. Sessions running concurrently against the same backoff map are not modelled.
- The sleep before writing the grafts: only its duration (`GraftWait`) is computed.
- `rand.Intn(10)`: the draw is an input in 0..9.
- `connect`'s infinite reconnect loop: it is about liveness against real network state.
- `handleHelloStream`, the unregistered echo handler.
- `cmd/spook/main.go`: flags, log levels, the output file and the WaitGroup. main.go is not part of this model.
- The `subs` slice built after the hello: it is never sent (its assignment is commented out), so only the grafts are modelled.
- `int64` overflow of `time.Duration(backoff) * time.Second` for huge backoffs, and of the time arithmetic: integers are unbounded here.
- Log messages, including their format arguments.
- The built-in bootstrap list (cmd/spook/node.go:25-34) is not reproduced. `Background` takes the list as a parameter, because main.go can replace the built-in list with one given on the command line. It is stated for any list and any parser.
