/**
 * One crawler identity: its per-peer backoff clock `nextGraft`, the gossipsub
 * session it runs on every inbound stream, and the start-up of its bootstrap
 * connectors. Streams, the clock, the random jitter and address parsing are
 * inputs; the libp2p host is not modelled.
 */
module GossipNode {
  import opened Wrappers
  import opened PubsubPb
  import opened PeerRecords
  import opened PeerLogger

  /** Times and durations are integer nanoseconds; this is time.Second. */
  const Second: int := 1_000_000_000

  type Time = int

  // ---------------------------------------------------------------------------
  // Soliciting: the graft reply to a hello, and the backoff wait before it.

  /** One graft per subscription, same topics, same order. */
  function GraftsFor(subs: seq<SubOpts>): (r: seq<ControlGraft>)
    ensures |r| == |subs|
    ensures forall i :: 0 <= i < |subs| ==> r[i].topicID == Some(subs[i].GetTopicid())
  {
    seq(|subs|, i requires 0 <= i < |subs| => ControlGraft(Some(subs[i].GetTopicid())))
  }

  /** The message written after the hello: a control block of grafts only, no subscriptions. */
  function HelloReply(hello: RPC): (r: RPC)
    ensures r.subscriptions == [] && r.control.Some? && r.control.value.prune == []
    ensures |r.control.value.graft| == |hello.subscriptions|
  {
    RPC([], Some(ControlMessage(GraftsFor(hello.subscriptions), [])))
  }

  /** Builds the graft list by appending one graft per subscription of the hello. */
  method BuildHelloReply(hello: RPC) returns (reply: RPC)
    ensures reply == HelloReply(hello)
    ensures reply.subscriptions == [] && reply.control.Some? && reply.control.value.prune == []
    ensures |reply.control.value.graft| == |hello.subscriptions|
    ensures forall i :: 0 <= i < |hello.subscriptions| ==>
              reply.control.value.graft[i].topicID == Some(hello.subscriptions[i].GetTopicid())
  {
    var graft: seq<ControlGraft> := [];
    for i := 0 to |hello.subscriptions|
      invariant |graft| == i
      invariant forall k :: 0 <= k < i ==> graft[k] == ControlGraft(Some(hello.subscriptions[k].GetTopicid()))
    {
      var topic := hello.subscriptions[i].GetTopicid();
      graft := graft + [ControlGraft(Some(topic))];
    }
    assert graft == GraftsFor(hello.subscriptions);
    reply := RPC([], Some(ControlMessage(graft, [])));
  }

  /**
   * How long the session sleeps before writing its grafts: until one second
   * after the peer's recorded backoff ends, or not at all.
   */
  function GraftWait(nextGraft: map<PeerId, Time>, p: PeerId, now: Time): (wait: int)
    ensures wait >= 0
    ensures wait > 0 <==> p in nextGraft && now < nextGraft[p]
    ensures wait > 0 ==> now + wait == nextGraft[p] + Second
    ensures p in nextGraft ==> nextGraft[p] <= now + wait
  {
    if p in nextGraft && now < nextGraft[p] then nextGraft[p] - now + Second else 0
  }

  // ---------------------------------------------------------------------------
  // Draining: what one decoded RPC does.


  /**
   * What the environment answers while one prune is handled: the clock reading,
   * the `rand.Intn(10)` draw, and for each peer-exchange entry whether encoding
   * its record to the output would succeed (unused for entries without a record).
   */
  datatype PruneEnv = PruneEnv(now: Time, jitter: int, encoded: seq<bool>)

  /** A re-graft scheduled by a prune: its delay, and the message it writes. */
  datatype Regraft = Regraft(delay: int, topic: Topic) {
    /** The message written once the delay has passed. */
    function Message(): RPC {
      GraftOnly(topic)
    }
  }

  /** The environment of a prune answers for each of its entries, and the jitter is a draw of `rand.Intn(10)`. */
  predicate Fits(pr: ControlPrune, e: PruneEnv) {
    0 <= e.jitter < 10 && |e.encoded| == |pr.peers|
  }

  /** One environment per prune, each fitting its prune. */
  predicate AllFit(prunes: seq<ControlPrune>, envs: seq<PruneEnv>) {
    |envs| == |prunes| && forall i :: 0 <= i < |prunes| ==> Fits(prunes[i], envs[i])
  }

  /** The prune directives of an RPC; none when it has no control block. */
  function Prunes(rpc: RPC): seq<ControlPrune> {
    if rpc.control.None? then [] else rpc.control.value.prune
  }

  /** The instant before which the pruning peer is not grafted again. */
  function Deadline(pr: ControlPrune, now: Time): Time {
    now + pr.GetBackoff() as int * Second
  }

  /** The deferred re-graft delay: the backoff plus one to ten seconds of jitter. */
  function RegraftDelay(backoff: u64, jitter: int): (d: int)
    requires 0 <= jitter < 10
    ensures backoff as int * Second + Second <= d <= backoff as int * Second + 10 * Second
    ensures backoff as int * Second < d
  {
    backoff as int * Second + (1 + jitter) * Second
  }

  /** A re-graft message: exactly one graft, for the given topic. */
  function GraftOnly(topic: Topic): RPC {
    RPC([], Some(ControlMessage([ControlGraft(Some(topic))], [])))
  }

  /** The submission one peer-exchange entry makes, if it carries a signed record. */
  function PxEntry(pi: PeerInfo, encoded: bool): seq<Submission> {
    if pi.signedPeerRecord.Some? then [Submission(pi.GetPeerID(), pi.signedPeerRecord.value, encoded)] else []
  }

  /** The logger submissions of the first `j` entries of a peer-exchange list, in order. */
  function PxOf(peers: seq<PeerInfo>, encoded: seq<bool>, j: nat): (r: seq<Submission>)
    requires |encoded| == |peers| && j <= |peers|
    ensures |r| <= j
  {
    if j == 0 then [] else PxOf(peers, encoded, j - 1) + PxEntry(peers[j - 1], encoded[j - 1])
  }

  /** The logger submissions of a whole prune. */
  function PruneSubs(pr: ControlPrune, e: PruneEnv): seq<Submission>
    requires Fits(pr, e)
  {
    PxOf(pr.peers, e.encoded, |pr.peers|)
  }

  /** The logger submissions of the first `i` prunes of a list, prune after prune. */
  function PxSubs(prunes: seq<ControlPrune>, envs: seq<PruneEnv>, i: nat): seq<Submission>
    requires AllFit(prunes, envs) && i <= |prunes|
  {
    if i == 0 then [] else PxSubs(prunes, envs, i - 1) + PruneSubs(prunes[i - 1], envs[i - 1])
  }

  /** The backoff map after a list of prunes from `p`: the last prune's deadline wins. */
  function AfterPrunes(m: map<PeerId, Time>, p: PeerId, prunes: seq<ControlPrune>, envs: seq<PruneEnv>): (r: map<PeerId, Time>)
    requires |envs| == |prunes|
    ensures r.Keys == if prunes == [] then m.Keys else m.Keys + {p}
    ensures forall q :: q in m && q != p ==> r[q] == m[q]
    ensures prunes == [] ==> r == m
    ensures prunes != [] ==> r[p] == envs[|prunes| - 1].now + prunes[|prunes| - 1].GetBackoff() as int * Second
  {
    if prunes == [] then m
    else
      var n := |prunes| - 1;
      m[p := Deadline(prunes[n], envs[n].now)]
  }

  /** The re-graft one prune schedules. */
  function RegraftFor(pr: ControlPrune, jitter: int): Regraft
    requires 0 <= jitter < 10
  {
    Regraft(RegraftDelay(pr.GetBackoff(), jitter), pr.GetTopicID())
  }

  /** The re-grafts the first `i` prunes of a list schedule, one per prune, in order. */
  function Regrafts(prunes: seq<ControlPrune>, envs: seq<PruneEnv>, i: nat): (r: seq<Regraft>)
    requires AllFit(prunes, envs) && i <= |prunes|
    ensures |r| == i
  {
    if i == 0 then [] else Regrafts(prunes, envs, i - 1) + [RegraftFor(prunes[i - 1], envs[i - 1].jitter)]
  }

  /** One frame read in the drain loop, with what the environment answers for each of its prunes. */
  datatype Frame = Frame(rpc: RPC, envs: seq<PruneEnv>)

  predicate FrameOk(f: Frame) {
    AllFit(Prunes(f.rpc), f.envs)
  }

  predicate FramesOk(frames: seq<Frame>) {
    forall i :: 0 <= i < |frames| ==> FrameOk(frames[i])
  }

  // ---------------------------------------------------------------------------
  // A whole session: the effect of draining a sequence of frames.

  /** The logger submissions of a whole frame. */
  function FrameSubs(f: Frame): seq<Submission>
    requires FrameOk(f)
  {
    PxSubs(Prunes(f.rpc), f.envs, |Prunes(f.rpc)|)
  }

  /** The re-grafts of a whole frame. */
  function FrameRegrafts(f: Frame): seq<Regraft>
    requires FrameOk(f)
  {
    Regrafts(Prunes(f.rpc), f.envs, |Prunes(f.rpc)|)
  }

  /** The backoff map after the first `i` frames. */
  function DrainGrafts(m: map<PeerId, Time>, p: PeerId, frames: seq<Frame>, i: nat): (r: map<PeerId, Time>)
    requires FramesOk(frames) && i <= |frames|
    ensures m.Keys <= r.Keys <= m.Keys + {p}
  {
    if i == 0 then m
    else AfterPrunes(DrainGrafts(m, p, frames, i - 1), p, Prunes(frames[i - 1].rpc), frames[i - 1].envs)
  }

  /** The logger after the first `i` frames. */
  function DrainLog(s: Store, frames: seq<Frame>, i: nat): (r: Store)
    requires FramesOk(frames) && i <= |frames|
    ensures s.peers.Keys <= r.peers.Keys
    ensures |s.out| <= |r.out|
  {
    if i == 0 then s else SubmitAll(DrainLog(s, frames, i - 1), FrameSubs(frames[i - 1]))
  }

  /** The number of prunes in the first `i` frames. */
  function PruneCount(frames: seq<Frame>, i: nat): nat
    requires i <= |frames|
  {
    if i == 0 then 0 else PruneCount(frames, i - 1) + |Prunes(frames[i - 1].rpc)|
  }

  /** The re-grafts scheduled by the first `i` frames, in order: one per prune received. */
  function DrainRegrafts(frames: seq<Frame>, i: nat): (r: seq<Regraft>)
    requires FramesOk(frames) && i <= |frames|
    ensures |r| == PruneCount(frames, i)
  {
    if i == 0 then [] else DrainRegrafts(frames, i - 1) + FrameRegrafts(frames[i - 1])
  }

  /** What the inbound stream and the outbound write do during one session. */
  datatype Inbound = Inbound(
    outbound: bool,       // the outbound stream to the same peer could be opened
    hello: Option<RPC>,  // the first frame, or None for a read error
    now: Time,           // the clock when the wait is computed
    replyWritten: bool,  // writing the grafts succeeded
    frames: seq<Frame>)  // the frames read before end of stream or a read error

  datatype Exit = OpenFailed | BadHello | ReplyFailed | StreamEnded

  /** What a session did: how it ended, how long it waited, what it wrote, what it scheduled. */
  datatype Session = Session(exit: Exit, wait: int, reply: Option<RPC>, regrafts: seq<Regraft>)

  datatype AddrInfo = AddrInfo(id: PeerId, addrs: seq<Multiaddr>)

  /** Parsing a bootstrap address: not a multiaddr, no /p2p component, or its peer info. */
  datatype ParsedAddr = BadMultiaddr | NoPeerInfo | Info(info: AddrInfo)

  /** The peer infos of the addresses that parse, in order. */
  function Connectable(addrs: seq<string>, parse: string -> ParsedAddr): (r: seq<AddrInfo>)
    ensures |r| <= |addrs|
    decreases |addrs|
  {
    if addrs == [] then []
    else
      var n := |addrs| - 1;
      Connectable(addrs[..n], parse) + (if parse(addrs[n]).Info? then [parse(addrs[n]).info] else [])
  }

  class Node {
    const logger: Logger
    var nextGraft: map<PeerId, Time>

    /** NewNode, without the host: an empty backoff map and the shared logger. */
    constructor (l: Logger)
      ensures logger == l && nextGraft == map[]
    {
      logger := l;
      nextGraft := map[];
    }

    /** Starts one connector per bootstrap address that parses; `done` is the wg.Done call. */
    method Background(bootstrappers: seq<string>, parse: string -> ParsedAddr) returns (connectors: seq<AddrInfo>, done: bool)
      ensures connectors == Connectable(bootstrappers, parse)
      ensures done <==> forall i :: 0 <= i < |bootstrappers| ==> !parse(bootstrappers[i]).Info?
    {
      var boot := 0;
      connectors := [];
      for i := 0 to |bootstrappers|
        invariant boot == |connectors|
        invariant connectors == Connectable(bootstrappers[..i], parse)
        invariant boot == 0 <==> forall k :: 0 <= k < i ==> !parse(bootstrappers[k]).Info?
      {
        assert bootstrappers[..i + 1][..i] == bootstrappers[..i];
        var a := bootstrappers[i];
        var pi := parse(a);
        if !pi.Info? {
          continue;
        }
        connectors := connectors + [pi.info];
        boot := boot + 1;
      }
      assert bootstrappers[..|bootstrappers|] == bootstrappers;
      done := boot == 0;
    }

    /** Submits every peer-exchange entry that carries a signed record, in order, under the entry's own peer ID. */
    method SubmitPeerExchange(peers: seq<PeerInfo>, encoded: seq<bool>)
      requires |encoded| == |peers| && logger.Valid()
      modifies logger
      ensures logger.Valid()
      ensures logger.Model() == SubmitAll(old(logger.Model()), PxOf(peers, encoded, |peers|))
    {
      ghost var s0 := logger.Model();
      for j := 0 to |peers|
        invariant logger.Valid()
        invariant logger.Model() == SubmitAll(s0, PxOf(peers, encoded, j))
      {
        var pi := peers[j];
        var spr := pi.signedPeerRecord;
        ghost var done := PxOf(peers, encoded, j);
        if spr.Some? {
          var sub := Submission(pi.GetPeerID(), spr.value, encoded[j]);
          assert PxOf(peers, encoded, j + 1) == done + [sub];
          SubmitAllSnoc(s0, done, sub);
          var _ := logger.AddPeer(pi.GetPeerID(), spr.value, encoded[j]);
        } else {
          assert PxOf(peers, encoded, j + 1) == done + [];
          assert done + [] == done;
        }
      }
    }

    /**
     * Handles one prune from `p`: submits its peer-exchange records, moves the
     * peer's backoff deadline, and schedules the re-graft for the pruned topic.
     */
    method HandlePrune(p: PeerId, pr: ControlPrune, env: PruneEnv) returns (rg: Regraft)
      requires Fits(pr, env) && logger.Valid()
      modifies this, logger
      ensures logger.Valid()
      ensures logger.Model() == SubmitAll(old(logger.Model()), PruneSubs(pr, env))
      ensures nextGraft == old(nextGraft)[p := Deadline(pr, env.now)]
      ensures rg == RegraftFor(pr, env.jitter)
    {
      SubmitPeerExchange(pr.peers, env.encoded);
      var wait := pr.GetBackoff() as int * Second;
      nextGraft := nextGraft[p := env.now + wait];
      rg := Regraft(wait + (1 + env.jitter) * Second, pr.GetTopicID());
    }

    /** The prune loop of the drain loop: each prune of `prunes`, in order, from peer `p`. */
    method HandlePrunes(p: PeerId, prunes: seq<ControlPrune>, envs: seq<PruneEnv>) returns (regrafts: seq<Regraft>)
      requires AllFit(prunes, envs) && logger.Valid()
      modifies this, logger
      ensures logger.Valid()
      ensures nextGraft == AfterPrunes(old(nextGraft), p, prunes, envs)
      ensures logger.Model() == SubmitAll(old(logger.Model()), PxSubs(prunes, envs, |prunes|))
      ensures regrafts == Regrafts(prunes, envs, |prunes|)
    {
      regrafts := [];
      ghost var s0 := logger.Model();
      for i := 0 to |prunes|
        invariant logger.Valid()
        invariant logger.Model() == SubmitAll(s0, PxSubs(prunes, envs, i))
        invariant nextGraft == if i == 0 then old(nextGraft) else old(nextGraft)[p := Deadline(prunes[i - 1], envs[i - 1].now)]
        invariant regrafts == Regrafts(prunes, envs, i)
      {
        SubmitAllAppend(s0, PxSubs(prunes, envs, i), PruneSubs(prunes[i], envs[i]));
        var rg := HandlePrune(p, prunes[i], envs[i]);
        regrafts := regrafts + [rg];
      }
    }

    /** Handles one frame of the drain loop: a frame without a control block is skipped. */
    method HandleRpc(p: PeerId, f: Frame) returns (regrafts: seq<Regraft>)
      requires FrameOk(f) && logger.Valid()
      modifies this, logger
      ensures logger.Valid()
      ensures nextGraft == AfterPrunes(old(nextGraft), p, Prunes(f.rpc), f.envs)
      ensures logger.Model() == SubmitAll(old(logger.Model()), FrameSubs(f))
      ensures regrafts == FrameRegrafts(f)
      ensures f.rpc.control.None? ==>
                nextGraft == old(nextGraft) && logger.Model() == old(logger.Model()) && regrafts == []
    {
      if f.rpc.control.None? {
        return [];
      }
      regrafts := HandlePrunes(p, f.rpc.control.value.prune, f.envs);
    }

    /** The drain loop: every frame read from `p`, in order, until the stream ends. */
    method Drain(p: PeerId, frames: seq<Frame>) returns (regrafts: seq<Regraft>)
      requires logger.Valid() && FramesOk(frames)
      modifies this, logger
      ensures logger.Valid()
      ensures nextGraft == DrainGrafts(old(nextGraft), p, frames, |frames|)
      ensures logger.Model() == DrainLog(old(logger.Model()), frames, |frames|)
      ensures regrafts == DrainRegrafts(frames, |frames|)
    {
      regrafts := [];
      for i := 0 to |frames|
        invariant logger.Valid()
        invariant nextGraft == DrainGrafts(old(nextGraft), p, frames, i)
        invariant logger.Model() == DrainLog(old(logger.Model()), frames, i)
        invariant regrafts == DrainRegrafts(frames, i)
      {
        var r := HandleRpc(p, frames[i]);
        regrafts := regrafts + r;
      }
    }

    /** The gossipsub stream handler, for an inbound stream from peer `p`. */
    method HandleGSStream(p: PeerId, io: Inbound) returns (s: Session)
      requires logger.Valid() && FramesOk(io.frames)
      modifies this, logger
      ensures logger.Valid()
      ensures !io.outbound ==> s.exit == OpenFailed
      ensures io.outbound && io.hello.None? ==> s.exit == BadHello
      ensures io.outbound && io.hello.Some? ==>
                && s.exit == (if io.replyWritten then StreamEnded else ReplyFailed)
                && s.reply == Some(HelloReply(io.hello.value))
                && s.wait == GraftWait(old(nextGraft), p, io.now)
      ensures s.exit == OpenFailed || s.exit == BadHello ==> s.reply == None && s.wait == 0
      ensures s.exit != StreamEnded ==>
                nextGraft == old(nextGraft) && logger.Model() == old(logger.Model()) && s.regrafts == []
      ensures s.exit == StreamEnded ==>
                && nextGraft == DrainGrafts(old(nextGraft), p, io.frames, |io.frames|)
                && logger.Model() == DrainLog(old(logger.Model()), io.frames, |io.frames|)
                && s.regrafts == DrainRegrafts(io.frames, |io.frames|)
    {
      if !io.outbound {
        return Session(OpenFailed, 0, None, []);
      }
      if io.hello.None? {
        return Session(BadHello, 0, None, []);
      }
      var reply := BuildHelloReply(io.hello.value);
      var wait := GraftWait(nextGraft, p, io.now);
      if !io.replyWritten {
        return Session(ReplyFailed, wait, Some(reply), []);
      }
      var regrafts := Drain(p, io.frames);
      return Session(StreamEnded, wait, Some(reply), regrafts);
    }
  }

  // ---------------------------------------------------------------------------
  // Properties of the specification functions.

  /** Entries are submitted in list order: the submissions of a shorter prefix are a prefix of those of a longer one. */
  lemma {:induction false} PxOfPrefix(peers: seq<PeerInfo>, encoded: seq<bool>, i: nat, j: nat)
    requires |encoded| == |peers| && i <= j <= |peers|
    ensures PxOf(peers, encoded, i) <= PxOf(peers, encoded, j)
    decreases j
  {
    if i < j {
      PxOfPrefix(peers, encoded, i, j - 1);
    }
  }

  /** Every submission comes from an entry that carries that record, under the entry's own peer ID and encode outcome. */
  lemma {:induction false} PxOfSound(peers: seq<PeerInfo>, encoded: seq<bool>, j: nat, k: nat)
    requires |encoded| == |peers| && j <= |peers| && k < |PxOf(peers, encoded, j)|
    ensures exists i :: 0 <= i < j && peers[i].signedPeerRecord.Some?
              && PxOf(peers, encoded, j)[k] == Submission(peers[i].GetPeerID(), peers[i].signedPeerRecord.value, encoded[i])
    decreases j
  {
    if k < |PxOf(peers, encoded, j - 1)| {
      PxOfSound(peers, encoded, j - 1, k);
    }
  }

  /** Every entry that carries a signed record is submitted, with its own encode outcome. */
  lemma {:induction false} PxOfComplete(peers: seq<PeerInfo>, encoded: seq<bool>, j: nat, i: nat)
    requires |encoded| == |peers| && i < j <= |peers| && peers[i].signedPeerRecord.Some?
    ensures Submission(peers[i].GetPeerID(), peers[i].signedPeerRecord.value, encoded[i]) in PxOf(peers, encoded, j)
    decreases j
  {
    if i < j - 1 {
      PxOfComplete(peers, encoded, j - 1, i);
    }
  }

  /** Prunes are handled in list order: the submissions of the earlier prunes come first. */
  lemma {:induction false} PxSubsPrefix(prunes: seq<ControlPrune>, envs: seq<PruneEnv>, i: nat, j: nat)
    requires AllFit(prunes, envs) && i <= j <= |prunes|
    ensures PxSubs(prunes, envs, i) <= PxSubs(prunes, envs, j)
    decreases j
  {
    if i < j {
      PxSubsPrefix(prunes, envs, i, j - 1);
    }
  }

  /** One re-graft per prune, in order: each waits out the backoff plus one to ten seconds and grafts only the pruned topic. */
  lemma {:induction false} RegraftsAt(prunes: seq<ControlPrune>, envs: seq<PruneEnv>, i: nat, m: nat)
    requires AllFit(prunes, envs) && m < i <= |prunes|
    ensures Regrafts(prunes, envs, i)[m].Message() == GraftOnly(prunes[m].GetTopicID())
    ensures prunes[m].GetBackoff() as int * Second + Second <= Regrafts(prunes, envs, i)[m].delay
                                                            <= prunes[m].GetBackoff() as int * Second + 10 * Second
    decreases i
  {
    if m < i - 1 {
      RegraftsAt(prunes, envs, i - 1, m);
    }
  }

  /** Over a whole session, the backoff entries of peers other than the session's peer are untouched. */
  lemma {:induction false} DrainGraftsOthers(m: map<PeerId, Time>, p: PeerId, frames: seq<Frame>, i: nat)
    requires FramesOk(frames) && i <= |frames|
    ensures DrainGrafts(m, p, frames, i).Keys <= m.Keys + {p}
    ensures m.Keys <= DrainGrafts(m, p, frames, i).Keys
    ensures forall q :: q in m && q != p ==> DrainGrafts(m, p, frames, i)[q] == m[q]
    decreases i
  {
    if i > 0 {
      DrainGraftsOthers(m, p, frames, i - 1);
    }
  }

  /** Frames without a control block leave the backoff map, the logger and the schedule as they were. */
  lemma {:induction false} DrainWithoutControl(m: map<PeerId, Time>, p: PeerId, s: Store, frames: seq<Frame>, i: nat)
    requires FramesOk(frames) && i <= |frames|
    requires forall k :: 0 <= k < |frames| ==> frames[k].rpc.control.None?
    ensures DrainGrafts(m, p, frames, i) == m
    ensures DrainLog(s, frames, i) == s
    ensures DrainRegrafts(frames, i) == []
    decreases i
  {
    if i > 0 {
      DrainWithoutControl(m, p, s, frames, i - 1);
      assert frames[i - 1].envs == [];
    }
  }

  /** A session keeps the logger consistent and never lowers a stored sequence number. */
  lemma {:induction false} DrainLogConsistent(s: Store, frames: seq<Frame>, i: nat)
    requires FramesOk(frames) && i <= |frames| && Consistent(s)
    ensures Consistent(DrainLog(s, frames, i))
    ensures forall q :: q in s.peers ==> q in DrainLog(s, frames, i).peers && s.peers[q] <= DrainLog(s, frames, i).peers[q]
    decreases i
  {
    if i > 0 {
      DrainLogConsistent(s, frames, i - 1);
      var mid := DrainLog(s, frames, i - 1);
      SubmitAllConsistent(mid, FrameSubs(frames[i - 1]));
      SubmitAllMonotone(mid, FrameSubs(frames[i - 1]));
    }
  }

  /** A bootstrap address gets a connector iff it parses; bad entries are skipped. */
  lemma ConnectableMembers(addrs: seq<string>, parse: string -> ParsedAddr, info: AddrInfo)
    ensures info in Connectable(addrs, parse) <==> exists i :: 0 <= i < |addrs| && parse(addrs[i]) == Info(info)
  {
    if info in Connectable(addrs, parse) {
      ConnectableSound(addrs, parse, info);
    }
    if exists i :: 0 <= i < |addrs| && parse(addrs[i]) == Info(info) {
      var i :| 0 <= i < |addrs| && parse(addrs[i]) == Info(info);
      ConnectableComplete(addrs, parse, i);
    }
  }

  /** Every connector comes from an address that parses to it. */
  lemma {:induction false} ConnectableSound(addrs: seq<string>, parse: string -> ParsedAddr, info: AddrInfo)
    requires info in Connectable(addrs, parse)
    ensures exists i :: 0 <= i < |addrs| && parse(addrs[i]) == Info(info)
    decreases |addrs|
  {
    var n := |addrs| - 1;
    if info in Connectable(addrs[..n], parse) {
      ConnectableSound(addrs[..n], parse, info);
      var i :| 0 <= i < n && parse(addrs[..n][i]) == Info(info);
      assert addrs[i] == addrs[..n][i];
    } else {
      assert parse(addrs[n]) == Info(info);
    }
  }

  /** Every address that parses gets a connector. */
  lemma {:induction false} ConnectableComplete(addrs: seq<string>, parse: string -> ParsedAddr, i: nat)
    requires i < |addrs| && parse(addrs[i]).Info?
    ensures parse(addrs[i]).info in Connectable(addrs, parse)
    decreases |addrs|
  {
    var n := |addrs| - 1;
    if i < n {
      assert addrs[..n][i] == addrs[i];
      ConnectableComplete(addrs[..n], parse, i);
    }
  }

  /** A hello declaring t1 and t2 is answered with grafts for exactly t1 and t2. */
  lemma HelloTwoTopics()
    ensures HelloReply(RPC([SubOpts(Some(true), Some("t1")), SubOpts(Some(true), Some("t2"))], None))
         == RPC([], Some(ControlMessage([ControlGraft(Some("t1")), ControlGraft(Some("t2"))], [])))
  {
    var subs := [SubOpts(Some(true), Some("t1")), SubOpts(Some(true), Some("t2"))];
    assert GraftsFor(subs) == [ControlGraft(Some("t1")), ControlGraft(Some("t2"))] by {
      assert subs[0].GetTopicid() == "t1" && subs[1].GetTopicid() == "t2";
    }
  }
}
