/**
 * The deduplicating peer-record logger: a map from peer ID to the highest
 * accepted sequence number, and an append-only output log of accepted records.
 * Signature checking and JSON encoding are external: the outcome of consuming
 * the envelope is an `Envelope` value, and whether the encoder succeeded is a
 * boolean supplied by the environment.
 */
module PeerLogger {
  import opened PeerRecords

  /** Which of the checks of AddPeer decided a submission (each rejection is the warning that is logged). */
  datatype Verdict = BadEnvelope | NotPeerRecord | WrongPeer | NotNewer | Accepted

  /** The logger's abstract state: the known-peer index and the records written so far. */
  datatype Store = Store(peers: map<PeerId, u64>, out: seq<PeerRecord>)

  /**
   * One call of AddPeer: the peer ID the record was delivered under, the
   * envelope, and whether encoding the record to the output would succeed.
   */
  datatype Submission = Submission(claimed: PeerId, env: Envelope, encoded: bool)

  const Empty := Store(map[], [])

  /** The chain of checks of AddPeer, in the source's order. */
  function Judge(peers: map<PeerId, u64>, p: PeerId, env: Envelope): (v: Verdict)
    ensures v == Accepted <==>
              env.SignedRecord? && env.rec.peerId == p && (p in peers ==> peers[p] < env.rec.seqNo)
    ensures v == BadEnvelope <==> env.Undecodable?
    ensures v == NotPeerRecord <==> env.OtherPayload?
    ensures v == WrongPeer <==> env.SignedRecord? && env.rec.peerId != p
    ensures v == NotNewer <==>
              env.SignedRecord? && env.rec.peerId == p && p in peers && env.rec.seqNo <= peers[p]
  {
    match env
    case Undecodable => BadEnvelope
    case OtherPayload => NotPeerRecord
    case SignedRecord(rec) =>
      if rec.peerId != p then WrongPeer
      else if p in peers && rec.seqNo <= peers[p] then NotNewer
      else Accepted
  }

  /**
   * The effect of one AddPeer on the store. The index is updated before the
   * record is encoded, so a failed encode still records the new sequence number.
   */
  function Submit(s: Store, p: PeerId, env: Envelope, encoded: bool): (r: Store)
    ensures s.peers.Keys <= r.peers.Keys
    ensures |s.out| <= |r.out| <= |s.out| + 1
  {
    if Judge(s.peers, p, env) != Accepted then s
    else Store(s.peers[p := env.rec.seqNo], if encoded then s.out + [env.rec] else s.out)
  }

  /**
   * What one AddPeer does: a rejected submission changes nothing; an accepted
   * one sets the peer's entry to the record's sequence number, touches no other
   * entry, and appends exactly that record when it could be encoded.
   */
  lemma SubmitEffect(s: Store, p: PeerId, env: Envelope, encoded: bool)
    ensures var r := Submit(s, p, env, encoded);
      && (r == s <==> Judge(s.peers, p, env) != Accepted)
      && r.peers.Keys == s.peers.Keys + (if r == s then {} else {p})
      && (forall q :: q in s.peers && q != p ==> r.peers[q] == s.peers[q])
      && (p in s.peers ==> s.peers[p] <= r.peers[p])
      && (r != s ==> r.peers[p] == env.rec.seqNo)
      && r.out == if r != s && encoded then s.out + [env.rec] else s.out
  {
    if Judge(s.peers, p, env) == Accepted {
      assert s.peers[p := env.rec.seqNo] != s.peers by {
        assert p !in s.peers || s.peers[p] < env.rec.seqNo;
      }
    }
  }

  /** A sequence of AddPeer calls, in order. */
  function SubmitAll(s: Store, subs: seq<Submission>): (r: Store)
    ensures s.peers.Keys <= r.peers.Keys
    ensures |s.out| <= |r.out| <= |s.out| + |subs|
    decreases |subs|
  {
    if subs == [] then s
    else
      var n := |subs| - 1;
      Submit(SubmitAll(s, subs[..n]), subs[n].claimed, subs[n].env, subs[n].encoded)
  }

  /** Every logged record belongs to an indexed peer and is not newer than its index entry. */
  ghost predicate Covered(s: Store) {
    forall i :: 0 <= i < |s.out| ==>
      s.out[i].peerId in s.peers && s.out[i].seqNo <= s.peers[s.out[i].peerId]
  }

  /** Successive log entries for the same peer have strictly increasing sequence numbers. */
  ghost predicate Ordered(out: seq<PeerRecord>) {
    forall i, j :: 0 <= i < j < |out| && out[i].peerId == out[j].peerId ==> out[i].seqNo < out[j].seqNo
  }

  ghost predicate Consistent(s: Store) {
    Covered(s) && Ordered(s.out)
  }

  lemma SubmitKeepsConsistent(s: Store, p: PeerId, env: Envelope, encoded: bool)
    requires Consistent(s)
    ensures Consistent(Submit(s, p, env, encoded))
  {
    var r := Submit(s, p, env, encoded);
    if r != s && encoded {
      var n := |s.out|;
      forall i, j | 0 <= i < j < |r.out| && r.out[i].peerId == r.out[j].peerId
        ensures r.out[i].seqNo < r.out[j].seqNo
      {
        if j == n {
          assert r.out[i] == s.out[i];
        } else {
          assert r.out[i] == s.out[i] && r.out[j] == s.out[j];
        }
      }
    }
  }

  /** Any run of submissions keeps the store consistent; from the empty store, the log is Ordered. */
  lemma {:induction false} SubmitAllConsistent(s: Store, subs: seq<Submission>)
    requires Consistent(s)
    ensures Consistent(SubmitAll(s, subs))
    decreases |subs|
  {
    if subs != [] {
      var n := |subs| - 1;
      SubmitAllConsistent(s, subs[..n]);
      SubmitKeepsConsistent(SubmitAll(s, subs[..n]), subs[n].claimed, subs[n].env, subs[n].encoded);
    }
  }

  /**
   * Across any run of submissions the stored sequence number of every peer only
   * grows, no peer is forgotten, and the log is only appended to, by at most one
   * record per submission.
   */
  lemma {:induction false} SubmitAllMonotone(s: Store, subs: seq<Submission>)
    ensures var r := SubmitAll(s, subs);
      && s.peers.Keys <= r.peers.Keys
      && (forall q :: q in s.peers ==> s.peers[q] <= r.peers[q])
      && |s.out| <= |r.out| <= |s.out| + |subs|
      && r.out[..|s.out|] == s.out
    decreases |subs|
  {
    if subs != [] {
      var n := |subs| - 1;
      SubmitAllMonotone(s, subs[..n]);
      var mid := SubmitAll(s, subs[..n]);
      SubmitEffect(mid, subs[n].claimed, subs[n].env, subs[n].encoded);
      var r := SubmitAll(s, subs);
      assert r.out[..|s.out|] == mid.out[..|s.out|];
    }
  }

  /** Submitting the same envelope for the same peer twice in a row has the effect of submitting it once. */
  lemma SubmitTwice(s: Store, p: PeerId, env: Envelope, first: bool, second: bool)
    ensures Submit(Submit(s, p, env, first), p, env, second) == Submit(s, p, env, first)
  {
  }

  /**
   * Submissions for two distinct peers, made in either order, give the same
   * index, and the log holds the same records either way.
   */
  lemma DistinctPeersCommute(s: Store, a: Submission, b: Submission)
    requires a.claimed != b.claimed
    ensures SubmitAll(s, [a, b]).peers == SubmitAll(s, [b, a]).peers
    ensures multiset(SubmitAll(s, [a, b]).out) == multiset(SubmitAll(s, [b, a]).out)
  {
    SubmitPair(s, a, b);
    SubmitPair(s, b, a);
    SubmitCommute(s, a, b);
  }

  lemma SubmitCommute(s: Store, a: Submission, b: Submission)
    requires a.claimed != b.claimed
    ensures var ab := Submit(Submit(s, a.claimed, a.env, a.encoded), b.claimed, b.env, b.encoded);
            var ba := Submit(Submit(s, b.claimed, b.env, b.encoded), a.claimed, a.env, a.encoded);
            ab.peers == ba.peers && multiset(ab.out) == multiset(ba.out)
  {
    JudgeOtherPeer(s, a.claimed, a.env, a.encoded, b.claimed, b.env);
    JudgeOtherPeer(s, b.claimed, b.env, b.encoded, a.claimed, a.env);
    var sa := Submit(s, a.claimed, a.env, a.encoded);
    var sb := Submit(s, b.claimed, b.env, b.encoded);
    var ab := Submit(sa, b.claimed, b.env, b.encoded);
    var ba := Submit(sb, a.claimed, a.env, a.encoded);
    if Judge(s.peers, a.claimed, a.env) == Accepted {
      if Judge(s.peers, b.claimed, b.env) == Accepted {
        BothAccepted(s, a, b);
      } else {
        assert sb == s && ab == sa && ba == sa;
      }
    } else {
      assert sa == s && ab == sb && ba == sb;
    }
  }

  /** Two accepted submissions for distinct peers update disjoint entries and append one record each. */
  lemma BothAccepted(s: Store, a: Submission, b: Submission)
    requires a.claimed != b.claimed
    requires Judge(s.peers, a.claimed, a.env) == Accepted && Judge(s.peers, b.claimed, b.env) == Accepted
    ensures var ab := Submit(Submit(s, a.claimed, a.env, a.encoded), b.claimed, b.env, b.encoded);
            var ba := Submit(Submit(s, b.claimed, b.env, b.encoded), a.claimed, a.env, a.encoded);
            ab.peers == ba.peers && multiset(ab.out) == multiset(ba.out)
  {
    var ra := if a.encoded then [a.env.rec] else [];
    var rb := if b.encoded then [b.env.rec] else [];
    var sa := Submit(s, a.claimed, a.env, a.encoded);
    var sb := Submit(s, b.claimed, b.env, b.encoded);
    JudgeOtherPeer(s, a.claimed, a.env, a.encoded, b.claimed, b.env);
    JudgeOtherPeer(s, b.claimed, b.env, b.encoded, a.claimed, a.env);
    var ab := Submit(sa, b.claimed, b.env, b.encoded);
    var ba := Submit(sb, a.claimed, a.env, a.encoded);
    assert ab.out == s.out + ra + rb;
    assert ba.out == s.out + rb + ra;
    assert ab.peers == s.peers[a.claimed := a.env.rec.seqNo][b.claimed := b.env.rec.seqNo];
    assert ba.peers == s.peers[b.claimed := b.env.rec.seqNo][a.claimed := a.env.rec.seqNo];
    UpdatesCommute(s.peers, a.claimed, a.env.rec.seqNo, b.claimed, b.env.rec.seqNo);
    assert multiset(ab.out) == multiset(s.out) + multiset(ra) + multiset(rb);
  }

  lemma UpdatesCommute(m: map<PeerId, u64>, p: PeerId, x: u64, q: PeerId, y: u64)
    requires p != q
    ensures m[p := x][q := y] == m[q := y][p := x]
  {
  }

  lemma SubmitPair(s: Store, a: Submission, b: Submission)
    ensures SubmitAll(s, [a, b])
         == Submit(Submit(s, a.claimed, a.env, a.encoded), b.claimed, b.env, b.encoded)
  {
    assert [a][..0] == [];
    assert SubmitAll(s, [a]) == Submit(s, a.claimed, a.env, a.encoded);
    assert [a, b][..1] == [a];
  }

  /** A submission for one peer does not change how a submission for another peer is judged. */
  lemma JudgeOtherPeer(s: Store, p: PeerId, env: Envelope, encoded: bool, q: PeerId, other: Envelope)
    requires p != q
    ensures Judge(Submit(s, p, env, encoded).peers, q, other) == Judge(s.peers, q, other)
  {
    var r := Submit(s, p, env, encoded);
    assert (q in r.peers) == (q in s.peers);
    assert q in s.peers ==> r.peers[q] == s.peers[q];
  }

  lemma SubmitAllSnoc(s: Store, subs: seq<Submission>, x: Submission)
    ensures SubmitAll(s, subs + [x]) == Submit(SubmitAll(s, subs), x.claimed, x.env, x.encoded)
  {
    assert (subs + [x])[..|subs|] == subs;
  }

  /** Running two lists of submissions one after the other is running their concatenation. */
  lemma {:induction false} SubmitAllAppend(s: Store, a: seq<Submission>, b: seq<Submission>)
    ensures SubmitAll(s, a + b) == SubmitAll(SubmitAll(s, a), b)
    decreases |b|
  {
    if b == [] {
      assert a + b == a;
    } else {
      var n := |b| - 1;
      assert (a + b)[..|a| + n] == a + b[..n];
      SubmitAllAppend(s, a, b[..n]);
    }
  }

  /** The logger object: the known-peer index and the output stream, updated in place. */
  class Logger {
    var peers: map<PeerId, u64>
    var out: seq<PeerRecord>

    function Model(): Store
      reads this
    {
      Store(peers, out)
    }

    ghost predicate Valid()
      reads this
    {
      Consistent(Model())
    }

    /** NewLogger: an empty index over a fresh output stream. */
    constructor ()
      ensures Valid()
      ensures Model() == Empty
    {
      peers := map[];
      out := [];
    }

    /**
     * Submits the envelope delivered under peer ID `p`; `encoded` says whether
     * writing the record to the output succeeds. Returns which check decided.
     */
    method AddPeer(p: PeerId, env: Envelope, encoded: bool) returns (v: Verdict)
      requires Valid()
      modifies this
      ensures Valid()
      ensures v == Judge(old(peers), p, env)
      ensures Model() == Submit(old(Model()), p, env, encoded)
    {
      SubmitKeepsConsistent(Model(), p, env, encoded);
      if env.Undecodable? {
        return BadEnvelope;
      }
      if env.OtherPayload? {
        return NotPeerRecord;
      }
      var rec := env.rec;
      if rec.peerId != p {
        return WrongPeer;
      }
      if p in peers && rec.seqNo <= peers[p] {
        return NotNewer;
      }
      peers := peers[p := rec.seqNo];
      if encoded {
        out := out + [rec];
      }
      v := Accepted;
    }
  }
}
