/**
 * The gossipsub wire messages the crawler reads and writes, as already decoded
 * values. Each optional protobuf field is an Option; the getters return the
 * protobuf default ("" or 0) for an absent field, as the generated Go code does.
 * Only the fields the crawler looks at are present.
 */
module PubsubPb {
  import opened Wrappers
  import opened PeerRecords

  /** A topic name: opaque, only mirrored back. */
  type Topic = string

  datatype SubOpts = SubOpts(subscribe: Option<bool>, topicid: Option<Topic>) {
    function GetTopicid(): Topic {
      topicid.GetOr("")
    }
  }

  /** A peer-exchange entry: the candidate's ID bytes and, optionally, its signed peer record. */
  datatype PeerInfo = PeerInfo(peerID: Option<PeerId>, signedPeerRecord: Option<Envelope>) {
    function GetPeerID(): PeerId {
      peerID.GetOr("")
    }
  }

  datatype ControlGraft = ControlGraft(topicID: Option<Topic>)

  /** A prune directive: the topic, the peer-exchange list, and the backoff in seconds. */
  datatype ControlPrune = ControlPrune(topicID: Option<Topic>, peers: seq<PeerInfo>, backoff: Option<u64>) {
    function GetTopicID(): Topic {
      topicID.GetOr("")
    }

    function GetBackoff(): u64 {
      backoff.GetOr(0)
    }
  }

  datatype ControlMessage = ControlMessage(graft: seq<ControlGraft>, prune: seq<ControlPrune>)

  datatype RPC = RPC(subscriptions: seq<SubOpts>, control: Option<ControlMessage>)
}
