/**
 * The peer identities and signed peer records that both the wire messages and
 * the logger speak about. Signature checking is not modelled: the outcome of
 * consuming an envelope is an `Envelope` value.
 */
module PeerRecords {

  /** Go's uint64, the type of a peer record's sequence number and of a prune backoff. */
  newtype u64 = x: int | 0 <= x < 0x1_0000_0000_0000_0000

  /** A peer ID (the string form of the multihash of the peer's public key). */
  type PeerId = string

  /** A multiaddress in its textual form. */
  type Multiaddr = string

  datatype PeerRecord = PeerRecord(peerId: PeerId, seqNo: u64, addrs: seq<Multiaddr>)

  /** What consuming a signed envelope yields: an error, a payload of another record type, or a peer record. */
  datatype Envelope = Undecodable | OtherPayload | SignedRecord(rec: PeerRecord)
}
