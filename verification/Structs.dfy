/**
 * The records that the controller's data structures share: five-tuples,
 * identifiers and the mapping from device ports to pipes.
 */
module Structs {

  const NUM_PIPES: nat := 4
  const MAX_DEV_PORT_ID: nat := 512
  const MIN_SESSION_ID: nat := 4

  datatype L3Proto = IPv4 | IPv6
  datatype L4Proto = TCP | UDP

  /** The part of a five-tuple that is hashed and compared (`five_tuple_for_hash_t`). */
  datatype FlowKey = FlowKey(srcAddr: nat, dstAddr: nat, srcPort: nat, dstPort: nat, l3: L3Proto, l4: L4Proto)

  /** The part of a five-tuple that is carried along but never compared. */
  datatype Meta = Meta(ingressTs: nat, devPort: nat, egressOffset: int)

  datatype FiveTuple = FiveTuple(h: FlowKey, meta: Meta)

  /** What a flow or session table stores under a key: the rest of the tuple and the issued id. */
  datatype Record = Record(meta: Meta, id: int)

  function DevPortToPipe(devPort: nat): (p: nat)
    ensures 128 * p <= devPort < 128 * (p + 1)
  {
    devPort / 128
  }

  function IdToRegister(id: int): (r: int)
    ensures 4 * r <= id < 4 * (r + 1)
  {
    id / 4
  }

  /** Slot of a session's total: the session id, shifted to the egress pipe for features counted on egress. */
  function TotalIndex(sessionId: int, egressOffset: int, onEgress: bool): (x: int)
    ensures !onEgress ==> x == sessionId
    ensures onEgress ==> x - sessionId == egressOffset
  {
    sessionId + if onEgress then egressOffset else 0
  }

  /**
   * A marker for folded predicates.  `forall i {:trigger Unfold(i)} :: Unfold(i) ==> P`
   * means `P`, but the verifier looks inside only where `Unfold` is mentioned.
   */
  ghost predicate Unfold(i: int) {
    true
  }
}
