/**
 * The status strings exchanged between the detector, the gossip store and the
 * quorum checker (gossipCache.go). A status is any string: a probe's stdout is
 * used as a status verbatim, so the named constants are not exhaustive.
 */
module GossipStatus {

  type Status = string

  /** Outcomes reported by a probe. */
  const UP: Status := "UP"
  const DOWN: Status := "DOWN"
  const EMPTY: Status := "EMPTY"

  /** Outcomes produced by the detector's classifier when the samples are inconclusive. */
  const LESS_THAN_MINSAMPLE: Status := "LESS_THAN_MINSAMPLE"
  const NOT_FILL_SAMPLES: Status := "NOT_FILL_SAMPLES"
  const NO_EMPTY_IN_SAMPLES: Status := "NO_EMPTY_IN_SAMPLES"

  /** Produced by the quorum checker only. */
  const EMPTY_RECOVER: Status := "EMPTY_RECOVER"

  /** Produced by the gossip store's lookups. */
  const KEY_NODE_NOT_EXISTS: Status := "KEY_NODE_NOT_EXISTS"

  /** The zero value of a Go `gossipStatus`. */
  const NO_STATUS: Status := ""

  /** Statuses that do not count as a recovery from EMPTY (quorum.go:260-262, bridge.go:54-56). */
  predicate IsInconclusiveOrEmpty(s: Status) {
    s == LESS_THAN_MINSAMPLE || s == NOT_FILL_SAMPLES || s == EMPTY
  }
}
