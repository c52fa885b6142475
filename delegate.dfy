/**
 * The gossip delegate (delegate.go): the broadcast envelope and its
 * invalidation rule, the node metadata and state blobs, the buffer of
 * received messages, and the membership event counter.
 */
module Delegate {
  import opened Wrappers
  import opened GossipStatus

  newtype byte = x: int | 0 <= x < 256

  /** `MyBroadcastMessage`: one observation as it travels between nodes. */
  datatype BroadcastMessage = BroadcastMessage(timeStamp: int, node: string, key: string, value: string, status: Status)

  /** A broadcast in the transmission queue: ours, or one of another kind. */
  datatype Broadcast = Mine(msg: BroadcastMessage) | Foreign

  /**
   * `m.Invalidates(other)`: a queued broadcast is superseded by `m` exactly
   * when it is one of ours about the same node and key with an older timestamp.
   */
  predicate Invalidates(m: BroadcastMessage, other: Broadcast) {
    other.Mine? && m.node == other.msg.node && m.key == other.msg.key && m.timeStamp > other.msg.timeStamp
  }

  /** Invalidation is a strict order on the broadcasts of one (node, key): irreflexive, asymmetric, transitive. */
  lemma InvalidatesIsStrict(a: BroadcastMessage, b: BroadcastMessage, c: BroadcastMessage)
    ensures !Invalidates(a, Mine(a))
    ensures Invalidates(a, Mine(b)) ==> !Invalidates(b, Mine(a))
    ensures Invalidates(a, Mine(b)) && Invalidates(b, Mine(c)) ==> Invalidates(a, Mine(c))
    ensures !Invalidates(a, Foreign)
  {
  }

  /** `MyDelegate`: the state memberlist reads and writes through its callbacks. */
  class MyDelegate {
    var meta: seq<byte>
    var state: seq<byte>
    var remoteState: seq<byte>
    var msgs: seq<BroadcastMessage>

    constructor ()
      ensures meta == [] && state == [] && remoteState == [] && msgs == []
    {
      meta, state, remoteState, msgs := [], [], [], [];
    }

    method SetMeta(newMeta: seq<byte>)
      modifies this`meta
      ensures meta == newMeta
    {
      meta := newMeta;
    }

    /** `NodeMeta(limit)`: the metadata cut to at most `limit` bytes. */
    function NodeMeta(limit: nat): (r: seq<byte>)
      reads this
      ensures |r| <= limit && r <= meta
      ensures |meta| <= limit ==> r == meta
      ensures |meta| > limit ==> |r| == limit
    {
      if |meta| > limit then meta[..limit] else meta
    }

    method SetState(newState: seq<byte>)
      modifies this`state
      ensures state == newState
    {
      state := newState;
    }

    /** `LocalState`: the state last stored by `SetState`, whatever `join` is. */
    function LocalState(join: bool): seq<byte>
      reads this
    {
      state
    }

    method MergeRemoteState(buf: seq<byte>, join: bool)
      modifies this`remoteState
      ensures remoteState == buf
    {
      remoteState := buf;
    }

    /** `getRemoteState`: a copy of the state last merged from a peer. */
    function GetRemoteState(): seq<byte>
      reads this
    {
      remoteState
    }

    /** `getMessages`: hands over every buffered message in arrival order and empties the buffer. */
    method GetMessages() returns (out: seq<BroadcastMessage>)
      modifies this`msgs
      ensures out == old(msgs) && msgs == []
    {
      out := msgs;
      msgs := [];
    }

    /**
     * `NotifyMsg`: `parsed` is the result of decoding the received bytes as an
     * envelope; exactly one message is buffered when decoding succeeded.
     */
    method NotifyMsg(parsed: Option<BroadcastMessage>)
      modifies this`msgs
      ensures parsed.Some? ==> msgs == old(msgs) + [parsed.value]
      ensures parsed.None? ==> msgs == old(msgs)
    {
      if parsed.Some? {
        msgs := msgs + [parsed.value];
      }
    }
  }

  /** Round trips through the delegate's setters and getters. */
  lemma StoredBlobsReadBack(d: MyDelegate, blob: seq<byte>, join: bool)
    ensures (d.state == blob ==> d.LocalState(join) == blob)
    ensures (d.remoteState == blob ==> d.GetRemoteState() == blob)
    ensures (d.meta == blob ==> d.NodeMeta(|blob|) == blob)
  {
  }

  /** `MyEventDelegate`: counts the members memberlist has told us about. */
  class MyEventDelegate {
    var Num: int

    constructor ()
      ensures Num == 0
    {
      Num := 0;
    }

    method NotifyJoin()
      modifies this
      ensures Num == old(Num) + 1
    {
      Num := Num + 1;
    }

    method NotifyLeave()
      modifies this
      ensures Num == old(Num) - 1
    {
      Num := Num - 1;
    }

    method NotifyUpdate()
      modifies this
      ensures Num == old(Num)
    {
    }
  }
}
