/**
 * The gossip consensus store (gossipCache.go): per key, one last-writer-wins
 * slot per observing node, plus the watermarks and flags the quorum checker
 * keeps for that key. The store's map is modelled as a value; the class
 * `GossipCacheManager` owns it and reassigns it on every update, and records
 * every envelope it hands to the gossip layer for broadcasting.
 */
module GossipCache {
  import opened GossipStatus
  import opened Delegate

  /**
   * A zero `time.Time` (1 January of year 1) as a nanosecond watermark: the
   * value Go's `UnixNano` reports for it after its int64 product wraps.
   * Every clock reading after 1754 lies above it.
   */
  const ZERO_TIME: int := -6795364578871345152

  /** `gossipStatusAndTimeStamp`: one node's latest observation of a key. */
  datatype Obs = Obs(status: Status, timeStamp: int)

  /**
   * The per-node map of an entry. An entry created by one of the watermark
   * setters has a nil map: reading it sees no nodes, writing into it panics.
   */
  datatype Observations = NilMap | Observed(nodes: map<string, Obs>) {
    function Nodes(): map<string, Obs> {
      if NilMap? then map[] else nodes
    }
  }

  /** `gossipConsensus`: the store's entry for one key. */
  datatype Consensus = Consensus(
    prevEventTime: int,
    prevConsensus: Status,
    empty: bool,
    emptyTime: int,
    consensus: Observations)

  type Store = map<string, Consensus>

  /** The entry a watermark setter creates for a missing key: every field zero, the node map nil. */
  const ZeroEntry: Consensus := Consensus(ZERO_TIME, NO_STATUS, false, ZERO_TIME, NilMap)

  function EntryOf(store: Store, key: string): Consensus {
    if key in store then store[key] else ZeroEntry
  }

  /** The two entries carry the same watermarks and flags. */
  predicate SameMarks(a: Consensus, b: Consensus) {
    a.prevEventTime == b.prevEventTime && a.prevConsensus == b.prevConsensus &&
    a.empty == b.empty && a.emptyTime == b.emptyTime
  }

  /** `Set` would write into a nil node map, which panics, exactly when this is false. */
  predicate CanSet(store: Store, key: string) {
    key in store ==> store[key].consensus.Observed?
  }

  /** No entry has a nil node map, so `Set` can be applied to any key. */
  predicate NoNilMaps(store: Store) {
    forall k :: k in store ==> store[k].consensus.Observed?
  }

  datatype SetOutcome = SetOutcome(store: Store, written: bool)

  /**
   * The last-writer-wins merge of `Set`: a missing key gets a fresh entry
   * holding only this observation; a node without a slot gets one; an
   * existing slot is overwritten only by a strictly newer timestamp.
   * `written` tells whether anything changed (and so whether a broadcast is queued).
   */
  function SetObservation(store: Store, key: string, node: string, ts: int, status: Status): (r: SetOutcome)
    requires CanSet(store, key)
    ensures r.store.Keys == store.Keys + {key}
    ensures NoNilMaps(store) ==> NoNilMaps(r.store)
    ensures forall k :: CanSet(store, k) ==> CanSet(r.store, k)
    ensures forall k :: k in store && k != key ==> r.store[k] == store[k]
    ensures key !in store ==>
      r.written && r.store[key] == Consensus(ZERO_TIME, NO_STATUS, false, ZERO_TIME, Observed(map[node := Obs(status, ts)]))
    ensures key in store ==>
      var before := store[key].consensus.Nodes();
      var after := r.store[key].consensus.Nodes();
      && SameMarks(r.store[key], store[key])
      && r.store[key].consensus.Observed?
      && after.Keys == before.Keys + {node}
      && (forall n :: n in before && n != node ==> after[n] == before[n])
      && (r.written <==> node !in before || ts > before[node].timeStamp)
      && (r.written ==> after[node] == Obs(status, ts))
      && (node in before ==> after[node].timeStamp >= before[node].timeStamp)
    ensures !r.written ==> r.store == store
  {
    if key in store then
      var nodes := store[key].consensus.Nodes();
      if node in nodes && ts <= nodes[node].timeStamp then
        SetOutcome(store, false)
      else
        SetOutcome(store[key := store[key].(consensus := Observed(nodes[node := Obs(status, ts)]))], true)
    else
      SetOutcome(store[key := Consensus(ZERO_TIME, NO_STATUS, false, ZERO_TIME, Observed(map[node := Obs(status, ts)]))], true)
  }

  /** The observation stored for (key, node), if any. */
  function SlotOf(store: Store, key: string, node: string): Obs
    requires key in store && node in store[key].consensus.Nodes()
  {
    store[key].consensus.Nodes()[node]
  }

  /**
   * Last writer wins regardless of arrival order: two observations of one
   * (key, node) with timestamps t1 < t2, applied in either order, leave the
   * same store, and that store holds the t2 observation, provided nothing
   * newer than t2 was stored before.
   */
  lemma LastWriterWinsInEitherOrder(store: Store, key: string, node: string, t1: int, s1: Status, t2: int, s2: Status)
    requires CanSet(store, key) && t1 < t2
    requires key in store && node in store[key].consensus.Nodes() ==> SlotOf(store, key, node).timeStamp < t2
    ensures
      var a := SetObservation(store, key, node, t1, s1).store;
      var b := SetObservation(store, key, node, t2, s2).store;
      && SetObservation(a, key, node, t2, s2).store == SetObservation(b, key, node, t1, s1).store
      && SlotOf(SetObservation(a, key, node, t2, s2).store, key, node) == Obs(s2, t2)
  {
    var a := SetObservation(store, key, node, t1, s1).store;
    var b := SetObservation(store, key, node, t2, s2).store;
    var ab := SetObservation(a, key, node, t2, s2).store;
    var ba := SetObservation(b, key, node, t1, s1).store;
    assert ba == b;
    var o1, o2 := Obs(s1, t1), Obs(s2, t2);
    if key !in store {
      var fresh2 := Consensus(ZERO_TIME, NO_STATUS, false, ZERO_TIME, Observed(map[node := o2]));
      UpdateTwice(map[], node, o1, o2);
      assert ab == a[key := fresh2];
      UpdateTwice(store, key, a[key], fresh2);
    } else if node !in store[key].consensus.nodes || t1 > store[key].consensus.nodes[node].timeStamp {
      var e := store[key];
      var nodes := e.consensus.nodes;
      var e2 := e.(consensus := Observed(nodes[node := o2]));
      UpdateTwice(nodes, node, o1, o2);
      assert ab == a[key := e2];
      UpdateTwice(store, key, a[key], e2);
    }
  }

  /** Updating one key twice keeps only the second value. */
  lemma UpdateTwice<K, V>(m: map<K, V>, k: K, x: V, y: V)
    ensures m[k := x][k := y] == m[k := y]
  {
  }

  /** `SetPreviousConsensus` on the store: overwrite one field, creating a zero entry if needed. */
  function WithPrevConsensus(store: Store, key: string, status: Status): (r: Store)
    ensures r.Keys == store.Keys + {key}
    ensures forall k :: k in store && k != key ==> r[k] == store[k]
    ensures r[key].prevConsensus == status
    ensures var e := EntryOf(store, key);
      r[key].prevEventTime == e.prevEventTime && r[key].empty == e.empty &&
      r[key].emptyTime == e.emptyTime && r[key].consensus == e.consensus
  {
    store[key := EntryOf(store, key).(prevConsensus := status)]
  }

  /** `SetPreviousEventTime` on the store. */
  function WithPrevEventTime(store: Store, key: string, t: int): (r: Store)
    ensures r.Keys == store.Keys + {key}
    ensures forall k :: k in store && k != key ==> r[k] == store[k]
    ensures r[key].prevEventTime == t
    ensures var e := EntryOf(store, key);
      r[key].prevConsensus == e.prevConsensus && r[key].empty == e.empty &&
      r[key].emptyTime == e.emptyTime && r[key].consensus == e.consensus
  {
    store[key := EntryOf(store, key).(prevEventTime := t)]
  }

  /** `SetEmpty` on the store. */
  function WithEmpty(store: Store, key: string, empty: bool): (r: Store)
    ensures r.Keys == store.Keys + {key}
    ensures forall k :: k in store && k != key ==> r[k] == store[k]
    ensures r[key].empty == empty
    ensures var e := EntryOf(store, key);
      r[key].prevConsensus == e.prevConsensus && r[key].prevEventTime == e.prevEventTime &&
      r[key].emptyTime == e.emptyTime && r[key].consensus == e.consensus
  {
    store[key := EntryOf(store, key).(empty := empty)]
  }

  /** `setEmptyTime` on the store. */
  function WithEmptyTime(store: Store, key: string, t: int): (r: Store)
    ensures r.Keys == store.Keys + {key}
    ensures forall k :: k in store && k != key ==> r[k] == store[k]
    ensures r[key].emptyTime == t
    ensures var e := EntryOf(store, key);
      r[key].prevConsensus == e.prevConsensus && r[key].prevEventTime == e.prevEventTime &&
      r[key].empty == e.empty && r[key].consensus == e.consensus
  {
    store[key := EntryOf(store, key).(emptyTime := t)]
  }

  /**
   * An entry first created by a watermark setter has a nil node map, so no
   * observation can afterwards be `Set` for that key (in Go the write panics).
   */
  lemma LazyEntryBlocksSet(store: Store, key: string, status: Status, t: int, b: bool)
    requires key !in store
    ensures !CanSet(WithPrevConsensus(store, key, status), key)
    ensures !CanSet(WithPrevEventTime(store, key, t), key)
    ensures !CanSet(WithEmpty(store, key, b), key)
    ensures !CanSet(WithEmptyTime(store, key, t), key)
  {
  }

  /** `DelNodeAddr` on the store: drop one node's slot; a missing key (or a nil map) is left alone. */
  function WithoutNode(store: Store, key: string, node: string): (r: Store)
    ensures r.Keys == store.Keys
    ensures forall k :: k in store && k != key ==> r[k] == store[k]
    ensures key in store ==>
      SameMarks(r[key], store[key]) &&
      r[key].consensus.Observed? == store[key].consensus.Observed? &&
      r[key].consensus.Nodes() == store[key].consensus.Nodes() - {node}
  {
    if key in store && store[key].consensus.Observed? then
      store[key := store[key].(consensus := Observed(store[key].consensus.nodes - {node}))]
    else
      store
  }

  /** The status stored for (key, node), or KEY_NODE_NOT_EXISTS: what `GetKeyNode` evidently means to return. */
  function LookupKeyNode(store: Store, key: string, node: string): (r: Status)
    ensures key in store && node in store[key].consensus.Nodes() ==> r == SlotOf(store, key, node).status
    ensures !(key in store && node in store[key].consensus.Nodes()) ==> r == KEY_NODE_NOT_EXISTS
  {
    if key in store && node in store[key].consensus.Nodes() then store[key].consensus.Nodes()[node].status
    else KEY_NODE_NOT_EXISTS
  }

  /** `gossipCacheManager`. */
  class GossipCacheManager {
    var data: Store
    /** Every envelope handed to the gossip layer's `SetBroadcasts`, oldest first. */
    var broadcasts: seq<BroadcastMessage>

    constructor ()
      ensures data == map[] && broadcasts == []
    {
      data, broadcasts := map[], [];
    }

    /**
     * `GetKeyNode` as written: the looked-up status is overwritten by a final
     * unconditional assignment, so the answer is always KEY_NODE_NOT_EXISTS.
     */
    function GetKeyNode(key: string, nodeAddr: string): (r: Status)
      reads this
      ensures r == KEY_NODE_NOT_EXISTS
    {
      KEY_NODE_NOT_EXISTS
    }

    /** `Set`: the last-writer-wins merge, queuing one broadcast exactly when it writes. */
    method Set(key: string, value: string, nodeAddr: string, timestamp: int, status: Status)
      requires CanSet(data, key)
      modifies this
      ensures var o := SetObservation(old(data), key, nodeAddr, timestamp, status);
        data == o.store &&
        broadcasts == old(broadcasts) + (if o.written then [BroadcastMessage(timestamp, nodeAddr, key, value, status)] else [])
    {
      var msg := BroadcastMessage(timestamp, nodeAddr, key, value, status);
      if key in data {
        var nodes := data[key].consensus.nodes;
        if nodeAddr in nodes {
          if timestamp > nodes[nodeAddr].timeStamp {
            data := data[key := data[key].(consensus := Observed(nodes[nodeAddr := Obs(status, timestamp)]))];
            broadcasts := broadcasts + [msg];
          }
        } else {
          data := data[key := data[key].(consensus := Observed(nodes[nodeAddr := Obs(status, timestamp)]))];
          broadcasts := broadcasts + [msg];
        }
      } else {
        data := data[key := Consensus(ZERO_TIME, NO_STATUS, false, ZERO_TIME, Observed(map[nodeAddr := Obs(status, timestamp)]))];
        broadcasts := broadcasts + [msg];
      }
    }

    method SetPreviousConsensus(key: string, status: Status)
      modifies this`data
      ensures data == WithPrevConsensus(old(data), key, status)
    {
      if key in data {
        data := data[key := data[key].(prevConsensus := status)];
      } else {
        data := data[key := ZeroEntry.(prevConsensus := status)];
      }
    }

    /** `GetPreviousConsensus`: (previous consensus, true) for a present key, (KEY_NODE_NOT_EXISTS, false) otherwise. */
    function GetPreviousConsensus(key: string): (r: (Status, bool))
      reads this
      ensures r.1 <==> key in data
      ensures key in data ==> r.0 == data[key].prevConsensus
      ensures key !in data ==> r.0 == KEY_NODE_NOT_EXISTS
    {
      if key in data then (data[key].prevConsensus, true) else (KEY_NODE_NOT_EXISTS, false)
    }

    method SetPreviousEventTime(key: string, eventTime: int)
      modifies this`data
      ensures data == WithPrevEventTime(old(data), key, eventTime)
    {
      if key in data {
        data := data[key := data[key].(prevEventTime := eventTime)];
      } else {
        data := data[key := ZeroEntry.(prevEventTime := eventTime)];
      }
    }

    /** `GetEmpty`: (empty flag, true) for a present key, (false, false) otherwise. */
    function GetEmpty(key: string): (r: (bool, bool))
      reads this
      ensures r.1 <==> key in data
      ensures key in data ==> r.0 == data[key].empty
      ensures key !in data ==> !r.0
    {
      if key in data then (data[key].empty, true) else (false, false)
    }

    method SetEmpty(key: string, empty: bool)
      modifies this`data
      ensures data == WithEmpty(old(data), key, empty)
    {
      if key in data {
        data := data[key := data[key].(empty := empty)];
      } else {
        data := data[key := ZeroEntry.(empty := empty)];
      }
    }

    method SetEmptyTime(key: string, emptyTime: int)
      modifies this`data
      ensures data == WithEmptyTime(old(data), key, emptyTime)
    {
      if key in data {
        data := data[key := data[key].(emptyTime := emptyTime)];
      } else {
        data := data[key := ZeroEntry.(emptyTime := emptyTime)];
      }
    }

    method DelNodeAddr(key: string, nodeAddr: string)
      modifies this`data
      ensures data == WithoutNode(old(data), key, nodeAddr)
    {
      if key in data && data[key].consensus.Observed? {
        data := data[key := data[key].(consensus := Observed(data[key].consensus.nodes - {nodeAddr}))];
      }
    }

    method DelKey(key: string)
      modifies this`data
      ensures data == old(data) - {key}
    {
      data := data - {key};
    }

    /**
     * `Clone`: a copy of every entry with the same watermarks and flags and a
     * freshly built node map (a nil map is copied as an empty one), so the
     * copy equals the store whenever no entry has a nil map.
     */
    method Clone() returns (r: Store)
      ensures r.Keys == data.Keys && NoNilMaps(r)
      ensures forall k :: k in data ==> SameMarks(r[k], data[k]) && r[k].consensus.Nodes() == data[k].consensus.Nodes()
      ensures NoNilMaps(data) ==> r == data
    {
      r := map[];
      var keys := data.Keys;
      while keys != {}
        invariant keys <= data.Keys
        invariant r.Keys == data.Keys - keys
        invariant forall k :: k in r ==> r[k] == data[k].(consensus := Observed(data[k].consensus.Nodes()))
        decreases keys
      {
        var key :| key in keys;
        var v := data[key];
        var nodes := CopyNodes(v.consensus.Nodes());
        r := r[key := Consensus(v.prevEventTime, v.prevConsensus, v.empty, v.emptyTime, Observed(nodes))];
        keys := keys - {key};
      }
      if NoNilMaps(data) {
        forall k | k in data
          ensures r[k] == data[k]
        {
          assert data[k].consensus == Observed(data[k].consensus.Nodes());
        }
      }
    }
  }

  /** The inner loop of `Clone`: copies a node map slot by slot. */
  method CopyNodes(m: map<string, Obs>) returns (r: map<string, Obs>)
    ensures r == m
  {
    r := map[];
    var nodes := m.Keys;
    while nodes != {}
      invariant nodes <= m.Keys
      invariant r.Keys == m.Keys - nodes
      invariant forall n :: n in r ==> r[n] == m[n]
      decreases nodes
    {
      var n :| n in nodes;
      r := r[n := m[n]];
      nodes := nodes - {n};
    }
  }

  /** `GetKeyNode` hides every stored observation: where a node's status is stored, it still answers KEY_NODE_NOT_EXISTS. */
  lemma GetKeyNodeHidesStoredStatus(c: GossipCacheManager, key: string, node: string)
    requires key in c.data && node in c.data[key].consensus.Nodes()
    requires SlotOf(c.data, key, node).status != KEY_NODE_NOT_EXISTS
    ensures c.GetKeyNode(key, node) != LookupKeyNode(c.data, key, node)
  {
  }

  /** A concrete store on which `GetKeyNode` and `LookupKeyNode` disagree. */
  lemma GetKeyNodeCounterexample()
    ensures
      var store := map["k" := Consensus(ZERO_TIME, NO_STATUS, false, ZERO_TIME, Observed(map["n1" := Obs(UP, 1)]))];
      LookupKeyNode(store, "k", "n1") == UP && UP != KEY_NODE_NOT_EXISTS
  {
  }
}
