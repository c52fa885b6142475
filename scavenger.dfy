/**
 * The scavenger (scavenger.go): drops from the gossip store every key no
 * longer configured and every slot of a node no longer a gossip member,
 * and drops from the detector every key no longer configured.
 */
module Scavenger {
  import opened GossipCache
  import opened Cache
  import opened CommonDetector

  /** `Exists`: a linear scan telling whether `ele` occurs in `slice`. */
  method Exists(slice: seq<string>, ele: string) returns (r: bool)
    ensures r <==> ele in slice
  {
    var i := 0;
    while i < |slice|
      invariant 0 <= i <= |slice|
      invariant ele !in slice[..i]
    {
      if slice[i] == ele {
        return true;
      }
      i := i + 1;
    }
    assert slice[..i] == slice;
    return false;
  }

  /**
   * The entry with the slots of non-members removed, except those of nodes
   * still `pending`; a nil node map stays nil.
   */
  function PruneExcept(c: Consensus, members: seq<string>, pending: set<string>): Consensus {
    if c.consensus.NilMap? then c
    else c.(consensus := Observed(map n | n in c.consensus.nodes && (n in members || n in pending) :: c.consensus.nodes[n]))
  }

  /** The entry with the slots of every node that is not a member removed. */
  function Prune(c: Consensus, members: seq<string>): (r: Consensus)
    ensures SameMarks(r, c) && r.consensus.NilMap? == c.consensus.NilMap?
    ensures r.consensus.Nodes().Keys == set n | n in c.consensus.Nodes() && n in members
    ensures forall n :: n in r.consensus.Nodes() ==> r.consensus.Nodes()[n] == c.consensus.Nodes()[n]
  {
    PruneExcept(c, members, {})
  }

  /**
   * The store with the keys already visited (those not `pending`)
   * scavenged: dropped when no longer configured, pruned otherwise.
   */
  function ScavengeExcept(store: Store, kv: map<string, string>, members: seq<string>, pending: set<string>): Store {
    map k | k in store && (k in pending || k in kv) :: if k in pending then store[k] else Prune(store[k], members)
  }

  /**
   * The store after a scavenge with configured keys `kv` and gossip members
   * `members`: only configured keys remain, each with the slots of members
   * only, and every watermark, flag and remaining slot as it was.
   */
  function Scavenged(store: Store, kv: map<string, string>, members: seq<string>): (r: Store)
    ensures r.Keys == store.Keys * kv.Keys
    ensures forall k :: k in r ==> r[k] == Prune(store[k], members)
  {
    ScavengeExcept(store, kv, members, {})
  }

  /** Nothing visited yet: the store as it is. */
  lemma ScavengeStart(store: Store, kv: map<string, string>, members: seq<string>)
    ensures ScavengeExcept(store, kv, members, store.Keys) == store
  {
  }

  /** Visiting a key no longer configured drops it. */
  lemma ScavengeDrop(store: Store, kv: map<string, string>, members: seq<string>, pending: set<string>, key: string)
    requires key in pending && key !in kv
    ensures ScavengeExcept(store, kv, members, pending) - {key} == ScavengeExcept(store, kv, members, pending - {key})
  {
  }

  /** Visiting a configured key prunes its entry. */
  lemma ScavengeKeep(store: Store, kv: map<string, string>, members: seq<string>, pending: set<string>, key: string)
    requires key in pending && key in kv && key in store
    ensures ScavengeExcept(store, kv, members, pending)[key := Prune(store[key], members)] ==
      ScavengeExcept(store, kv, members, pending - {key})
  {
  }

  /** No node visited yet: the entry as it is. */
  lemma PruneStart(c: Consensus, members: seq<string>)
    ensures PruneExcept(c, members, c.consensus.Nodes().Keys) == c
  {
    if c.consensus.Observed? {
      assert c.consensus.nodes == map n | n in c.consensus.nodes && (n in members || n in c.consensus.Nodes().Keys) :: c.consensus.nodes[n];
    }
  }

  /**
   * Visiting one node of a key's entry: a non-member's slot is deleted
   * (as `DelNodeAddr` does), a member's slot is kept.
   */
  lemma PruneVisit(store: Store, key: string, c: Consensus, members: seq<string>, pending: set<string>, node: string)
    requires key in store && store[key] == PruneExcept(c, members, pending) && node in pending
    ensures node !in members ==> WithoutNode(store, key, node) == store[key := PruneExcept(c, members, pending - {node})]
    ensures node in members ==> store == store[key := PruneExcept(c, members, pending - {node})]
  {
    if c.consensus.Observed? {
      var after := PruneExcept(c, members, pending - {node});
      if node !in members {
        assert after.consensus.nodes == store[key].consensus.nodes - {node};
      } else {
        assert after.consensus.nodes == store[key].consensus.nodes;
      }
    }
  }

  /**
   * Scavenging twice is scavenging once: a second pass with the same
   * configuration and membership finds nothing to remove.
   */
  lemma ScavengeIdempotent(store: Store, kv: map<string, string>, members: seq<string>)
    ensures Scavenged(Scavenged(store, kv, members), kv, members) == Scavenged(store, kv, members)
  {
    var once := Scavenged(store, kv, members);
    forall k | k in once
      ensures Prune(once[k], members) == once[k]
    {
      if once[k].consensus.Observed? {
        assert Prune(once[k], members).consensus.nodes == once[k].consensus.nodes;
      }
    }
  }

  /**
   * Scavenging never takes away what it should keep: a configured key stays,
   * with its watermarks and flags, and a member's slot keeps its observation.
   */
  lemma ScavengeKeepsMembers(store: Store, kv: map<string, string>, members: seq<string>, key: string, node: string)
    requires key in store && key in kv
    ensures key in Scavenged(store, kv, members)
    ensures SameMarks(Scavenged(store, kv, members)[key], store[key])
    ensures node in members && node in store[key].consensus.Nodes() ==>
      node in Scavenged(store, kv, members)[key].consensus.Nodes() &&
      SlotOf(Scavenged(store, kv, members), key, node) == SlotOf(store, key, node)
  {
  }

  /** Scavenging keeps every entry writable that was writable. */
  lemma ScavengeKeepsNoNilMaps(store: Store, kv: map<string, string>, members: seq<string>)
    requires NoNilMaps(store)
    ensures NoNilMaps(Scavenged(store, kv, members))
  {
  }

  /** The entries of `m` whose keys are pending or configured. */
  function Restricted<V>(m: map<string, V>, data: map<string, string>, pending: set<string>): map<string, V> {
    map k | k in m && (k in pending || k in data) :: m[k]
  }

  /** Visiting one key of the detector: dropped when not configured, kept otherwise. */
  lemma RestrictStep<V>(m: map<string, V>, data: map<string, string>, pending: set<string>, key: string)
    requires key in pending
    ensures key !in data ==> Restricted(m, data, pending) - {key} == Restricted(m, data, pending - {key})
    ensures key in data ==> Restricted(m, data, pending) == Restricted(m, data, pending - {key})
  {
  }

  /** With nothing pending, only the configured keys remain. */
  lemma RestrictedDone<V>(m: map<string, V>, data: map<string, string>)
    ensures Restricted(m, data, {}) == map k | k in m && k in data :: m[k]
  {
  }

  /** `scavenger`, with its verifier being the common verifier, whose detector it prunes. */
  class Scavenger {
    const cm: CacheManager
    const gcm: GossipCacheManager
    const det: Detector

    constructor (cm: CacheManager, gcm: GossipCacheManager, det: Detector)
      ensures this.cm == cm && this.gcm == gcm && this.det == det
    {
      this.cm := cm;
      this.gcm := gcm;
      this.det := det;
    }

    /**
     * `scavenge` with gossip membership `members`: the gossip store keeps
     * only configured keys and member slots; the detector keeps only the
     * windows of configured keys, untouched.
     */
    method Scavenge(members: seq<string>)
      requires det.Valid()
      modifies gcm`data, det
      ensures gcm.data == Scavenged(old(gcm.data), cm.data, members)
      ensures det.Valid() && det.Repr == old(det.Repr)
      ensures det.w == map k | k in old(det.w) && k in cm.data :: old(det.w)[k]
    {
      var data := cm.Clone();
      PruneGossip(members, data);
      PruneDetector(data);
    }

    /** The gossip store pass of `scavenge`, against the configured keys `data`. */
    method PruneGossip(members: seq<string>, data: map<string, string>)
      modifies gcm`data
      ensures gcm.data == Scavenged(old(gcm.data), data, members)
    {
      var snapshot := gcm.Clone();
      ghost var store0 := gcm.data;
      ScavengeStart(store0, data, members);
      var todo := snapshot.Keys;
      while todo != {}
        invariant todo <= store0.Keys
        invariant gcm.data == ScavengeExcept(store0, data, members, todo)
        decreases todo
      {
        var key :| key in todo;
        if key !in data {
          gcm.DelKey(key);
          ScavengeDrop(store0, data, members, todo, key);
        } else {
          var nodes := snapshot[key].consensus.Nodes();
          ghost var c := store0[key];
          ghost var rest := ScavengeExcept(store0, data, members, todo);
          PruneStart(c, members);
          assert rest[key := c] == rest;
          var pendingNodes := nodes.Keys;
          while pendingNodes != {}
            invariant pendingNodes <= nodes.Keys
            invariant gcm.data == rest[key := PruneExcept(c, members, pendingNodes)]
            decreases pendingNodes
          {
            var node :| node in pendingNodes;
            var found := Exists(members, node);
            PruneVisit(gcm.data, key, c, members, pendingNodes, node);
            if !found {
              gcm.DelNodeAddr(key, node);
            }
            pendingNodes := pendingNodes - {node};
          }
          ScavengeKeep(store0, data, members, todo, key);
        }
        todo := todo - {key};
      }
    }

    /** The detector pass of `scavenge`: every window of a key not configured is deleted. */
    method PruneDetector(data: map<string, string>)
      requires det.Valid()
      modifies det
      ensures det.Valid() && det.Repr == old(det.Repr)
      ensures det.w == map k | k in old(det.w) && k in data :: old(det.w)[k]
    {
      ghost var w0, repr0 := det.w, det.Repr;
      var windows := det.Clone();
      var todo := windows.Keys;
      while todo != {}
        invariant todo <= w0.Keys
        invariant det.Valid() && det.Repr == repr0
        invariant det.w == Restricted(w0, data, todo)
        decreases todo
      {
        var key :| key in todo;
        if key !in data {
          det.DelKey(key);
        }
        RestrictStep(w0, data, todo, key);
        todo := todo - {key};
      }
      RestrictedDone(w0, data);
    }
  }
}
