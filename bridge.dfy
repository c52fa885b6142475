/**
 * The bridge between the local detector and the gossip store (bridge.go):
 * it hands every configured key to the verifier, stamps every verdict with
 * a strictly increasing local timestamp before merging it into the gossip
 * store, and merges the observations received from peers.
 */
module Bridge {
  import opened Base
  import opened GossipStatus
  import opened GossipCache
  import opened Delegate
  import opened Cache
  import opened Quorum

  /** `verifyInput`: a key and its configured value, sent to the verifier. */
  datatype VerifyInput = VerifyInput(key: string, value: string)

  /** `verifyOutput`: the verifier's status for a key. */
  datatype VerifyOutput = VerifyOutput(key: string, value: string, status: Status)

  /**
   * The local timestamp of the next observation: one past the larger of the
   * clock reading and the previous timestamp, so that it is later than both.
   */
  function NextTimeStamp(now: int, last: int): (t: int)
    ensures t > now && t > last
    ensures t == now + 1 || t == last + 1
    ensures t - 1 >= now && t - 1 >= last
  {
    Max(now, last) + 1
  }

  /** The "may event happened" diagnostic: the new status flips the previous consensus between UP and DOWN. */
  predicate MayEvent(prev: Status, status: Status) {
    (prev == DOWN && status == UP) || (prev == UP && status == DOWN)
  }

  /**
   * The "may empty changed" diagnostic: the key is marked empty and the new
   * status is conclusive and not EMPTY, or it is not marked empty and the
   * new status is EMPTY.
   */
  predicate MayEmptyChange(prevEmpty: bool, status: Status) {
    (prevEmpty && !IsInconclusiveOrEmpty(status)) || (!prevEmpty && status == EMPTY)
  }

  /**
   * The diagnostic for one observation fires exactly when the quorum check,
   * picking that same status, would report an event.
   */
  lemma MayEventIsQuorumEvent(prev: Status, status: Status)
    ensures MayEvent(prev, status) <==> EventVerdict(prev, status).hasEvent
  {
  }

  /**
   * The empty diagnostic for one observation fires exactly when the empty
   * check would write its entry if every fresh observation carried that
   * status (a unanimous quorum, so the key recovers iff the status is
   * conclusive and not EMPTY).
   */
  lemma MayEmptyChangeIsQuorumChange(key: string, now: int, prevEmpty: bool, status: Status)
    ensures var r := EmptyCheck(!IsInconclusiveOrEmpty(status), status);
      MayEmptyChange(prevEmpty, status) <==> EmptyEntries(key, now, prevEmpty, r) != []
  {
  }

  /** Every message's key is writable by `Set` in `store`: none of them lands on a nil node map. */
  predicate AllSettable(store: Store, msgs: seq<BroadcastMessage>) {
    forall m :: m in msgs ==> CanSet(store, m.key)
  }

  /** The store after a sequence of `Set`s, and the envelopes those `Set`s queued for rebroadcast. */
  datatype Merged = Merged(store: Store, forwarded: seq<BroadcastMessage>)

  /**
   * The messages merged into the store one after another, oldest first,
   * each by the last-writer-wins rule; only a message that changed the
   * store is queued again.
   */
  function MergeAll(store: Store, msgs: seq<BroadcastMessage>): (r: Merged)
    requires AllSettable(store, msgs)
    ensures forall k :: CanSet(store, k) ==> CanSet(r.store, k)
    ensures NoNilMaps(store) ==> NoNilMaps(r.store)
    decreases |msgs|
  {
    if msgs == [] then Merged(store, [])
    else
      var m := msgs[|msgs| - 1];
      var r := MergeAll(store, msgs[..|msgs| - 1]);
      var o := SetObservation(r.store, m.key, m.node, m.timeStamp, m.status);
      Merged(o.store, r.forwarded + (if o.written then [m] else []))
  }

  /** Merging one more message: the merge of the prefix, then one `Set`. */
  lemma MergeAllSnoc(store: Store, msgs: seq<BroadcastMessage>, m: BroadcastMessage)
    requires AllSettable(store, msgs + [m])
    ensures var r := MergeAll(store, msgs);
      var o := SetObservation(r.store, m.key, m.node, m.timeStamp, m.status);
      MergeAll(store, msgs + [m]) == Merged(o.store, r.forwarded + (if o.written then [m] else []))
  {
    assert (msgs + [m])[..|msgs|] == msgs;
  }

  /**
   * One more `Set`, of `msg`, after merging `done` into `data0` (when
   * `sent` is what had been queued) leaves the store and the queue that
   * merging `done + [msg]` leaves.
   */
  lemma MergeStep(data0: Store, sent0: seq<BroadcastMessage>, done: seq<BroadcastMessage>, msg: BroadcastMessage,
                  sent: seq<BroadcastMessage>, after: Store, sentAfter: seq<BroadcastMessage>)
    requires AllSettable(data0, done + [msg])
    requires sent == sent0 + MergeAll(data0, done).forwarded
    requires var o := SetObservation(MergeAll(data0, done).store, msg.key, msg.node, msg.timeStamp, msg.status);
      after == o.store && sentAfter == sent + (if o.written then [msg] else [])
    ensures after == MergeAll(data0, done + [msg]).store
    ensures sentAfter == sent0 + MergeAll(data0, done + [msg]).forwarded
  {
    MergeAllSnoc(data0, done, msg);
  }

  /** A prefix one longer is the prefix and the next element. */
  lemma TakeOneMore<T>(s: seq<T>, i: nat)
    requires i < |s|
    ensures s[..i + 1] == s[..i] + [s[i]]
  {
  }

  /** An element of a sequence other than its last is an element of the rest. */
  lemma InitMember<T>(s: seq<T>, x: T)
    requires x in s && x != s[|s| - 1]
    ensures x in s[..|s| - 1]
  {
    var k :| 0 <= k < |s| && s[k] == x;
    assert s[..|s| - 1][k] == x;
  }

  /** The store holds an observation of (key, node) at least as new as `ts`. */
  predicate Holds(store: Store, key: string, node: string, ts: int) {
    key in store && node in store[key].consensus.Nodes() && SlotOf(store, key, node).timeStamp >= ts
  }

  /** Merging never drops a slot and never makes one older. */
  lemma {:induction false} MergeKeepsHolds(store: Store, msgs: seq<BroadcastMessage>, key: string, node: string, ts: int)
    requires AllSettable(store, msgs) && Holds(store, key, node, ts)
    ensures Holds(MergeAll(store, msgs).store, key, node, ts)
    decreases |msgs|
  {
    if msgs != [] {
      MergeKeepsHolds(store, msgs[..|msgs| - 1], key, node, ts);
    }
  }

  /** After a merge, the store holds every merged message's slot at that message's timestamp or later. */
  lemma {:induction false} MergeCovers(store: Store, msgs: seq<BroadcastMessage>)
    requires AllSettable(store, msgs)
    ensures forall m :: m in msgs ==> Holds(MergeAll(store, msgs).store, m.key, m.node, m.timeStamp)
    decreases |msgs|
  {
    if msgs != [] {
      var init, x := msgs[..|msgs| - 1], msgs[|msgs| - 1];
      MergeCovers(store, init);
      var r := MergeAll(store, init);
      var after := MergeAll(store, msgs).store;
      assert after == SetObservation(r.store, x.key, x.node, x.timeStamp, x.status).store;
      forall m | m in msgs ensures Holds(after, m.key, m.node, m.timeStamp) {
        if m != x {
          InitMember(msgs, m);
          assert Holds(r.store, m.key, m.node, m.timeStamp);
        }
      }
    }
  }

  /** Messages the store already holds, at their timestamps or later, change nothing and are not forwarded. */
  lemma {:induction false} MergeHeldIsNoop(store: Store, msgs: seq<BroadcastMessage>)
    requires AllSettable(store, msgs)
    requires forall m :: m in msgs ==> Holds(store, m.key, m.node, m.timeStamp)
    ensures MergeAll(store, msgs) == Merged(store, [])
    decreases |msgs|
  {
    if msgs != [] {
      var init, x := msgs[..|msgs| - 1], msgs[|msgs| - 1];
      forall m | m in init ensures Holds(store, m.key, m.node, m.timeStamp) {
        assert m in msgs;
      }
      MergeHeldIsNoop(store, init);
      assert Holds(store, x.key, x.node, x.timeStamp);
      assert !SetObservation(store, x.key, x.node, x.timeStamp, x.status).written;
    }
  }

  /**
   * Gossip delivered twice is harmless: merging the same messages again
   * leaves the store as it is and forwards nothing, so a rebroadcast does
   * not circulate for ever.
   */
  lemma RedeliveryIsHarmless(store: Store, msgs: seq<BroadcastMessage>)
    requires AllSettable(store, msgs)
    ensures var r := MergeAll(store, msgs);
      MergeAll(r.store, msgs) == Merged(r.store, [])
  {
    MergeCovers(store, msgs);
    MergeHeldIsNoop(MergeAll(store, msgs).store, msgs);
  }

  /** The envelopes `makeGossip2` builds: this node's verdicts, each with its local timestamp. */
  function Stamped(outputs: seq<VerifyOutput>, stamps: seq<int>, node: string): (r: seq<BroadcastMessage>)
    requires |stamps| == |outputs|
    ensures |r| == |outputs|
    ensures forall i :: 0 <= i < |r| ==>
      r[i] == BroadcastMessage(stamps[i], node, outputs[i].key, outputs[i].value, outputs[i].status)
  {
    seq(|outputs|, i requires 0 <= i < |outputs| => BroadcastMessage(stamps[i], node, outputs[i].key, outputs[i].value, outputs[i].status))
  }

  /** Stamping one more verdict appends its envelope. */
  lemma StampedSnoc(outputs: seq<VerifyOutput>, stamps: seq<int>, i: nat, ts: int, node: string)
    requires i < |outputs| && |stamps| == i
    ensures Stamped(outputs[..i + 1], stamps + [ts], node) ==
      Stamped(outputs[..i], stamps, node) + [BroadcastMessage(ts, node, outputs[i].key, outputs[i].value, outputs[i].status)]
  {
  }

  /** The latest of the issued timestamps, or `last` when none was issued. */
  function LatestOf(stamps: seq<int>, last: int): int {
    if stamps == [] then last else stamps[|stamps| - 1]
  }

  /** The timestamps issued, one by one, for verdicts arriving at clock readings `clock`, starting after `last`. */
  function Timestamps(clock: seq<int>, last: int): seq<int>
    decreases |clock|
  {
    if clock == [] then []
    else
      var p := Timestamps(clock[..|clock| - 1], last);
      p + [NextTimeStamp(clock[|clock| - 1], LatestOf(p, last))]
  }

  /**
   * The issued timestamps are strictly increasing, each later than its clock
   * reading and than `last`: one per verdict, and never a repeat.
   */
  lemma {:induction false} TimestampsIncrease(clock: seq<int>, last: int)
    ensures var r := Timestamps(clock, last);
      && |r| == |clock|
      && (forall i :: 0 <= i < |r| ==> r[i] > clock[i] && r[i] > last)
      && (forall i, j :: 0 <= i < j < |r| ==> r[i] < r[j])
    decreases |clock|
  {
    if clock != [] {
      var init := clock[..|clock| - 1];
      TimestampsIncrease(init, last);
      var p := Timestamps(init, last);
      var t := NextTimeStamp(clock[|clock| - 1], LatestOf(p, last));
      assert forall i :: 0 <= i < |p| ==> p[i] <= LatestOf(p, last);
    }
  }

  /** Issuing for one more clock reading appends the next timestamp. */
  lemma TimestampsSnoc(clock: seq<int>, i: nat, last: int)
    requires i < |clock|
    ensures var p := Timestamps(clock[..i], last);
      Timestamps(clock[..i + 1], last) == p + [NextTimeStamp(clock[i], LatestOf(p, last))]
  {
    assert clock[..i + 1][..i] == clock[..i];
  }

  /** `bridge`: the last timestamp it issued, the gossip store it writes to and this node's gossip address. */
  class Bridge {
    const gcm: GossipCacheManager
    const nodeAddr: string
    var lastTimeStamp: int

    constructor (gcm: GossipCacheManager, nodeAddr: string)
      ensures this.gcm == gcm && this.nodeAddr == nodeAddr && lastTimeStamp == 0
    {
      this.gcm := gcm;
      this.nodeAddr := nodeAddr;
      lastTimeStamp := 0;
    }

    /**
     * One iteration of `makeGossip2` for a verdict received when the clock
     * reads `now`: a timestamp later than the clock and than every earlier
     * one, the two diagnostics read from the consensus before the write,
     * then the `Set` of this node's observation.
     */
    method Record(output: VerifyOutput, now: int) returns (ts: int, mayEvent: bool, mayEmpty: bool)
      requires CanSet(gcm.data, output.key)
      modifies this`lastTimeStamp, gcm
      ensures ts == NextTimeStamp(now, old(lastTimeStamp)) && lastTimeStamp == ts
      ensures mayEvent <==> output.key in old(gcm.data) && MayEvent(old(gcm.data)[output.key].prevConsensus, output.status)
      ensures mayEmpty <==> output.key in old(gcm.data) && MayEmptyChange(old(gcm.data)[output.key].empty, output.status)
      ensures var o := SetObservation(old(gcm.data), output.key, nodeAddr, ts, output.status);
        gcm.data == o.store &&
        gcm.broadcasts == old(gcm.broadcasts) + (if o.written then [BroadcastMessage(ts, nodeAddr, output.key, output.value, output.status)] else [])
    {
      ts := Max(now, lastTimeStamp) + 1;
      lastTimeStamp := ts;
      var (prevConsensus, ok) := gcm.GetPreviousConsensus(output.key);
      mayEvent := ok && MayEvent(prevConsensus, output.status);
      var (prevEmpty, ok2) := gcm.GetEmpty(output.key);
      mayEmpty := ok2 && MayEmptyChange(prevEmpty, output.status);
      gcm.Set(output.key, output.value, nodeAddr, ts, output.status);
    }

    /**
     * `makeGossip2` over the verdicts in arrival order, `clock[i]` being the
     * clock reading when `outputs[i]` arrived: the timestamps issued are
     * strictly increasing, each later than its clock reading and than every
     * timestamp issued before, and the store is the merge of the stamped
     * envelopes.
     */
    method MakeGossip2(outputs: seq<VerifyOutput>, clock: seq<int>) returns (stamps: seq<int>)
      requires |clock| == |outputs|
      requires forall o :: o in outputs ==> CanSet(gcm.data, o.key)
      modifies this`lastTimeStamp, gcm
      ensures |stamps| == |outputs| && stamps == Timestamps(clock, old(lastTimeStamp))
      ensures lastTimeStamp == LatestOf(stamps, old(lastTimeStamp))
      ensures var m := MergeAll(old(gcm.data), Stamped(outputs, stamps, nodeAddr));
        gcm.data == m.store && gcm.broadcasts == old(gcm.broadcasts) + m.forwarded
    {
      stamps := [];
      ghost var data0, sent0 := gcm.data, gcm.broadcasts;
      ghost var done: seq<BroadcastMessage> := [];
      var i := 0;
      while i < |outputs|
        invariant 0 <= i <= |outputs| && |stamps| == i
        invariant stamps == Timestamps(clock[..i], old(lastTimeStamp))
        invariant lastTimeStamp == LatestOf(stamps, old(lastTimeStamp))
        invariant done == Stamped(outputs[..i], stamps, nodeAddr) && AllSettable(data0, done)
        invariant gcm.data == MergeAll(data0, done).store
        invariant gcm.broadcasts == sent0 + MergeAll(data0, done).forwarded
      {
        ghost var sent := gcm.broadcasts;
        var ts, _, _ := Record(outputs[i], clock[i]);
        ghost var msg := BroadcastMessage(ts, nodeAddr, outputs[i].key, outputs[i].value, outputs[i].status);
        MergeStep(data0, sent0, done, msg, sent, gcm.data, gcm.broadcasts);
        StampedSnoc(outputs, stamps, i, ts, nodeAddr);
        TimestampsSnoc(clock, i, old(lastTimeStamp));
        stamps := stamps + [ts];
        done := done + [msg];
        i := i + 1;
      }
      assert outputs[..i] == outputs && clock[..i] == clock;
    }

    /** `consumeGossip`: takes every buffered peer message and merges them into the store in arrival order. */
    method ConsumeGossip(d: MyDelegate)
      requires AllSettable(gcm.data, d.msgs)
      modifies d`msgs, gcm
      ensures d.msgs == []
      ensures var m := MergeAll(old(gcm.data), old(d.msgs));
        gcm.data == m.store && gcm.broadcasts == old(gcm.broadcasts) + m.forwarded
    {
      var msgs := d.GetMessages();
      ghost var data0, sent0 := gcm.data, gcm.broadcasts;
      var i := 0;
      while i < |msgs|
        invariant 0 <= i <= |msgs|
        invariant d.msgs == []
        invariant gcm.data == MergeAll(data0, msgs[..i]).store
        invariant gcm.broadcasts == sent0 + MergeAll(data0, msgs[..i]).forwarded
      {
        var msg := msgs[i];
        ghost var sent := gcm.broadcasts;
        gcm.Set(msg.key, msg.value, msg.node, msg.timeStamp, msg.status);
        MergeStep(data0, sent0, msgs[..i], msg, sent, gcm.data, gcm.broadcasts);
        TakeOneMore(msgs, i);
        i := i + 1;
      }
      assert msgs[..i] == msgs;
    }
  }

  /**
   * `makeGossip1`: one verifier input per configured key, each key once,
   * carrying the key's configured value.
   */
  method MakeGossip1(cm: CacheManager) returns (inputs: seq<VerifyInput>)
    ensures forall inp :: inp in inputs ==> inp.key in cm.data && cm.data[inp.key] == inp.value
    ensures forall k :: k in cm.data ==> VerifyInput(k, cm.data[k]) in inputs
    ensures forall i, j :: 0 <= i < j < |inputs| ==> inputs[i].key != inputs[j].key
  {
    var data := cm.Clone();
    var todo := data.Keys;
    inputs := [];
    while todo != {}
      invariant todo <= data.Keys
      invariant forall inp :: inp in inputs ==> inp.key in data && data[inp.key] == inp.value && inp.key !in todo
      invariant forall k :: k in data && k !in todo ==> VerifyInput(k, data[k]) in inputs
      invariant forall i, j :: 0 <= i < j < |inputs| ==> inputs[i].key != inputs[j].key
      decreases todo
    {
      var key :| key in todo;
      inputs := inputs + [VerifyInput(key, data[key])];
      todo := todo - {key};
    }
  }
}
