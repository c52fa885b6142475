/**
 * The quorum checker (quorum.go). For every tracked key the leader counts
 * the fresh per-node observations of the gossip store, decides whether a
 * status change is real (an event), provisional (pending), an empty
 * verdict or a recovery from one, and turns that decision into entries for
 * the replicated log and requests to run the notification script. Results
 * of those scripts come back and become log entries of their own.
 *
 * The clock is the parameter `now` (nanoseconds); whether this node may
 * write (is the leader) is the parameter `leader`. The replicated log is
 * the sequence `log` of entries handed to it, the script queue the sequence
 * `cmds` of requests sent.
 */
module Quorum {
  import opened Wrappers
  import opened Base
  import opened Strconv
  import opened GossipStatus
  import opened GossipCache
  import opened Cache
  import opened Fsm

  // ---------------------------------------------------------------------
  // Counting fresh observations
  // ---------------------------------------------------------------------

  /**
   * An observation counts for a check when it is strictly newer than the
   * check's watermark `cutoff` and at most STALE_INFO_INTERVAL_IN_SECONDS old.
   */
  predicate Fresh(o: Obs, cutoff: int, now: int) {
    o.timeStamp > cutoff && now - o.timeStamp <= STALE_INFO_INTERVAL_IN_SECONDS * NANOS_PER_SECOND
  }

  /** The nodes of `dom` whose fresh observation shows `s`. */
  function VotersIn(nodes: map<string, Obs>, dom: set<string>, cutoff: int, now: int, s: Status): set<string> {
    set n | n in dom && n in nodes && Fresh(nodes[n], cutoff, now) && nodes[n].status == s
  }

  /** The statuses shown by fresh observations of nodes in `dom`. */
  function StatusesIn(nodes: map<string, Obs>, dom: set<string>, cutoff: int, now: int): set<Status> {
    set n | n in dom && n in nodes && Fresh(nodes[n], cutoff, now) :: nodes[n].status
  }

  /** The nodes of `dom` whose fresh observation is conclusive and not EMPTY (they vote for recovery). */
  function RecoverersIn(nodes: map<string, Obs>, dom: set<string>, cutoff: int, now: int): set<string> {
    set n | n in dom && n in nodes && Fresh(nodes[n], cutoff, now) && !IsInconclusiveOrEmpty(nodes[n].status)
  }

  function Voters(nodes: map<string, Obs>, cutoff: int, now: int, s: Status): set<string> {
    VotersIn(nodes, nodes.Keys, cutoff, now, s)
  }

  /** The statuses that reach quorum `q`: shown by some fresh observation, and by at least `q` of them. */
  function Reaching(nodes: map<string, Obs>, cutoff: int, now: int, q: int): set<Status> {
    set s | s in StatusesIn(nodes, nodes.Keys, cutoff, now) && |Voters(nodes, cutoff, now, s)| >= q
  }

  /**
   * The outcomes Go's pick over its count map can have: the map is visited
   * in unspecified order and the first status reaching quorum wins, so the
   * pick is any reaching status, or the empty status when none reaches.
   */
  predicate IsPick(nodes: map<string, Obs>, cutoff: int, now: int, q: int, s: Status) {
    if Reaching(nodes, cutoff, now, q) == {} then s == NO_STATUS else s in Reaching(nodes, cutoff, now, q)
  }

  /** Counting one more node adds its status, if its observation is fresh. */
  lemma StatusesOneMore(nodes: map<string, Obs>, dom: set<string>, n: string, cutoff: int, now: int)
    requires n in nodes && n !in dom
    ensures StatusesIn(nodes, dom + {n}, cutoff, now) ==
      StatusesIn(nodes, dom, cutoff, now) + (if Fresh(nodes[n], cutoff, now) then {nodes[n].status} else {})
  {
    var after, before := StatusesIn(nodes, dom + {n}, cutoff, now), StatusesIn(nodes, dom, cutoff, now);
    forall x | x in after
      ensures x in before || (Fresh(nodes[n], cutoff, now) && x == nodes[n].status)
    {
      var m :| m in dom + {n} && m in nodes && Fresh(nodes[m], cutoff, now) && nodes[m].status == x;
      if m != n {
        assert m in dom;
      }
    }
    forall x | x in before
      ensures x in after
    {
      var m :| m in dom && m in nodes && Fresh(nodes[m], cutoff, now) && nodes[m].status == x;
      assert m in dom + {n};
    }
    if Fresh(nodes[n], cutoff, now) {
      assert n in dom + {n};
      assert nodes[n].status in after;
    }
  }

  /** Counting one more node adds it to the recovery voters, if its fresh observation is conclusive and not EMPTY. */
  lemma RecoverersOneMore(nodes: map<string, Obs>, dom: set<string>, n: string, cutoff: int, now: int)
    requires n in nodes && n !in dom
    ensures RecoverersIn(nodes, dom + {n}, cutoff, now) ==
      RecoverersIn(nodes, dom, cutoff, now) + (if Fresh(nodes[n], cutoff, now) && !IsInconclusiveOrEmpty(nodes[n].status) then {n} else {})
  {
  }

  /** Counting one more node adds it to the voters of its own fresh status only. */
  lemma VotersOneMore(nodes: map<string, Obs>, dom: set<string>, n: string, cutoff: int, now: int, s: Status)
    requires n in nodes && n !in dom
    ensures VotersIn(nodes, dom + {n}, cutoff, now, s) ==
      VotersIn(nodes, dom, cutoff, now, s) + (if Fresh(nodes[n], cutoff, now) && nodes[n].status == s then {n} else {})
  {
  }

  /** The number of voters of `s` grows by one exactly when the added node freshly shows `s`. */
  lemma VoteCountOneMore(nodes: map<string, Obs>, dom: set<string>, n: string, cutoff: int, now: int, s: Status)
    requires n in nodes && n !in dom
    ensures |VotersIn(nodes, dom + {n}, cutoff, now, s)| ==
      |VotersIn(nodes, dom, cutoff, now, s)| + (if Fresh(nodes[n], cutoff, now) && nodes[n].status == s then 1 else 0)
  {
    VotersOneMore(nodes, dom, n, cutoff, now, s);
    assert n !in VotersIn(nodes, dom, cutoff, now, s);
  }

  /** A status no counted node shows has no voters. */
  lemma NoVotersOutsideStatuses(nodes: map<string, Obs>, dom: set<string>, cutoff: int, now: int, s: Status)
    ensures s !in StatusesIn(nodes, dom, cutoff, now) ==> VotersIn(nodes, dom, cutoff, now, s) == {}
  {
    forall m | m in VotersIn(nodes, dom, cutoff, now, s)
      ensures s in StatusesIn(nodes, dom, cutoff, now)
    {
      assert nodes[m].status == s;
    }
  }

  /** `counts` and `recoverCount` are the tallies of the fresh observations of the nodes in `dom`. */
  predicate Tallied(nodes: map<string, Obs>, dom: set<string>, cutoff: int, now: int, counts: map<Status, nat>, recoverCount: nat) {
    && counts.Keys == StatusesIn(nodes, dom, cutoff, now)
    && (forall s :: s in counts ==> counts[s] == |VotersIn(nodes, dom, cutoff, now, s)|)
    && recoverCount == |RecoverersIn(nodes, dom, cutoff, now)|
  }

  /** One more node counted whose observation is not fresh: the tallies stay as they are. */
  lemma TallySkip(nodes: map<string, Obs>, dom: set<string>, n: string, cutoff: int, now: int, counts: map<Status, nat>, recoverCount: nat)
    requires n in nodes && n !in dom && !Fresh(nodes[n], cutoff, now)
    requires Tallied(nodes, dom, cutoff, now, counts, recoverCount)
    ensures Tallied(nodes, dom + {n}, cutoff, now, counts, recoverCount)
  {
    StatusesOneMore(nodes, dom, n, cutoff, now);
    RecoverersOneMore(nodes, dom, n, cutoff, now);
    VotersSkip(nodes, dom, n, cutoff, now);
  }

  /** A node whose observation is not fresh votes for no status. */
  lemma VotersSkip(nodes: map<string, Obs>, dom: set<string>, n: string, cutoff: int, now: int)
    requires n in nodes && n !in dom && !Fresh(nodes[n], cutoff, now)
    ensures forall s :: VotersIn(nodes, dom + {n}, cutoff, now, s) == VotersIn(nodes, dom, cutoff, now, s)
  {
    forall s
      ensures VotersIn(nodes, dom + {n}, cutoff, now, s) == VotersIn(nodes, dom, cutoff, now, s)
    {
      VotersOneMore(nodes, dom, n, cutoff, now, s);
    }
  }

  /**
   * One more node counted with a fresh observation: `counts'` has one more
   * for its status and `recoverCount'` one more if it is conclusive and not EMPTY.
   */
  lemma TallyCount(nodes: map<string, Obs>, dom: set<string>, n: string, cutoff: int, now: int,
                   counts: map<Status, nat>, recoverCount: nat, counts': map<Status, nat>, recoverCount': nat)
    requires n in nodes && n !in dom && Fresh(nodes[n], cutoff, now)
    requires Tallied(nodes, dom, cutoff, now, counts, recoverCount)
    requires var st := nodes[n].status;
      counts' == counts[st := (if st in counts then counts[st] else 0) + 1]
    requires recoverCount' == if IsInconclusiveOrEmpty(nodes[n].status) then recoverCount else recoverCount + 1
    ensures Tallied(nodes, dom + {n}, cutoff, now, counts', recoverCount')
  {
    StatusesOneMore(nodes, dom, n, cutoff, now);
    RecoverersOneMore(nodes, dom, n, cutoff, now);
    VotersCount(nodes, dom, n, cutoff, now, counts, recoverCount, counts');
  }

  /** The per-status half of `TallyCount`. */
  lemma VotersCount(nodes: map<string, Obs>, dom: set<string>, n: string, cutoff: int, now: int,
                    counts: map<Status, nat>, recoverCount: nat, counts': map<Status, nat>)
    requires n in nodes && n !in dom && Fresh(nodes[n], cutoff, now)
    requires Tallied(nodes, dom, cutoff, now, counts, recoverCount)
    requires var st := nodes[n].status;
      counts' == counts[st := (if st in counts then counts[st] else 0) + 1]
    ensures forall s :: s in counts' ==> counts'[s] == |VotersIn(nodes, dom + {n}, cutoff, now, s)|
  {
    forall s | s in counts'
      ensures counts'[s] == |VotersIn(nodes, dom + {n}, cutoff, now, s)|
    {
      var before := if s in counts then counts[s] else 0;
      assert before == |VotersIn(nodes, dom, cutoff, now, s)| by {
        NoVotersOutsideStatuses(nodes, dom, cutoff, now, s);
      }
      VoteCountOneMore(nodes, dom, n, cutoff, now, s);
    }
  }

  /** Moving `n` from the pending set to the done set. */
  lemma TakeOne<T>(all: set<T>, todo: set<T>, n: T)
    requires n in todo && todo <= all
    ensures all - (todo - {n}) == (all - todo) + {n}
  {
  }

  /**
   * The counting loop shared by `hasEvent` and `emptyRecover`: per status,
   * how many nodes report it freshly (statuses nobody reports are absent),
   * and how many fresh reports are conclusive and not EMPTY.
   */
  method Tally(nodes: map<string, Obs>, cutoff: int, now: int) returns (counts: map<Status, nat>, recoverCount: nat)
    ensures Tallied(nodes, nodes.Keys, cutoff, now, counts, recoverCount)
  {
    counts, recoverCount := map[], 0;
    var todo := nodes.Keys;
    ghost var done: set<string> := {};
    assert StatusesIn(nodes, {}, cutoff, now) == {};
    while todo != {}
      invariant todo <= nodes.Keys && done == nodes.Keys - todo
      invariant Tallied(nodes, done, cutoff, now, counts, recoverCount)
      decreases todo
    {
      var n :| n in todo;
      TakeOne(nodes.Keys, todo, n);
      todo := todo - {n};
      counts, recoverCount := TallyOne(nodes, cutoff, now, n, counts, recoverCount, done);
      done := done + {n};
    }
    assert done == nodes.Keys;
  }

  /** One iteration of the counting loop: node `n`'s observation is counted if it is fresh. */
  method TallyOne(nodes: map<string, Obs>, cutoff: int, now: int, n: string, counts: map<Status, nat>, recoverCount: nat,
                  ghost done: set<string>)
    returns (counts': map<Status, nat>, recoverCount': nat)
    requires n in nodes && n !in done
    requires Tallied(nodes, done, cutoff, now, counts, recoverCount)
    ensures Tallied(nodes, done + {n}, cutoff, now, counts', recoverCount')
  {
    counts', recoverCount' := counts, recoverCount;
    var o := nodes[n];
    if o.timeStamp > cutoff && now - o.timeStamp <= STALE_INFO_INTERVAL_IN_SECONDS * NANOS_PER_SECOND {
      if !IsInconclusiveOrEmpty(o.status) {
        recoverCount' := recoverCount + 1;
      }
      var c := if o.status in counts then counts[o.status] else 0;
      counts' := counts[o.status := c + 1];
      TallyCount(nodes, done, n, cutoff, now, counts, recoverCount, counts', recoverCount');
    } else {
      TallySkip(nodes, done, n, cutoff, now, counts, recoverCount);
    }
  }

  /** The statuses of a count map whose count reaches `q`. */
  function AtQuorum(counts: map<Status, nat>, q: int): set<Status> {
    set t | t in counts && counts[t] >= q
  }

  /** The pick loop: the first status, in the count map's unspecified order, whose count reaches `q`. */
  method PickQuorum(counts: map<Status, nat>, q: int) returns (s: Status)
    ensures AtQuorum(counts, q) == {} ==> s == NO_STATUS
    ensures AtQuorum(counts, q) != {} ==> s in AtQuorum(counts, q)
  {
    s := NO_STATUS;
    var todo := counts.Keys;
    while todo != {}
      invariant todo <= counts.Keys
      invariant forall t :: t in counts && t !in todo ==> counts[t] < q
      decreases todo
    {
      var t :| t in todo;
      if counts[t] >= q {
        assert t in AtQuorum(counts, q);
        return t;
      }
      todo := todo - {t};
    }
    assert AtQuorum(counts, q) == {} by {
      forall t | t in AtQuorum(counts, q)
        ensures false
      {
      }
    }
  }

  // ---------------------------------------------------------------------
  // hasEvent and emptyRecover
  // ---------------------------------------------------------------------

  /** The result triple of `hasEvent`. */
  datatype EventCheck = EventCheck(hasEvent: bool, pending: bool, status: Status)

  /**
   * How `hasEvent` reads the picked status `s` against the key's previous
   * consensus `prev`: a flip between UP and DOWN is an event; UP or DOWN
   * after anything else is pending; everything else is neither.
   */
  function EventVerdict(prev: Status, s: Status): (r: EventCheck)
    ensures r.status == s
    ensures !(r.hasEvent && r.pending)
    ensures r.hasEvent <==> (s == DOWN && prev == UP) || (s == UP && prev == DOWN)
    ensures r.pending <==> (s == DOWN || s == UP) && prev != UP && prev != DOWN
  {
    if s == DOWN && prev == UP then EventCheck(true, false, DOWN)
    else if s == DOWN && prev != DOWN then EventCheck(false, true, DOWN)
    else if s == UP && prev == DOWN then EventCheck(true, false, UP)
    else if s == UP && prev != UP then EventCheck(false, true, UP)
    else EventCheck(false, false, s)
  }

  /**
   * `hasEvent`: counts the observations fresher than the previous event
   * time, picks a status reaching quorum (or none) and reads it against
   * the previous consensus.
   */
  method HasEvent(v: Consensus, quorum: int, now: int) returns (r: EventCheck)
    ensures IsPick(v.consensus.Nodes(), v.prevEventTime, now, quorum, r.status)
    ensures r == EventVerdict(v.prevConsensus, r.status)
  {
    var counts, _ := Tally(v.consensus.Nodes(), v.prevEventTime, now);
    assert AtQuorum(counts, quorum) == Reaching(v.consensus.Nodes(), v.prevEventTime, now, quorum);
    var statusNow := PickQuorum(counts, quorum);
    r := EventVerdict(v.prevConsensus, statusNow);
  }

  /** The result pair of `emptyRecover`. */
  datatype EmptyCheck = EmptyCheck(recovered: bool, status: Status)

  /**
   * `emptyRecover`: counts the observations fresher than the empty time,
   * picks a status reaching quorum (or none); a picked EMPTY rules out
   * recovery, otherwise the key has recovered exactly when at least
   * `quorum` fresh observations are conclusive and not EMPTY.
   */
  method EmptyRecover(v: Consensus, quorum: int, now: int) returns (r: EmptyCheck)
    ensures IsPick(v.consensus.Nodes(), v.emptyTime, now, quorum, r.status)
    ensures r.recovered <==> r.status != EMPTY && |RecoverersIn(v.consensus.Nodes(), v.consensus.Nodes().Keys, v.emptyTime, now)| >= quorum
  {
    var counts, recoverCount := Tally(v.consensus.Nodes(), v.emptyTime, now);
    assert AtQuorum(counts, quorum) == Reaching(v.consensus.Nodes(), v.emptyTime, now, quorum);
    var statusNow := PickQuorum(counts, quorum);
    if statusNow == EMPTY {
      return EmptyCheck(false, statusNow);
    }
    if recoverCount >= quorum {
      return EmptyCheck(true, statusNow);
    }
    return EmptyCheck(false, statusNow);
  }

  /** A subset is no larger than its superset. */
  lemma {:induction false} SubsetCard<T>(a: set<T>, b: set<T>)
    requires a <= b
    ensures |a| <= |b|
    decreases |a|
  {
    if a != {} {
      var x :| x in a;
      SubsetCard(a - {x}, b - {x});
    }
  }

  /** Two distinct statuses have disjoint voters, so together they fit among the nodes. */
  lemma DistinctVotersFit(nodes: map<string, Obs>, cutoff: int, now: int, s: Status, t: Status)
    ensures s != t ==> |Voters(nodes, cutoff, now, s)| + |Voters(nodes, cutoff, now, t)| <= |nodes|
  {
    if s != t {
      var a, b := Voters(nodes, cutoff, now, s), Voters(nodes, cutoff, now, t);
      assert a * b == {};
      assert |nodes.Keys| == |nodes|;
      SubsetCard(a + b, nodes.Keys);
    }
  }

  /**
   * With a majority quorum (more than half of the nodes) at most one status
   * can reach it, so the map-order pick is determined.
   */
  lemma MajorityQuorumPicksOne(nodes: map<string, Obs>, cutoff: int, now: int, q: int, s: Status, t: Status)
    requires 2 * q > |nodes|
    requires s in Reaching(nodes, cutoff, now, q) && t in Reaching(nodes, cutoff, now, q)
    ensures s == t
  {
    DistinctVotersFit(nodes, cutoff, now, s, t);
  }

  /** Hence with a majority quorum every pick of one entry is the same status. */
  lemma MajorityPickIsDeterministic(nodes: map<string, Obs>, cutoff: int, now: int, q: int, s: Status, t: Status)
    requires 2 * q > |nodes|
    requires IsPick(nodes, cutoff, now, q, s) && IsPick(nodes, cutoff, now, q, t)
    ensures s == t
  {
    if Reaching(nodes, cutoff, now, q) != {} {
      MajorityQuorumPicksOne(nodes, cutoff, now, q, s, t);
    }
  }

  /**
   * With a majority quorum, an EMPTY quorum and a recovery quorum exclude
   * each other: the EMPTY voters and the recovery voters are disjoint.
   */
  lemma MajorityEmptyExcludesRecovery(nodes: map<string, Obs>, cutoff: int, now: int, q: int)
    requires 2 * q > |nodes|
    requires EMPTY in Reaching(nodes, cutoff, now, q)
    ensures |RecoverersIn(nodes, nodes.Keys, cutoff, now)| < q
  {
    var a, b := Voters(nodes, cutoff, now, EMPTY), RecoverersIn(nodes, nodes.Keys, cutoff, now);
    assert a * b == {};
    assert |nodes.Keys| == |nodes|;
    SubsetCard(a + b, nodes.Keys);
  }

  /**
   * An observation that is not fresh (not newer than the watermark, or
   * older than the staleness ceiling) does not change any count: a node
   * reporting it is the same as a node reporting nothing.
   */
  lemma StaleObservationIgnored(nodes: map<string, Obs>, n: string, o: Obs, cutoff: int, now: int, q: int)
    requires n !in nodes && !Fresh(o, cutoff, now)
    ensures forall s :: Voters(nodes[n := o], cutoff, now, s) == Voters(nodes, cutoff, now, s)
    ensures Reaching(nodes[n := o], cutoff, now, q) == Reaching(nodes, cutoff, now, q)
    ensures RecoverersIn(nodes[n := o], nodes[n := o].Keys, cutoff, now) == RecoverersIn(nodes, nodes.Keys, cutoff, now)
  {
    var m := nodes[n := o];
    forall x | x in StatusesIn(m, m.Keys, cutoff, now)
      ensures x in StatusesIn(nodes, nodes.Keys, cutoff, now)
    {
      var k :| k in m.Keys && k in m && Fresh(m[k], cutoff, now) && m[k].status == x;
      assert k in nodes.Keys && nodes[k] == m[k];
    }
    forall x | x in StatusesIn(nodes, nodes.Keys, cutoff, now)
      ensures x in StatusesIn(m, m.Keys, cutoff, now)
    {
      var k :| k in nodes.Keys && k in nodes && Fresh(nodes[k], cutoff, now) && nodes[k].status == x;
      assert k in m.Keys && m[k] == nodes[k];
    }
    forall s
      ensures Voters(m, cutoff, now, s) == Voters(nodes, cutoff, now, s)
    {
    }
  }

  // ---------------------------------------------------------------------
  // What the checks emit
  // ---------------------------------------------------------------------

  /** `timeoutShellCmd`: a request to run the notification script. */
  datatype ShellCmd = ShellCmd(key: string, status: Status, timeout: int, cmd: string)

  /** `shellCmdResult`: which request finished (its output is only logged). */
  datatype ShellResult = ShellResult(key: string, status: Status)

  /** The notification script's command line: script, key, the key's value, status (`notificationFormat`). */
  function NotificationCommand(script: string, key: string, value: string, status: Status): string {
    script + " " + key + " " + value + " " + status
  }

  function Notification(script: string, key: string, value: string, status: Status): ShellCmd {
    ShellCmd(key, status, NOTIFICATION_SCRIPT_TIMEOUT, NotificationCommand(script, key, value, status))
  }

  /** A check is skipped while less than `interval` seconds have passed since its watermark. */
  predicate Gated(watermark: int, now: int, interval: int) {
    now - watermark < interval * NANOS_PER_SECOND
  }

  /**
   * What the periodic pass may write: a watermark or status entry of a
   * tracked key whose two watermarks are not both within the interval.
   */
  predicate WrittenFor(e: LogEntry, store: Store, now: int, interval: int) {
    && e.key in store
    && e.cmd in {CMD_NOTIFY_TIME, CMD_NOTIFY_STATUS, CMD_NOTIFY_EMPTY_TIME}
    && !(Gated(store[e.key].prevEventTime, now, interval) && Gated(store[e.key].emptyTime, now, interval))
  }

  /** What the periodic pass may request: a notification of a tracked key, for UP, DOWN, EMPTY or EMPTY_RECOVER. */
  predicate RequestedFor(c: ShellCmd, store: Store, script: string, kv: map<string, string>) {
    && c.key in store
    && c.status in {UP, DOWN, EMPTY, EMPTY_RECOVER}
    && c == Notification(script, c.key, if c.key in kv then kv[c.key] else "", c.status)
  }

  /**
   * The entries and requests both checks emit for one key of the periodic
   * pass are of the kinds the pass may emit (the entry `v` checked is a
   * copy with the key's watermarks).
   */
  lemma PassEmissionsFit(store: Store, key: string, v: Consensus, now: int, interval: int, script: string,
                         kv: map<string, string>, a1: Option<EventCheck>, a2: Option<EmptyCheck>)
    requires key in store && SameMarks(v, store[key])
    requires a1.Some? ==> !Gated(v.prevEventTime, now, interval) && a1.value == EventVerdict(v.prevConsensus, a1.value.status)
    requires a2.Some? ==> !Gated(v.emptyTime, now, interval)
    ensures forall e :: e in EventPassEntries(key, now, a1) + EmptyPassEntries(key, now, v.empty, a2) ==>
      WrittenFor(e, store, now, interval)
    ensures var value := if key in kv then kv[key] else "";
      forall c :: c in EventPassRequests(script, key, value, a1) + EmptyPassRequests(script, key, value, v.empty, a2) ==>
        RequestedFor(c, store, script, kv)
  {
  }

  /** The log entries `checkEvent` writes for verdict `r`: pending records time and status, an event only the time. */
  function EventEntries(key: string, now: int, r: EventCheck): seq<LogEntry> {
    (if r.pending then [LogEntry(CMD_NOTIFY_TIME, key, FormatInt(now)), LogEntry(CMD_NOTIFY_STATUS, key, r.status)] else [])
    + (if r.hasEvent then [LogEntry(CMD_NOTIFY_TIME, key, FormatInt(now))] else [])
  }

  /** The script requests `checkEvent` sends for verdict `r`: one notification per event. */
  function EventRequests(script: string, key: string, value: string, r: EventCheck): seq<ShellCmd> {
    if r.hasEvent then [Notification(script, key, value, r.status)] else []
  }

  /** The log entries `checkEmpty` writes: the empty time, on entering EMPTY or on leaving it. */
  function EmptyEntries(key: string, now: int, empty: bool, r: EmptyCheck): seq<LogEntry> {
    (if r.status == EMPTY && !empty then [LogEntry(CMD_NOTIFY_EMPTY_TIME, key, FormatInt(now))] else [])
    + (if r.recovered && empty then [LogEntry(CMD_NOTIFY_EMPTY_TIME, key, FormatInt(now))] else [])
  }

  /** The script requests `checkEmpty` sends: EMPTY when entering it, EMPTY_RECOVER when leaving it. */
  function EmptyRequests(script: string, key: string, value: string, empty: bool, r: EmptyCheck): seq<ShellCmd> {
    (if r.status == EMPTY && !empty then [Notification(script, key, value, EMPTY)] else [])
    + (if r.recovered && empty then [Notification(script, key, value, EMPTY_RECOVER)] else [])
  }

  /** What `checkEvent` writes: nothing when it was skipped (`acted` is None), else the verdict's entries. */
  function EventPassEntries(key: string, now: int, acted: Option<EventCheck>): seq<LogEntry> {
    if acted.Some? then EventEntries(key, now, acted.value) else []
  }

  function EventPassRequests(script: string, key: string, value: string, acted: Option<EventCheck>): seq<ShellCmd> {
    if acted.Some? then EventRequests(script, key, value, acted.value) else []
  }

  /** What `checkEmpty` writes: nothing when it was skipped, else the verdict's entries. */
  function EmptyPassEntries(key: string, now: int, empty: bool, acted: Option<EmptyCheck>): seq<LogEntry> {
    if acted.Some? then EmptyEntries(key, now, empty, acted.value) else []
  }

  function EmptyPassRequests(script: string, key: string, value: string, empty: bool, acted: Option<EmptyCheck>): seq<ShellCmd> {
    if acted.Some? then EmptyRequests(script, key, value, empty, acted.value) else []
  }

  /**
   * What `checkEvent` emits for each kind of verdict: pending writes
   * NOTIFY_TIME then NOTIFY_STATUS and requests nothing; an event writes
   * only NOTIFY_TIME and requests exactly one notification, for UP or DOWN;
   * anything else emits nothing.
   */
  lemma EventEmissions(script: string, key: string, value: string, now: int, prev: Status, s: Status)
    ensures var r := EventVerdict(prev, s);
      r.pending ==>
        EventEntries(key, now, r) == [LogEntry(CMD_NOTIFY_TIME, key, FormatInt(now)), LogEntry(CMD_NOTIFY_STATUS, key, s)] &&
        EventRequests(script, key, value, r) == []
    ensures var r := EventVerdict(prev, s);
      r.hasEvent ==>
        EventEntries(key, now, r) == [LogEntry(CMD_NOTIFY_TIME, key, FormatInt(now))] &&
        EventRequests(script, key, value, r) == [Notification(script, key, value, s)] &&
        (s == UP || s == DOWN)
    ensures var r := EventVerdict(prev, s);
      !r.pending && !r.hasEvent ==> EventEntries(key, now, r) == [] && EventRequests(script, key, value, r) == []
  {
  }

  /**
   * What `checkEmpty` emits: EMPTY is requested only when the key is not
   * yet marked empty, EMPTY_RECOVER only when it is, never both, and each
   * request comes with exactly one NOTIFY_EMPTY_TIME entry.
   */
  lemma EmptyEmissions(script: string, key: string, value: string, now: int, empty: bool, r: EmptyCheck)
    requires r.recovered ==> r.status != EMPTY
    ensures |EmptyRequests(script, key, value, empty, r)| <= 1
    ensures |EmptyEntries(key, now, empty, r)| == |EmptyRequests(script, key, value, empty, r)|
    ensures EmptyRequests(script, key, value, empty, r) == [Notification(script, key, value, EMPTY)] <==> r.status == EMPTY && !empty
    ensures EmptyRequests(script, key, value, empty, r) == [Notification(script, key, value, EMPTY_RECOVER)] <==> r.recovered && empty
  {
    var n1, n2 := Notification(script, key, value, EMPTY), Notification(script, key, value, EMPTY_RECOVER);
    assert n1 != n2 by {
      assert n1.status != n2.status;
    }
    assert [n1] != [n2] by {
      assert [n1][0] != [n2][0];
    }
  }

  /** `quorumCheck2`'s mapping of a finished request to a log entry. */
  function ResultEntry(res: ShellResult): (e: LogEntry)
    ensures e.key == res.key
    ensures res.status == EMPTY ==> e == LogEntry(CMD_NOTIFY_EMPTY, res.key, "true")
    ensures res.status == EMPTY_RECOVER ==> e == LogEntry(CMD_NOTIFY_EMPTY, res.key, "false")
    ensures res.status != EMPTY && res.status != EMPTY_RECOVER ==> e == LogEntry(CMD_NOTIFY_STATUS, res.key, res.status)
  {
    if res.status == EMPTY then LogEntry(CMD_NOTIFY_EMPTY, res.key, FormatBool(true))
    else if res.status == EMPTY_RECOVER then LogEntry(CMD_NOTIFY_EMPTY, res.key, FormatBool(false))
    else LogEntry(CMD_NOTIFY_STATUS, res.key, res.status)
  }

  /**
   * Applied by the state machine, a result entry records what was
   * notified: EMPTY sets the empty flag, EMPTY_RECOVER clears it, any other
   * status becomes the key's previous consensus.
   */
  lemma ResultEntryApplied(st: Replica, res: ShellResult)
    ensures res.status == EMPTY ==> Step(st, ResultEntry(res)) == st.(store := WithEmpty(st.store, res.key, true))
    ensures res.status == EMPTY_RECOVER ==> Step(st, ResultEntry(res)) == st.(store := WithEmpty(st.store, res.key, false))
    ensures res.status != EMPTY && res.status != EMPTY_RECOVER ==>
      Step(st, ResultEntry(res)) == st.(store := WithPrevConsensus(st.store, res.key, res.status))
  {
    NotifyEmptyReadsBack(st, res.key, true);
    NotifyEmptyReadsBack(st, res.key, false);
  }

  /**
   * An event is notified once: after the event's NOTIFY_TIME entry and
   * the entry for its finished notification are applied, the key's event
   * watermark is the event's time and its previous consensus the notified
   * status, so the same status is neither an event nor pending again.
   */
  lemma EventSettles(st: Replica, key: string, now: int, prev: Status, s: Status)
    requires IsInt64(now)
    requires EventVerdict(prev, s).hasEvent
    ensures var st1 := Replay(st, EventEntries(key, now, EventVerdict(prev, s)) + [ResultEntry(ShellResult(key, s))]);
      && st1.kv == st.kv
      && key in st1.store
      && st1.store[key].prevEventTime == now
      && st1.store[key].prevConsensus == s
      && EventVerdict(st1.store[key].prevConsensus, s) == EventCheck(false, false, s)
  {
    var entries := EventEntries(key, now, EventVerdict(prev, s)) + [ResultEntry(ShellResult(key, s))];
    assert entries == [LogEntry(CMD_NOTIFY_TIME, key, FormatInt(now)), LogEntry(CMD_NOTIFY_STATUS, key, s)];
    NotifyTimeReadsBack(st, key, now);
    ReplayPair(st, entries[0], entries[1]);
  }

  /**
   * A pending verdict settles at once: its two entries, applied, make the
   * status the previous consensus with the check's time as watermark, so
   * the same status is neither an event nor pending again.
   */
  lemma PendingSettles(st: Replica, key: string, now: int, prev: Status, s: Status)
    requires IsInt64(now)
    requires EventVerdict(prev, s).pending
    ensures var st1 := Replay(st, EventEntries(key, now, EventVerdict(prev, s)));
      && st1.kv == st.kv
      && key in st1.store
      && st1.store[key].prevEventTime == now
      && st1.store[key].prevConsensus == s
      && EventVerdict(st1.store[key].prevConsensus, s) == EventCheck(false, false, s)
  {
    var entries := EventEntries(key, now, EventVerdict(prev, s));
    assert entries == [LogEntry(CMD_NOTIFY_TIME, key, FormatInt(now)), LogEntry(CMD_NOTIFY_STATUS, key, s)];
    NotifyTimeReadsBack(st, key, now);
    ReplayPair(st, entries[0], entries[1]);
  }

  /**
   * An EMPTY verdict is notified once: after its NOTIFY_EMPTY_TIME entry
   * and the entry for its finished notification are applied, the key is
   * marked empty with the check's time as empty watermark, so EMPTY is not
   * requested again; a later recovery requests EMPTY_RECOVER.
   */
  lemma EmptySettles(st: Replica, key: string, now: int, r: EmptyCheck, later: EmptyCheck, script: string, value: string)
    requires IsInt64(now)
    requires r.status == EMPTY && !r.recovered && (key in st.store ==> !st.store[key].empty)
    ensures var e0 := EntryOf(st.store, key).empty;
      var st1 := Replay(st, EmptyEntries(key, now, e0, r) + [ResultEntry(ShellResult(key, EMPTY))]);
      && st1.kv == st.kv
      && key in st1.store
      && st1.store[key].emptyTime == now
      && st1.store[key].empty
      && Notification(script, key, value, EMPTY) !in EmptyRequests(script, key, value, st1.store[key].empty, later)
      && (later.recovered ==> EmptyRequests(script, key, value, st1.store[key].empty, later) == [Notification(script, key, value, EMPTY_RECOVER)])
  {
    var entries := EmptyEntries(key, now, EntryOf(st.store, key).empty, r) + [ResultEntry(ShellResult(key, EMPTY))];
    assert entries == [LogEntry(CMD_NOTIFY_EMPTY_TIME, key, FormatInt(now)), LogEntry(CMD_NOTIFY_EMPTY, key, FormatBool(true))];
    NotifyTimeReadsBack(st, key, now);
    NotifyEmptyReadsBack(Step(st, entries[0]), key, true);
    ReplayPair(st, entries[0], entries[1]);
  }

  /** Appending two pieces one after the other appends their concatenation. */
  lemma Append3<T>(a: seq<T>, b: seq<T>, c: seq<T>)
    ensures a + b + c == a + (b + c)
  {
  }

  // ---------------------------------------------------------------------
  // The checker
  // ---------------------------------------------------------------------

  /** `quorumChecker`: the configuration, and what it has written to the log and the script queue. */
  class QuorumChecker {
    const quorum: int
    /** Seconds to wait after a watermark before checking again. */
    const eventInterval: int
    const notificationScript: string
    /** The key-value store whose values go into notifications. */
    const cm: CacheManager
    /** Entries handed to the replicated log, oldest first. */
    var log: seq<LogEntry>
    /** Requests sent to the notification queue, oldest first. */
    var cmds: seq<ShellCmd>

    constructor (quorum: int, eventInterval: int, notificationScript: string, cm: CacheManager)
      ensures this.quorum == quorum && this.eventInterval == eventInterval
      ensures this.notificationScript == notificationScript && this.cm == cm
      ensures log == [] && cmds == []
    {
      this.quorum := quorum;
      this.eventInterval := eventInterval;
      this.notificationScript := notificationScript;
      this.cm := cm;
      log, cmds := [], [];
    }

    /** `notifyFollower`: only the leader may write; a follower gets an error and nothing is written. */
    method NotifyFollower(leader: bool, e: LogEntry) returns (ok: bool)
      modifies this`log
      ensures ok == leader
      ensures log == old(log) + (if leader then [e] else [])
    {
      if !leader {
        return false;
      }
      log := log + [e];
      ok := true;
    }

    /**
     * `checkEvent` for one key's entry `v`: nothing while the event
     * watermark is recent; otherwise the `hasEvent` verdict (returned) and
     * the entries and requests it calls for. Requests are queued even when
     * the log refuses the entries.
     */
    method CheckEvent(leader: bool, key: string, v: Consensus, now: int) returns (acted: Option<EventCheck>)
      modifies this`log, this`cmds
      ensures acted.None? <==> Gated(v.prevEventTime, now, eventInterval)
      ensures acted.Some? ==>
        && IsPick(v.consensus.Nodes(), v.prevEventTime, now, quorum, acted.value.status)
        && acted.value == EventVerdict(v.prevConsensus, acted.value.status)
      ensures log == old(log) + (if leader then EventPassEntries(key, now, acted) else [])
      ensures cmds == old(cmds) + EventPassRequests(notificationScript, key, cm.Get(key), acted)
    {
      if now - v.prevEventTime < eventInterval * NANOS_PER_SECOND {
        return None;
      }
      var r := HasEvent(v, quorum, now);
      if r.pending {
        var _ := NotifyFollower(leader, LogEntry(CMD_NOTIFY_TIME, key, FormatInt(now)));
        var _ := NotifyFollower(leader, LogEntry(CMD_NOTIFY_STATUS, key, r.status));
      }
      if r.hasEvent {
        var _ := NotifyFollower(leader, LogEntry(CMD_NOTIFY_TIME, key, FormatInt(now)));
        cmds := cmds + [Notification(notificationScript, key, cm.Get(key), r.status)];
      }
      acted := Some(r);
    }

    /**
     * `checkEmpty` for one key's entry `v`: nothing while the empty
     * watermark is recent; otherwise the `emptyRecover` verdict (returned)
     * and the entries and requests it calls for given the key's empty flag.
     */
    method CheckEmpty(leader: bool, key: string, v: Consensus, now: int) returns (acted: Option<EmptyCheck>)
      modifies this`log, this`cmds
      ensures acted.None? <==> Gated(v.emptyTime, now, eventInterval)
      ensures acted.Some? ==>
        && IsPick(v.consensus.Nodes(), v.emptyTime, now, quorum, acted.value.status)
        && (acted.value.recovered <==>
              acted.value.status != EMPTY && |RecoverersIn(v.consensus.Nodes(), v.consensus.Nodes().Keys, v.emptyTime, now)| >= quorum)
      ensures log == old(log) + (if leader then EmptyPassEntries(key, now, v.empty, acted) else [])
      ensures cmds == old(cmds) + EmptyPassRequests(notificationScript, key, cm.Get(key), v.empty, acted)
    {
      if now - v.emptyTime < eventInterval * NANOS_PER_SECOND {
        return None;
      }
      var r := EmptyRecover(v, quorum, now);
      if r.status == EMPTY {
        if !v.empty {
          var _ := NotifyFollower(leader, LogEntry(CMD_NOTIFY_EMPTY_TIME, key, FormatInt(now)));
          cmds := cmds + [Notification(notificationScript, key, cm.Get(key), EMPTY)];
        }
      }
      if r.recovered {
        if v.empty {
          var _ := NotifyFollower(leader, LogEntry(CMD_NOTIFY_EMPTY_TIME, key, FormatInt(now)));
          cmds := cmds + [Notification(notificationScript, key, cm.Get(key), EMPTY_RECOVER)];
        }
      }
      acted := Some(r);
    }

    /**
     * `quorumCheck1`: only a leader whose barrier succeeded checks; it then
     * runs both checks on a copy of every entry of `gcm`, in map order.
     * Everything written is a watermark or status entry of a tracked key
     * whose watermarks are not both recent, and every request is a
     * notification for a tracked key.
     */
    method QuorumCheck1(leader: bool, barrierOk: bool, gcm: GossipCacheManager, now: int)
      modifies this`log, this`cmds
      ensures !leader || !barrierOk ==> log == old(log) && cmds == old(cmds)
      ensures |log| >= |old(log)| && log[..|old(log)|] == old(log)
      ensures |cmds| >= |old(cmds)| && cmds[..|old(cmds)|] == old(cmds)
      ensures forall e :: e in log[|old(log)|..] ==> WrittenFor(e, gcm.data, now, eventInterval)
      ensures forall c :: c in cmds[|old(cmds)|..] ==> RequestedFor(c, gcm.data, notificationScript, cm.data)
    {
      if !leader || !barrierOk {
        assert log[|old(log)|..] == [] && cmds[|old(cmds)|..] == [];
        return;
      }
      var data := gcm.Clone();
      var keys := data.Keys;
      ghost var written: seq<LogEntry> := [];
      ghost var requested: seq<ShellCmd> := [];
      while keys != {}
        invariant keys <= data.Keys
        invariant log == old(log) + written && cmds == old(cmds) + requested
        invariant forall e :: e in written ==> WrittenFor(e, gcm.data, now, eventInterval)
        invariant forall c :: c in requested ==> RequestedFor(c, gcm.data, notificationScript, cm.data)
        decreases keys
      {
        var key :| key in keys;
        assert SameMarks(data[key], gcm.data[key]);
        ghost var added, asked := CheckKey(key, data[key], now, gcm.data);
        Append3(old(log), written, added);
        Append3(old(cmds), requested, asked);
        written := written + added;
        requested := requested + asked;
        keys := keys - {key};
      }
      assert log[|old(log)|..] == written && cmds[|old(cmds)|..] == requested;
    }

    /**
     * One key of `quorumCheck1`'s loop: both checks, as leader, on the copy
     * `v` of the key's entry in `store`. Everything appended is a permitted
     * entry or request of that key.
     */
    method CheckKey(key: string, v: Consensus, now: int, ghost store: Store) returns (ghost added: seq<LogEntry>, ghost asked: seq<ShellCmd>)
      requires key in store && SameMarks(v, store[key])
      modifies this`log, this`cmds
      ensures log == old(log) + added && cmds == old(cmds) + asked
      ensures forall e :: e in added ==> WrittenFor(e, store, now, eventInterval)
      ensures forall c :: c in asked ==> RequestedFor(c, store, notificationScript, cm.data)
    {
      ghost var log0, cmds0, value := log, cmds, cm.Get(key);
      var a1 := CheckEvent(true, key, v, now);
      var a2 := CheckEmpty(true, key, v, now);
      ghost var e1, r1 := EventPassEntries(key, now, a1), EventPassRequests(notificationScript, key, value, a1);
      ghost var e2, r2 := EmptyPassEntries(key, now, v.empty, a2), EmptyPassRequests(notificationScript, key, value, v.empty, a2);
      added, asked := e1 + e2, r1 + r2;
      Append3(log0, e1, e2);
      Append3(cmds0, r1, r2);
      PassEmissionsFit(store, key, v, now, eventInterval, notificationScript, cm.data, a1, a2);
    }

    /**
     * `quorumCheck2` over a batch of finished requests, in arrival order:
     * each becomes the entry `ResultEntry` gives, written only by a leader.
     */
    method QuorumCheck2(leader: bool, results: seq<ShellResult>)
      modifies this`log
      ensures log == old(log) + (if leader then seq(|results|, i requires 0 <= i < |results| => ResultEntry(results[i])) else [])
    {
      var i := 0;
      while i < |results|
        invariant 0 <= i <= |results|
        invariant log == old(log) + (if leader then seq(i, j requires 0 <= j < i => ResultEntry(results[j])) else [])
      {
        var _ := NotifyFollower(leader, ResultEntry(results[i]));
        i := i + 1;
      }
    }
  }
}
