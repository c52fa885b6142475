/**
 * The replicated state machine (fsm.go): every committed log entry is
 * dispatched by its command kind onto the key-value store or onto the
 * watermarks and flags of the gossip consensus store. Values that do not
 * parse are ignored, and so are unknown command kinds.
 */
module Fsm {
  import opened Wrappers
  import opened Strconv
  import opened GossipStatus
  import opened GossipCache
  import opened Cache

  /** The command kinds of a log entry (http.go:26-32). */
  const CMD_SET: string := "SET"
  const CMD_DELETE: string := "DELETE"
  const CMD_NOTIFY_STATUS: string := "NOTIFY_STATUS"
  const CMD_NOTIFY_TIME: string := "NOTIFY_TIME"
  const CMD_NOTIFY_EMPTY_TIME: string := "NOTIFY_EMPTY_TIME"
  const CMD_NOTIFY_EMPTY: string := "NOTIFY_EMPTY"

  /** `logEntryData`, as decoded from a committed entry. */
  datatype LogEntry = LogEntry(cmd: string, key: string, value: string)

  /** Everything the state machine changes: the key-value map and the consensus store. */
  datatype Replica = Replica(kv: map<string, string>, store: Store)

  /** The effect of one committed entry on the replica, kind by kind. */
  function Step(s: Replica, e: LogEntry): Replica {
    if e.cmd == CMD_SET then s.(kv := s.kv[e.key := e.value])
    else if e.cmd == CMD_DELETE then s.(kv := s.kv - {e.key})
    else if e.cmd == CMD_NOTIFY_STATUS then s.(store := WithPrevConsensus(s.store, e.key, e.value))
    else if e.cmd == CMD_NOTIFY_TIME then
      match ParseInt(e.value)
      case None => s
      case Some(t) => s.(store := WithPrevEventTime(s.store, e.key, t))
    else if e.cmd == CMD_NOTIFY_EMPTY then
      match ParseBool(e.value)
      case None => s
      case Some(b) => s.(store := WithEmpty(s.store, e.key, b))
    else if e.cmd == CMD_NOTIFY_EMPTY_TIME then
      match ParseInt(e.value)
      case None => s
      case Some(t) => s.(store := WithEmptyTime(s.store, e.key, t))
    else s
  }

  /** The six known command kinds. */
  predicate KnownCommand(cmd: string) {
    cmd in {CMD_SET, CMD_DELETE, CMD_NOTIFY_STATUS, CMD_NOTIFY_TIME, CMD_NOTIFY_EMPTY, CMD_NOTIFY_EMPTY_TIME}
  }

  /** Committed entries applied one after another, oldest first. */
  function Replay(s: Replica, log: seq<LogEntry>): Replica
    decreases |log|
  {
    if log == [] then s else Replay(Step(s, log[0]), log[1..])
  }

  /** Replaying two entries is stepping twice. */
  lemma ReplayPair(s: Replica, a: LogEntry, b: LogEntry)
    ensures Replay(s, [a, b]) == Step(Step(s, a), b)
  {
    assert [a, b][1..] == [b] && [b][1..] == [];
    assert Replay(Step(s, a), [b]) == Replay(Step(Step(s, a), b), []);
  }

  /**
   * What each kind does: SET and DELETE touch only the key-value map, the
   * NOTIFY kinds only the consensus store; an unknown kind, and a value that
   * does not parse, change nothing.
   */
  lemma StepByKind(s: Replica, e: LogEntry)
    ensures e.cmd == CMD_SET ==> Step(s, e).kv == s.kv[e.key := e.value] && Step(s, e).store == s.store
    ensures e.cmd == CMD_DELETE ==> Step(s, e).kv == s.kv - {e.key} && Step(s, e).store == s.store
    ensures e.cmd != CMD_SET && e.cmd != CMD_DELETE ==> Step(s, e).kv == s.kv
    ensures e.cmd == CMD_NOTIFY_STATUS ==> Step(s, e).store[e.key].prevConsensus == e.value
    ensures (e.cmd == CMD_NOTIFY_TIME || e.cmd == CMD_NOTIFY_EMPTY_TIME) && ParseInt(e.value).None? ==> Step(s, e) == s
    ensures e.cmd == CMD_NOTIFY_EMPTY && ParseBool(e.value).None? ==> Step(s, e) == s
    ensures !KnownCommand(e.cmd) ==> Step(s, e) == s
  {
  }

  /** The watermark entries the quorum checker writes carry a formatted clock reading, which they restore exactly. */
  lemma NotifyTimeReadsBack(s: Replica, key: string, t: int)
    requires IsInt64(t)
    ensures Step(s, LogEntry(CMD_NOTIFY_TIME, key, FormatInt(t))) == s.(store := WithPrevEventTime(s.store, key, t))
    ensures Step(s, LogEntry(CMD_NOTIFY_EMPTY_TIME, key, FormatInt(t))) == s.(store := WithEmptyTime(s.store, key, t))
  {
    ParseFormatInt(t);
  }

  /** The empty-flag entries the quorum checker writes carry a formatted flag, which they restore exactly. */
  lemma NotifyEmptyReadsBack(s: Replica, key: string, b: bool)
    ensures Step(s, LogEntry(CMD_NOTIFY_EMPTY, key, FormatBool(b))) == s.(store := WithEmpty(s.store, key, b))
  {
    ParseFormatBool(b);
  }

  /** `FSM`: applies committed entries to the node's two stores. */
  class FSM {
    const cm: CacheManager
    const gcm: GossipCacheManager

    constructor (cm: CacheManager, gcm: GossipCacheManager)
      ensures this.cm == cm && this.gcm == gcm
    {
      this.cm := cm;
      this.gcm := gcm;
    }

    /** The part of the node's state the machine owns. */
    function State(): Replica
      reads cm, gcm
    {
      Replica(cm.data, gcm.data)
    }

    /**
     * `Apply` for an entry that decoded (an undecodable entry panics in Go,
     * so it is not an input here): the stores take the step for its kind and
     * nothing else the gossip store holds changes.
     */
    method Apply(e: LogEntry)
      modifies cm, gcm`data
      ensures State() == Step(old(State()), e)
    {
      if e.cmd == CMD_SET {
        cm.Set(e.key, e.value);
      } else if e.cmd == CMD_DELETE {
        cm.Del(e.key);
      } else if e.cmd == CMD_NOTIFY_STATUS {
        gcm.SetPreviousConsensus(e.key, e.value);
      } else if e.cmd == CMD_NOTIFY_TIME {
        var t := ParseInt(e.value);
        if t.Some? {
          gcm.SetPreviousEventTime(e.key, t.value);
        }
      } else if e.cmd == CMD_NOTIFY_EMPTY {
        var b := ParseBool(e.value);
        if b.Some? {
          gcm.SetEmpty(e.key, b.value);
        }
      } else if e.cmd == CMD_NOTIFY_EMPTY_TIME {
        var t := ParseInt(e.value);
        if t.Some? {
          gcm.SetEmptyTime(e.key, t.value);
        }
      }
    }

    /** `Restore`: delegates to the key-value store's `UnMarshal` of the snapshot. */
    method Restore(decoded: Option<map<string, string>>) returns (ok: bool)
      modifies cm
      ensures ok == decoded.Some?
      ensures decoded.Some? ==> cm.data == decoded.value
      ensures decoded.None? ==> cm.data == old(cm.data)
    {
      ok := cm.UnMarshal(decoded);
    }
  }
}
