/**
 * The failure detector (commonDetector.go): a fixed-capacity ring of probe
 * samples per key, and the strict-unanimity classifier `Phi` over the most
 * recent `minSamples` of them.
 */
module CommonDetector {
  import opened Wrappers
  import opened GossipStatus

  /** `StatusAndTime`: one probe outcome and when it was recorded (nanoseconds). */
  datatype Sample = Sample(status: string, time: int)

  /** The statuses of a run of samples, in the same order. */
  function Statuses(samples: seq<Sample>): seq<Status> {
    if samples == [] then [] else Statuses(samples[..|samples| - 1]) + [samples[|samples| - 1].status]
  }

  /** `Statuses` keeps length and order: entry i is the status of sample i. */
  lemma {:induction false} StatusesAt(samples: seq<Sample>)
    ensures |Statuses(samples)| == |samples|
    ensures forall i :: 0 <= i < |samples| ==> Statuses(samples)[i] == samples[i].status
    decreases |samples|
  {
    if samples != [] {
      var init := samples[..|samples| - 1];
      StatusesAt(init);
      forall i | 0 <= i < |init|
        ensures Statuses(samples)[i] == samples[i].status
      {
        assert Statuses(samples)[i] == Statuses(init)[i];
      }
    }
  }

  /** Probe output with one trailing newline removed (`strings.TrimSuffix(stdout, "\n")`). */
  function TrimNewline(s: string): string {
    if |s| > 0 && s[|s| - 1] == '\n' then s[..|s| - 1] else s
  }

  /** The sample status `Ping` records for a probe's stdout: empty output reads as EMPTY. */
  function NormalizeOutput(stdout: string): (r: string)
    ensures r != ""
    ensures TrimNewline(stdout) == "" ==> r == EMPTY
    ensures TrimNewline(stdout) != "" ==> r == TrimNewline(stdout)
  {
    var s := TrimNewline(stdout);
    if s == "" then EMPTY else s
  }

  /** How many of `s` equal `x`. */
  function Count(s: seq<Status>, x: Status): nat {
    if s == [] then 0
    else Count(s[..|s| - 1], x) + if s[|s| - 1] == x then 1 else 0
  }

  /** The count is at most the length; it is zero exactly when `x` is absent, and the length exactly when every entry is `x`. */
  lemma {:induction false} CountFacts(s: seq<Status>, x: Status)
    ensures Count(s, x) <= |s|
    ensures Count(s, x) == 0 <==> x !in s
    ensures Count(s, x) == |s| <==> forall i :: 0 <= i < |s| ==> s[i] == x
    decreases |s|
  {
    if s != [] {
      var rest := s[..|s| - 1];
      assert s == rest + [s[|s| - 1]];
      CountFacts(rest, x);
      if Count(s, x) == |s| {
        assert Count(rest, x) == |rest| && s[|s| - 1] == x;
        forall i | 0 <= i < |s| ensures s[i] == x {
          if i < |rest| {
            assert s[i] == rest[i];
          }
        }
      }
      if forall i :: 0 <= i < |s| ==> s[i] == x {
        assert forall i :: 0 <= i < |rest| ==> rest[i] == x by {
          forall i | 0 <= i < |rest| ensures rest[i] == x {
            assert rest[i] == s[i];
          }
        }
      }
    }
  }

  /**
   * The decision of `Phi` once enough samples exist, over the statuses of the
   * last `minSamples` samples: the status every one of them shows, if they
   * all agree; otherwise NO_EMPTY_IN_SAMPLES when none is EMPTY and
   * NOT_FILL_SAMPLES when one is.
   */
  function Verdict(last: seq<Status>): (r: Status)
  {
    if |last| > 0 && Count(last, last[0]) == |last| then last[0]
    else if Count(last, EMPTY) == 0 then NO_EMPTY_IN_SAMPLES
    else NOT_FILL_SAMPLES
  }

  /** All samples agree: the verdict is their common status. */
  lemma VerdictUnanimous(last: seq<Status>, s: Status)
    requires |last| > 0 && forall i :: 0 <= i < |last| ==> last[i] == s
    ensures Verdict(last) == s
  {
    CountFacts(last, last[0]);
    assert last[0] == s;
  }

  /** The samples disagree: the verdict tells only whether EMPTY was among them. */
  lemma VerdictMixed(last: seq<Status>, i: nat, j: nat)
    requires i < |last| && j < |last| && last[i] != last[j]
    ensures EMPTY !in last ==> Verdict(last) == NO_EMPTY_IN_SAMPLES
    ensures EMPTY in last ==> Verdict(last) == NOT_FILL_SAMPLES
  {
    CountFacts(last, last[0]);
    CountFacts(last, EMPTY);
    assert !(last[i] == last[0] && last[j] == last[0]);
  }

  /** Go's counting loop: some status occurs in every one of the samples. */
  lemma VerdictIsCounting(last: seq<Status>)
    ensures (exists s :: Count(last, s) > 0 && Count(last, s) == |last|) <==> |last| > 0 && Count(last, last[0]) == |last|
  {
    if exists s :: Count(last, s) > 0 && Count(last, s) == |last| {
      var s :| Count(last, s) > 0 && Count(last, s) == |last|;
      CountFacts(last, s);
      CountFacts(last, last[0]);
      assert last[0] == s;
    }
  }

  /** Sample i back from the newest in a ring of capacity `cap` whose next write goes to `head`. */
  function RingSlot(cap: nat, head: nat, i: nat): int {
    if i < head then head - 1 - i else head - 1 - i + cap
  }

  /**
   * A ring's storage `d` holds the newest min(length, |d|) samples of
   * `history`, newest just before `head`; until it first fills, `head` is
   * the number of samples pushed.
   */
  ghost predicate RingOk(d: seq<Sample>, head: nat, length: nat, history: seq<Sample>) {
    && length == |history|
    && (|d| == 0 ==> head == 0 && length == 0)
    && (|d| > 0 ==> head < |d|)
    && (length < |d| ==> head == length)
    && forall i :: 0 <= i < length && i < |d| ==> 0 <= RingSlot(|d|, head, i) < |d| && d[RingSlot(|d|, head, i)] == history[|history| - 1 - i]
  }

  /** Writing at `head` and advancing it keeps the ring holding the newest samples. */
  lemma RingPush(d: seq<Sample>, head: nat, length: nat, history: seq<Sample>, n: Sample)
    requires RingOk(d, head, length, history) && |d| > 0
    ensures RingOk(d[head := n], if head + 1 >= |d| then 0 else head + 1, length + 1, history + [n])
  {
    var d', head' := d[head := n], if head + 1 >= |d| then 0 else head + 1;
    forall i | 0 <= i < length + 1 && i < |d|
      ensures 0 <= RingSlot(|d|, head', i) < |d| && d'[RingSlot(|d|, head', i)] == (history + [n])[|history|  - i]
    {
      if i > 0 {
        assert RingSlot(|d|, head, i - 1) == RingSlot(|d|, head', i);
        assert RingSlot(|d|, head, i - 1) != head;
      }
    }
  }

  /**
   * `Windowed`: a ring of samples. `History` is every sample pushed since the
   * last `Set`, oldest first; the ring holds the newest `Len()` of them.
   */
  class Windowed {
    var data: array<Sample>
    var head: nat
    var length: nat
    ghost var History: seq<Sample>

    /** The capacity-`Len()` most recent samples: sample i back from the newest sits at `Slot(i)`. */
    ghost function Slot(i: nat): int
      reads this
    {
      RingSlot(data.Length, head, i)
    }

    ghost predicate Valid()
      reads this, data
    {
      RingOk(data[..], head, length, History)
    }

    /** `Len`: the number of samples held, which is min(number pushed, capacity). */
    function Len(): (n: nat)
      reads this
      ensures n <= length && n <= data.Length
      ensures n == length || n == data.Length
    {
      if length < data.Length then length else data.Length
    }

    /** The samples the ring holds, oldest first. */
    ghost function Window(): seq<Sample>
      reads this, data
      requires Valid()
    {
      History[|History| - Len()..]
    }

    /** `NewWindowed(capacity)`. */
    constructor (capacity: nat)
      ensures Valid() && fresh(data) && data.Length == capacity
      ensures History == [] && head == 0 && length == 0
    {
      data := new Sample[capacity];
      head, length := 0, 0;
      History := [];
    }

    /**
     * `Push`: writes `n` at `head`, returns the sample it overwrote and
     * advances `head` modulo the capacity. A ring of capacity 0 cannot be pushed to.
     */
    method Push(n: Sample) returns (prev: Sample)
      requires Valid() && data.Length > 0
      modifies this, data
      ensures Valid() && data == old(data)
      ensures prev == old(data[head])
      ensures data[..] == old(data[..])[old(head) := n]
      ensures head == (old(head) + 1) % data.Length
      ensures length == old(length) + 1
      ensures History == old(History) + [n]
    {
      prev := data[head];
      ghost var before := data[..];
      RingPush(before, head, length, History, n);
      ModuloOnce(head + 1, data.Length);
      data[head] := n;
      assert data[..] == before[head := n];
      length := length + 1;
      head := if head + 1 >= data.Length then 0 else head + 1;
      History := History + [n];
    }

    /**
     * `LastNSamples(n)` for `n <= Len()`: the `n` most recently pushed
     * samples, oldest first, read backwards from `head`.
     */
    method LastNSamples(n: nat) returns (r: array<Sample>)
      requires Valid() && n <= Len()
      ensures fresh(r) && r[..] == History[|History| - n..]
    {
      r := new Sample[n];
      var len := Len();
      var i := 0;
      while i < n
        invariant 0 <= i <= n
        invariant forall j :: n - i <= j < n ==> r[j] == History[|History| - n + j]
      {
        ModuloOnce(head - 1 - i + len, len);
        assert (head - 1 - i + len) % len == Slot(i);
        assert data[Slot(i)] == History[|History| - n + (n - 1 - i)];
        r[n - 1 - i] := data[(head - 1 - i + len) % len];
        i := i + 1;
      }
    }

    /** `Set`: the ring becomes `samples`, full, with `head` back at 0. */
    method Set(samples: seq<Sample>)
      modifies this
      ensures Valid() && fresh(data)
      ensures data[..] == samples && head == 0 && length == |samples|
      ensures History == samples && Window() == samples
    {
      data := new Sample[|samples|](i requires 0 <= i < |samples| => samples[i]);
      head := 0;
      length := |samples|;
      History := samples;
    }
  }

  /** Reduction of a value below twice the modulus. */
  lemma ModuloOnce(x: int, m: int)
    requires 0 < m && 0 <= x < 2 * m
    ensures x % m == if x < m then x else x - m
  {
    if x >= m {
      assert x == 1 * m + (x - m);
    }
  }

  /** The body of `Phi` on the key's ring `win`. */
  method PhiOf(win: Windowed, minSamples: nat) returns (r: Status)
    requires win.Valid()
    ensures r == Classify(win.Window(), minSamples)
  {
    if win.Len() < minSamples {
      return LESS_THAN_MINSAMPLE;
    }
    var last := win.LastNSamples(minSamples);
    ClassifyLast(win.History, win.Len(), minSamples, last[..]);
    r := Verdict(Statuses(last[..]));
  }

  /** Once enough samples are held, `Phi` decides on the newest `minSamples` of them. */
  lemma ClassifyLast(history: seq<Sample>, len: nat, minSamples: nat, last: seq<Sample>)
    requires minSamples <= len <= |history| && last == history[|history| - minSamples..]
    ensures Classify(history[|history| - len..], minSamples) == Verdict(Statuses(last))
  {
    var window := history[|history| - len..];
    SuffixOfSuffix(history, len, minSamples);
    assert window[|window| - minSamples..] == last;
  }

  /** The last `n` of the last `m` elements are the last `n` elements. */
  lemma SuffixOfSuffix<T>(s: seq<T>, m: nat, n: nat)
    requires n <= m <= |s|
    ensures s[|s| - m..][m - n..] == s[|s| - n..]
  {
  }

  /** After any number of pushes the ring holds exactly the last min(pushes, capacity) samples. */
  lemma WindowAfterPushes(w: Windowed)
    requires w.Valid()
    ensures |w.Window()| == if |w.History| < w.data.Length then |w.History| else w.data.Length
    ensures w.Window() == w.History[|w.History| - |w.Window()|..]
  {
  }

  /**
   * What `Phi` answers for a key whose ring holds `window` (oldest first):
   * LESS_THAN_MINSAMPLE while fewer than `minSamples` samples are held,
   * otherwise the verdict over the newest `minSamples` of them.
   */
  function Classify(window: seq<Sample>, minSamples: nat): (r: Status)
    ensures |window| < minSamples ==> r == LESS_THAN_MINSAMPLE
  {
    if |window| < minSamples then LESS_THAN_MINSAMPLE
    else Verdict(Statuses(window[|window| - minSamples..]))
  }

  /** With the service's minimum of 3: the classifier on typical sample runs. */
  lemma ClassifyDefaults(a: Sample, b: Sample, c: Sample, d: Sample)
    ensures Classify([a, b], 3) == LESS_THAN_MINSAMPLE
    ensures a.status == b.status == c.status ==> Classify([d, a, b, c], 3) == a.status
    ensures a.status == UP && b.status == UP && c.status == DOWN ==> Classify([a, b, c], 3) == NO_EMPTY_IN_SAMPLES
    ensures a.status == UP && b.status == EMPTY && c.status == UP ==> Classify([d, a, b, c], 3) == NOT_FILL_SAMPLES
  {
    assert [d, a, b, c][4 - 3..] == [a, b, c];
    assert [a, b, c][3 - 3..] == [a, b, c];
    var s := Statuses([a, b, c]);
    StatusesAt([a, b, c]);
    if a.status == b.status == c.status {
      VerdictUnanimous(s, a.status);
    }
    if a.status == UP && b.status == UP && c.status == DOWN {
      VerdictMixed(s, 0, 2);
      assert EMPTY !in s;
    }
    if a.status == UP && b.status == EMPTY && c.status == UP {
      VerdictMixed(s, 0, 1);
      assert s[1] == EMPTY;
    }
  }

  /** `Detector`: one ring per key, each of capacity `windowSize`. */
  class Detector {
    var w: map<string, Windowed>
    const windowSize: nat
    const minSamples: nat
    ghost var Repr: set<object>

    ghost predicate Valid()
      reads this, Repr
    {
      && this in Repr
      && (forall k :: k in w ==> w[k] in Repr && w[k].data in Repr)
      && (forall k :: k in w ==> w[k].Valid() && w[k].data.Length == windowSize)
      && (forall k, k' :: k in w && k' in w && k != k' ==> w[k].data != w[k'].data)
    }

    /** `NewDetector(windowSize, minSamples)`; the service uses (5, 3). */
    constructor (windowSize: nat, minSamples: nat)
      ensures Valid() && fresh(Repr)
      ensures w == map[] && this.windowSize == windowSize && this.minSamples == minSamples
    {
      this.windowSize := windowSize;
      this.minSamples := minSamples;
      w := map[];
      Repr := {this};
    }

    /** Every sample recorded for `key` (none if it has no ring). */
    ghost function HistoryOf(key: string): seq<Sample>
      reads this, Repr
      requires Valid()
    {
      if key in w then w[key].History else []
    }

    /**
     * The window-update half of `Ping`: `stdout` is the probe's output and
     * `now` the clock reading. The key's ring is created on first use and
     * receives exactly one sample; no other key's ring changes.
     */
    method Ping(key: string, stdout: string, now: int)
      requires Valid() && windowSize > 0
      modifies Repr
      ensures Valid() && fresh(Repr - old(Repr))
      ensures w.Keys == old(w.Keys) + {key}
      ensures w[key].History == old(HistoryOf(key)) + [Sample(NormalizeOutput(stdout), now)]
      ensures forall k :: k in old(w) && k != key ==> w[k] == old(w[k]) && w[k].History == old(w[k].History)
    {
      var status := NormalizeOutput(stdout);
      if key !in w {
        AddRing(key);
      }
      PushTo(key, Sample(status, now));
    }

    /** The lazy creation in `Ping`: a new key gets an empty ring; the other rings stay. */
    method AddRing(key: string)
      requires Valid() && key !in w
      modifies this
      ensures Valid() && fresh(Repr - old(Repr))
      ensures key in w && w == old(w)[key := w[key]] && w[key].History == []
    {
      ghost var w0, repr0 := w, Repr;
      var win := new Windowed(windowSize);
      forall k | k in w0
        ensures w0[k].Valid() && w0[k].data != win.data
      {
        assert w0[k] in repr0 && w0[k].data in repr0;
      }
      w := w[key := win];
      Repr := repr0 + {win, win.data};
    }

    /** The push in `Ping`: the key's ring receives `sample`; no other ring changes. */
    method PushTo(key: string, sample: Sample)
      requires Valid() && key in w && windowSize > 0
      modifies w[key], w[key].data
      ensures Valid() && w == old(w) && Repr == old(Repr)
      ensures w[key].History == old(w[key].History) + [sample]
    {
      var win := w[key];
      var _ := win.Push(sample);
      forall k | k in w && k != key
        ensures w[k].Valid() && w[k].data.Length == windowSize
      {
        assert w[k] != win && w[k].data != win.data;
      }
    }

    /** `Phi`: the classification of the key's ring. The key must have a ring (Go dereferences nil otherwise). */
    method Phi(key: string) returns (r: Status)
      requires Valid() && key in w
      ensures r == Classify(w[key].Window(), minSamples)
    {
      r := PhiOf(w[key], minSamples);
    }

    /** `DelKey`: forgets one key's ring. */
    method DelKey(key: string)
      requires Valid()
      modifies this
      ensures Valid() && Repr == old(Repr)
      ensures w == old(w) - {key}
    {
      w := w - {key};
    }

    /** `Get`: the key's ring in storage order, or a not-found error. */
    function Get(key: string): (r: Result<seq<Sample>, string>)
      reads this, Repr
      requires Valid()
      ensures r.Success? <==> key in w
      ensures r.Success? ==> |r.value| == windowSize
      ensures r.Failure? ==> r.error == "key " + key + " not found"
    {
      if key in w then Success(w[key].data[..]) else Failure("key " + key + " not found")
    }

    /** `Clone`: every key's ring in storage order. */
    function Clone(): (r: map<string, seq<Sample>>)
      reads this, Repr
      requires Valid()
      ensures r.Keys == w.Keys
      ensures forall k :: k in r ==> |r[k]| == windowSize
    {
      map k | k in w :: w[k].data[..]
    }
  }
}
