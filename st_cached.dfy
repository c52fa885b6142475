/**
 * The node's membership upkeep and leadership tracking (stCached.go, with
 * the write flag of http.go): extracting hosts from "host:port" addresses,
 * computing which raft members must join the gossip cluster, and keeping
 * the write gate in step with raft leadership.
 */
module StCached {
  import opened Wrappers
  import opened Scavenger

  /** How many times `c` occurs in `s`. */
  function Occurrences(s: string, c: char): nat {
    if s == [] then 0 else (if s[0] == c then 1 else 0) + Occurrences(s[1..], c)
  }

  /** The position of the first `c` in `s`. */
  function IndexOf(s: string, c: char): (i: nat)
    requires c in s
    ensures i < |s| && s[i] == c && c !in s[..i]
  {
    if s[0] == c then 0
    else
      assert c in s[1..] by {
        var k :| 0 <= k < |s| && s[k] == c;
        assert s[1..][k - 1] == c;
      }
      var j := IndexOf(s[1..], c);
      assert s[..j + 1] == [s[0]] + s[1..][..j];
      j + 1
  }

  /**
   * `strings.Split` with a one-character separator: the pieces between
   * separators, one more piece than there are separators, none holding
   * the separator.
   */
  function Split(s: string, sep: char): (r: seq<string>)
    ensures |r| == Occurrences(s, sep) + 1
    ensures forall p :: p in r ==> sep !in p
    decreases |s|
  {
    if sep !in s then
      assert Occurrences(s, sep) == 0 by {
        NoOccurrences(s, sep);
      }
      [s]
    else
      var i := IndexOf(s, sep);
      OccurrencesAt(s, sep, i);
      [s[..i]] + Split(s[i + 1..], sep)
  }

  lemma {:induction false} NoOccurrences(s: string, c: char)
    requires c !in s
    ensures Occurrences(s, c) == 0
    decreases |s|
  {
    if s != [] {
      assert c !in s[1..] by {
        forall k | 0 <= k < |s| - 1 ensures s[1..][k] != c {
          assert s[1..][k] == s[k + 1];
        }
      }
      NoOccurrences(s[1..], c);
    }
  }

  /** Cutting `s` at its first `c`: the occurrences are those after the cut, plus one. */
  lemma {:induction false} OccurrencesAt(s: string, c: char, i: nat)
    requires i < |s| && s[i] == c && c !in s[..i]
    ensures Occurrences(s, c) == Occurrences(s[i + 1..], c) + 1
    decreases i
  {
    if i > 0 {
      assert s[1..][..i - 1] == s[1..i];
      assert c !in s[1..i] by {
        forall k | 0 <= k < i - 1 ensures s[1..i][k] != c {
          assert s[1..i][k] == s[..i][k + 1];
        }
      }
      OccurrencesAt(s[1..], c, i - 1);
      assert s[1..][i..] == s[i + 1..];
      assert s[0] != c by {
        assert s[..i][0] == s[0];
      }
    }
  }

  /** The pieces glued back together with the separator between them. */
  function Join(parts: seq<string>, sep: char): string
    requires parts != []
    decreases |parts|
  {
    if |parts| == 1 then parts[0] else parts[0] + [sep] + Join(parts[1..], sep)
  }

  /** Splitting loses nothing: joining the pieces with the separator gives back the string. */
  lemma {:induction false} JoinSplit(s: string, sep: char)
    ensures Join(Split(s, sep), sep) == s
    decreases |s|
  {
    if sep in s {
      var i := IndexOf(s, sep);
      var rest := Split(s[i + 1..], sep);
      JoinSplit(s[i + 1..], sep);
      assert Split(s, sep)[1..] == rest;
      assert s == s[..i] + [sep] + s[i + 1..];
    }
  }

  /** The host of one address: the part before ':' when the address has exactly one ':', nothing otherwise. */
  function HostOf(node: string): (r: seq<string>)
    ensures |r| <= 1 && (r != [] <==> Occurrences(node, ':') == 1)
    ensures r != [] ==> ':' !in r[0]
  {
    var temp := Split(node, ':');
    if |temp| != 2 then [] else [temp[0]]
  }

  /** The hosts `getIP` extracts, in input order. */
  function HostsOf(nodes: seq<string>): (r: seq<string>)
    ensures |r| <= |nodes|
    ensures forall h :: h in r ==> ':' !in h
    decreases |nodes|
  {
    if nodes == [] then []
    else HostsOf(nodes[..|nodes| - 1]) + HostOf(nodes[|nodes| - 1])
  }

  /** The first `c` of `a + [c] + b` is the one after `a` when `a` has none. */
  lemma {:induction false} IndexOfAfter(a: string, c: char, b: string)
    requires c !in a
    ensures IndexOf(a + [c] + b, c) == |a|
    decreases |a|
  {
    var s := a + [c] + b;
    if a != [] {
      assert s[0] == a[0] && a[0] != c;
      assert s[1..] == a[1..] + [c] + b;
      assert c !in a[1..] by {
        forall k | 0 <= k < |a| - 1 ensures a[1..][k] != c {
          assert a[1..][k] == a[k + 1];
        }
      }
      IndexOfAfter(a[1..], c, b);
    }
  }

  /**
   * An address of the form host:port with neither part holding ':' yields
   * its host.
   */
  lemma HostOfAddress(host: string, port: string)
    requires ':' !in host && ':' !in port
    ensures HostOf(host + ":" + port) == [host]
  {
    var s := host + ":" + port;
    assert s[|host|] == ':' && s[..|host|] == host && s[|host| + 1..] == port;
    IndexOfAfter(host, ':', port);
    assert Split(s, ':') == [host] + Split(port, ':');
  }

  /** `getIP`: the host of every address that splits into exactly two parts, skipping the others. */
  method GetIP(nodes: seq<string>) returns (result: seq<string>)
    ensures result == HostsOf(nodes)
  {
    result := [];
    var i := 0;
    while i < |nodes|
      invariant 0 <= i <= |nodes|
      invariant result == HostsOf(nodes[..i])
    {
      var temp := Split(nodes[i], ':');
      assert nodes[..i + 1][..i] == nodes[..i];
      if |temp| != 2 {
        i := i + 1;
        continue;
      }
      result := result + [temp[0]];
      i := i + 1;
    }
    assert nodes[..i] == nodes;
  }

  /** The raft hosts not among the gossip hosts, in raft order. */
  function Missing(raft: seq<string>, gossip: seq<string>): (r: seq<string>)
    ensures forall h :: h in r <==> h in raft && h !in gossip
    ensures |r| <= |raft|
    decreases |raft|
  {
    if raft == [] then []
    else
      var init := raft[..|raft| - 1];
      var last := raft[|raft| - 1];
      assert raft == init + [last];
      Missing(init, gossip) + (if last in gossip then [] else [last])
  }

  /** The needToJoin loop of `reJoinGossipNodes`. */
  method NeedToJoin(raftMembers: seq<string>, gossipMembers: seq<string>) returns (needToJoin: seq<string>)
    ensures needToJoin == Missing(raftMembers, gossipMembers)
  {
    needToJoin := [];
    var i := 0;
    while i < |raftMembers|
      invariant 0 <= i <= |raftMembers|
      invariant needToJoin == Missing(raftMembers[..i], gossipMembers)
    {
      var node := raftMembers[i];
      assert raftMembers[..i + 1][..i] == raftMembers[..i];
      var present := Exists(gossipMembers, node);
      if !present {
        needToJoin := needToJoin + [node];
      }
      i := i + 1;
    }
    assert raftMembers[..i] == raftMembers;
  }

  /** `Members`: the addresses of the raft configuration's servers, or none when it cannot be read. */
  method Members(configuration: Result<seq<string>, string>) returns (result: seq<string>)
    ensures configuration.Failure? ==> result == []
    ensures configuration.Success? ==> result == configuration.value
  {
    result := [];
    if configuration.Failure? {
      return;
    }
    var servers := configuration.value;
    var i := 0;
    while i < |servers|
      invariant 0 <= i <= |servers|
      invariant result == servers[..i]
    {
      result := result + [servers[i]];
      i := i + 1;
    }
  }

  /**
   * `reJoinGossipNodes`: the hosts the gossip node is asked to join, one
   * join each, in raft order. Nothing asks a member to leave, so after the
   * joins every raft host is a gossip host or was asked to join, and no
   * gossip host is asked to join again.
   */
  method ReJoinGossipNodes(configuration: Result<seq<string>, string>, gossipMembers: seq<string>) returns (joins: seq<string>)
    ensures var raftHosts := if configuration.Success? then HostsOf(configuration.value) else [];
      joins == Missing(raftHosts, HostsOf(gossipMembers))
    ensures var raftHosts := if configuration.Success? then HostsOf(configuration.value) else [];
      forall h :: h in raftHosts ==> h in HostsOf(gossipMembers) || h in joins
    ensures forall h :: h in joins ==> h !in HostsOf(gossipMembers)
  {
    var raftMembers := Members(configuration);
    raftMembers := GetIP(raftMembers);
    var gossipHosts := GetIP(gossipMembers);
    joins := NeedToJoin(raftMembers, gossipHosts);
  }

  /** The values of the atomic write flag (http.go:19-20). */
  const ENABLE_WRITE_TRUE: int := 1
  const ENABLE_WRITE_FALSE: int := 0

  /** The write gate of `httpServer`: writes are served only while it is set. */
  class HttpServer {
    var enableWrite: int

    constructor ()
      ensures enableWrite == ENABLE_WRITE_FALSE && !CheckWritePermission()
    {
      enableWrite := ENABLE_WRITE_FALSE;
    }

    /** `checkWritePermission`. */
    function CheckWritePermission(): (r: bool)
      reads this
      ensures r <==> enableWrite == ENABLE_WRITE_TRUE
    {
      enableWrite == ENABLE_WRITE_TRUE
    }

    /** `setWriteFlag`: after it, writes are permitted exactly when `flag` is set. */
    method SetWriteFlag(flag: bool)
      modifies this
      ensures enableWrite == (if flag then ENABLE_WRITE_TRUE else ENABLE_WRITE_FALSE)
      ensures CheckWritePermission() == flag
    {
      if flag {
        enableWrite := ENABLE_WRITE_TRUE;
      } else {
        enableWrite := ENABLE_WRITE_FALSE;
      }
    }
  }

  /**
   * `monitorLeadrship` over the leadership notifications received, oldest
   * first: after each one the gate follows it, so in the end writes are
   * permitted exactly when the last notification said leader; with none
   * the gate is as it was.
   */
  method MonitorLeadership(hs: HttpServer, notifications: seq<bool>)
    modifies hs
    ensures notifications == [] ==> hs.enableWrite == old(hs.enableWrite)
    ensures notifications != [] ==> hs.CheckWritePermission() == notifications[|notifications| - 1]
  {
    var i := 0;
    while i < |notifications|
      invariant 0 <= i <= |notifications|
      invariant i == 0 ==> hs.enableWrite == old(hs.enableWrite)
      invariant i > 0 ==> hs.CheckWritePermission() == notifications[i - 1]
    {
      hs.SetWriteFlag(notifications[i]);
      i := i + 1;
    }
  }
}
