/** The ring of nodes that share a socket: artnet_join rewires the peer pointers in place. */
module NodeRing {
  import opened Base

  class Node {
    var peer: Node?
    var master: bool
    var on: bool

    /** The peering fields artnet_new sets. */
    constructor ()
      ensures peer == null && master && !on
    {
      peer, master, on := null, true, false;
    }
  }

  ghost predicate Distinct(s: seq<Node>) {
    forall i, j :: 0 <= i < j < |s| ==> s[i] != s[j]
  }

  /** Each node of s points to the next one. */
  ghost predicate Chain(s: seq<Node>)
    reads s
  {
    forall i {:trigger s[i].peer} :: 0 <= i < |s| - 1 ==> s[i].peer == s[i + 1]
  }

  /** The nodes of s point to one another in order, and the last one to the first. */
  ghost predicate IsRing(s: seq<Node>)
    reads s
  {
    && s != [] && Distinct(s) && Chain(s)
    && s[|s| - 1].peer == s[0]
  }

  /** A node on its own or a ring, listed from some member on. */
  ghost predicate IsGroup(s: seq<Node>)
    reads s
  {
    IsRing(s) || (|s| == 1 && s[0].peer == null)
  }

  ghost function Members(s: seq<Node>): set<Node> { set n | n in s }

  ghost predicate Apart(s: seq<Node>, t: seq<Node>) {
    forall i :: 0 <= i < |s| ==> s[i] !in t
  }

  ghost predicate OneMaster(s: seq<Node>)
    reads s
  {
    && (exists m :: m in s && m.master)
    && (forall m, n :: m in s && n in s && m.master && n.master ==> m == n)
  }

  /** The ring a join makes of the groups listed from the two nodes on. */
  ghost function Joined(r1: seq<Node>, r2: seq<Node>): (r: seq<Node>)
    requires r1 != []
    ensures Members(r1) !! Members(r2) ==> Members(r) == Members(r1) + Members(r2)
    ensures r != [] && r[0] == r1[0]
  {
    if Members(r1) !! Members(r2) then
      var r := [r1[0]] + r2 + r1[1..];
      assert r1 == [r1[0]] + r1[1..];
      r
    else r1
  }

  // ----- Groups with a common member

  lemma {:induction false} WalkStaysInside(r: seq<Node>, inside: set<Node>, i: nat, j: nat)
    requires IsRing(r) && i <= j < |r| && r[i] in inside
    requires forall n {:trigger n.peer} :: n in inside ==> n.peer != null && n.peer in inside
    ensures r[j] in inside
    ensures j == |r| - 1 ==> r[0] in inside
    decreases j - i
  {
    if i < j {
      assert r[i].peer == r[i + 1];
      WalkStaysInside(r, inside, i + 1, j);
    }
  }

  lemma RingStaysInside(r: seq<Node>, inside: set<Node>, i: nat)
    requires IsRing(r) && i < |r| && r[i] in inside
    requires forall n {:trigger n.peer} :: n in inside ==> n.peer != null && n.peer in inside
    ensures Members(r) <= inside
  {
    hide IsRing;
    WalkStaysInside(r, inside, i, |r| - 1);
    forall j | 0 <= j < |r| ensures r[j] in inside {
      WalkStaysInside(r, inside, 0, j);
    }
  }

  /** A ring with one member in a group lies wholly inside it. */
  lemma SharedMemberContains(r1: seq<Node>, r2: seq<Node>, i: nat)
    requires IsGroup(r1) && IsGroup(r2) && i < |r1| && r1[i] in r2
    ensures Members(r1) <= Members(r2)
  {
    if !IsRing(r1) {
      assert r1[i] == r1[0];
    } else {
      RingIsClosed(r1);
      assert r1[i].peer != null;
      if IsRing(r2) {
        RingIsClosed(r2);
        RingStaysInside(r1, Members(r2), i);
      }
    }
  }

  lemma RingIsClosed(r: seq<Node>)
    requires IsRing(r)
    ensures forall n {:trigger n.peer} :: n in r ==> n.peer != null && n.peer in r
  {
    forall n | n in r ensures n.peer != null && n.peer in r {
      var k :| 0 <= k < |r| && r[k] == n;
      if k < |r| - 1 { assert r[k].peer == r[k + 1]; }
    }
  }

  /** Two groups are disjoint or have the same members. */
  lemma SharedOrDisjoint(r1: seq<Node>, r2: seq<Node>)
    requires IsGroup(r1) && IsGroup(r2)
    ensures Members(r1) !! Members(r2) || Members(r1) == Members(r2)
  {
    if n :| n in r1 && n in r2 {
      var i :| 0 <= i < |r1| && r1[i] == n;
      var j :| 0 <= j < |r2| && r2[j] == n;
      SharedMemberContains(r1, r2, i);
      SharedMemberContains(r2, r1, j);
    }
  }

  // ----- artnet_join

  lemma SplicedRing(n1: Node, r2: seq<Node>, rest: seq<Node>)
    requires r2 != [] && Distinct([n1] + r2 + rest) && Chain(r2) && Chain(rest)
    requires n1.peer == r2[0]
    requires r2[|r2| - 1].peer == (if rest == [] then n1 else rest[0])
    requires rest != [] ==> rest[|rest| - 1].peer == n1
    ensures IsRing([n1] + r2 + rest)
  {}

  lemma DistinctSplice(n1: Node, r2: seq<Node>, rest: seq<Node>)
    requires Distinct([n1] + rest) && Distinct(r2) && Members([n1] + rest) !! Members(r2)
    ensures Distinct([n1] + r2 + rest)
  {
    var r1 := [n1] + rest;
    assert forall j :: 0 <= j < |r2| ==> r2[j] in Members(r2);
    assert r1[0] in Members(r1);
    forall i | 0 <= i < |rest| ensures rest[i] in Members(r1) && rest[i] != n1 {
      assert r1[i + 1] == rest[i] && r1[i + 1] in Members(r1);
    }
    forall i, j | 0 <= i < j < |rest| ensures rest[i] != rest[j] {
      assert r1[i + 1] == rest[i] && r1[j + 1] == rest[j];
    }
  }

  /**
   * artnet_join. The ghost arguments list the groups of the two nodes, from each of them on.
   * Disjoint groups become one ring, a common ring stays as it is, and in both cases the first
   * argument is left as the only master. The code returns ARTNET_ESTATE when it succeeds.
   */
  method Join(n1: Node?, n2: Node?, ghost r1: seq<Node>, ghost r2: seq<Node>) returns (ret: int)
    requires n1 != null && n2 != null ==> IsGroup(r1) && r1[0] == n1 && IsGroup(r2) && r2[0] == n2
    modifies r1`peer, r1`master, r2`peer, r2`master
    ensures n1 == null || n2 == null ==> ret == ARTNET_EARG
    ensures n1 != null && n2 != null && (n1.on || n2.on) ==> ret == ARTNET_EACTION
    ensures n1 == null || n2 == null || n1.on || n2.on ==>
              unchanged(r1`peer, r1`master, r2`peer, r2`master)
    ensures n1 != null && n2 != null && !n1.on && !n2.on ==>
              && ret == ARTNET_ESTATE
              && IsRing(Joined(r1, r2))
              && (forall n :: n in Joined(r1, r2) ==> (n.master <==> n == n1))
              && (old(IsRing(r1)) && !(Members(r1) !! Members(r2)) ==> unchanged(r1`peer))
  {
    if n1 == null || n2 == null {
      return ARTNET_EARG;
    }
    if n1.on || n2.on {
      return ARTNET_EACTION;
    }
    Splice(n1, n2, r1, r2);
    MakeOnlyMaster(n1, Joined(r1, r2));
    return ARTNET_ESTATE;
  }

  /** The pointer surgery of artnet_join. */
  method Splice(n1: Node, n2: Node, ghost r1: seq<Node>, ghost r2: seq<Node>)
    requires IsGroup(r1) && r1[0] == n1 && IsGroup(r2) && r2[0] == n2
    modifies r1`peer, r2`peer
    ensures IsRing(Joined(r1, r2))
    ensures old(IsRing(r1)) && !(Members(r1) !! Members(r2)) ==> unchanged(r1`peer)
  {
    hide IsRing, IsGroup, Members;
    SharedOrDisjoint(r1, r2);
    GroupLinks(r1);
    GroupLinks(r2);
    ghost var last := LastBefore(n1, r1, r2);
    var tmp := if n1.peer == null then n1 else n1.peer;
    n1.peer := n2;
    FindLast(n1, n2, tmp, r2, last);
    if Members(r1) !! Members(r2) {
      assert Chain(r2);
      assert Chain(r1[1..]) by {
        assert forall i :: 0 <= i < |r1[1..]| ==> r1[1..][i] == r1[i + 1] && r1[i + 1] != n1;
      }
      RingOfBoth(n1, tmp, r1, r2);
    } else {
      assert forall i :: 0 <= i < |r1| && i > 0 ==> r1[i].peer == old(r1[i].peer);
      LinksRing(r1);
    }
  }

  /** Where the walk from n2 will stop once n1 points to n2. */
  lemma LastBefore(n1: Node, r1: seq<Node>, r2: seq<Node>) returns (last: nat)
    requires r1 != [] && r1[0] == n1 && r2 != [] && Distinct(r1) && Distinct(r2)
    requires Members(r1) !! Members(r2) || Members(r1) == Members(r2)
    ensures last < |r2| && forall i :: 0 <= i < last ==> r2[i] != n1
    ensures Members(r1) !! Members(r2) ==> last == |r2| - 1 && Apart(r1, r2) && Apart(r2, r1)
    ensures !(Members(r1) !! Members(r2)) ==> r2[last] == n1 && forall i :: 0 < i < |r1| ==> r1[i] in r2
  {
    assert r1[0] in Members(r1);
    assert forall i :: 0 <= i < |r1| ==> r1[i] in Members(r1);
    assert forall i :: 0 <= i < |r2| ==> r2[i] in Members(r2);
    last := |r2| - 1;
    if !(Members(r1) !! Members(r2)) {
      assert n1 in Members(r2);
      last :| 0 <= last < |r2| && r2[last] == n1;
    }
  }

  lemma GroupLinks(r: seq<Node>)
    requires IsGroup(r) || IsRing(r)
    ensures r != [] && Distinct(r) && Chain(r)
    ensures IsRing(r) ==> r[|r| - 1].peer == r[0]
    ensures r[|r| - 1].peer == r[0] || (|r| == 1 && r[0].peer == null && !IsRing(r))
    ensures |r| > 1 ==> r[0].peer == r[1]
  {}

  lemma LinksRing(r: seq<Node>)
    requires r != [] && Distinct(r) && Chain(r) && r[|r| - 1].peer == r[0]
    ensures IsRing(r)
  {}

  lemma RingOfBoth(n1: Node, tmp: Node, r1: seq<Node>, r2: seq<Node>)
    requires Distinct(r1) && Distinct(r2) && Members(r1) !! Members(r2)
    requires r1 != [] && r1[0] == n1 && r2 != []
    requires tmp == if |r1| == 1 then n1 else r1[1]
    requires n1.peer == r2[0] && r2[|r2| - 1].peer == tmp
    requires Chain(r2) && Chain(r1[1..])
    requires |r1| > 1 ==> r1[|r1| - 1].peer == n1
    ensures IsRing(Joined(r1, r2))
  {
    assert r1 == [n1] + r1[1..];
    DistinctSplice(n1, r2, r1[1..]);
    SplicedRing(n1, r2, r1[1..]);
  }

  /** The walk of artnet_join to the node before n2, whose peer is then redirected. */
  method FindLast(n1: Node, n2: Node, tmp: Node, ghost r2: seq<Node>, ghost last: nat)
    requires r2 != [] && r2[0] == n2 && last < |r2| && Distinct(r2)
    requires forall i {:trigger r2[i].peer} :: 0 <= i < last ==> r2[i].peer == r2[i + 1]
    requires r2[last].peer == null || r2[last].peer == n2
    modifies r2`peer
    ensures r2[last].peer == tmp
    ensures forall n :: n in r2 && n != r2[last] ==> n.peer == old(n.peer)
  {
    var n := n2;
    ghost var i := 0;
    while n.peer != null && n.peer != n2
      invariant 0 <= i <= last && n == r2[i]
      invariant i < last ==> n.peer == r2[i + 1]
      decreases last - i
    {
      n := n.peer;
      i := i + 1;
    }
    n.peer := tmp;
  }

  /** The loop that leaves n1 as the only master of its ring. */
  method MakeOnlyMaster(n1: Node, ghost r: seq<Node>)
    requires IsRing(r) && r[0] == n1
    modifies r`master
    ensures IsRing(r)
    ensures forall n :: n in r ==> (n.master <==> n == n1)
  {
    var n := n1.peer;
    ghost var i := 1;
    assert |r| > 1 ==> r[0].peer == r[1];
    while n != n1
      invariant 1 <= i <= |r| && n == (if i < |r| then r[i] else n1)
      invariant forall j :: 1 <= j < i ==> !r[j].master
      decreases |r| - i
    {
      n.master := false;
      assert i < |r| - 1 ==> r[i].peer == r[i + 1];
      n := n.peer;
      i := i + 1;
    }
    n1.master := true;
  }

  /** How artnet_read passes a packet on: every other member of the group once, in ring order. */
  method Peers(n: Node, ghost r: seq<Node>) returns (visited: seq<Node>)
    requires IsGroup(r) && r[0] == n
    ensures visited == r[1..]
  {
    visited := [];
    var tmp := n.peer;
    ghost var i := 1;
    assert |r| > 1 ==> r[0].peer == r[1];
    while tmp != null && tmp != n
      invariant 1 <= i <= |r| && visited == r[1..i]
      invariant tmp == (if i < |r| then r[i] else if IsRing(r) then n else null)
      decreases |r| - i
    {
      visited := visited + [tmp];
      assert i < |r| - 1 ==> r[i].peer == r[i + 1];
      tmp := tmp.peer;
      i := i + 1;
    }
  }

  // ----- Any sequence of joins

  ghost function Rotated(r: seq<Node>, n: Node): (s: seq<Node>)
    requires n in r
    ensures s != [] && s[0] == n && Members(s) == Members(r)
  {
    var k :| 0 <= k < |r| && r[k] == n;
    assert r == r[..k] + r[k..];
    r[k..] + r[..k]
  }

  lemma RotatedRing(r: seq<Node>, n: Node)
    requires IsRing(r) && n in r
    ensures IsRing(Rotated(r, n))
  {
    hide IsRing;
    GroupLinks(r);
    var k :| 0 <= k < |r| && r[k] == n && Rotated(r, n) == r[k..] + r[..k];
    RotatedDistinct(r, k);
    if k == 0 {
      assert Rotated(r, n) == r;
      LinksRing(r);
    } else {
      assert Chain(r[k..]) && Chain(r[..k]);
      assert r[k - 1].peer == r[k] && r[|r| - 1] == r[k..][|r| - k - 1];
      SplicedChain(r[k..], r[..k]);
      LinksRing(r[k..] + r[..k]);
    }
  }

  lemma RotatedDistinct(r: seq<Node>, k: nat)
    requires Distinct(r) && k <= |r|
    ensures Distinct(r[k..] + r[..k])
  {}

  lemma SplicedChain(s: seq<Node>, t: seq<Node>)
    requires Chain(s) && Chain(t) && s != [] && t != [] && s[|s| - 1].peer == t[0]
    ensures Chain(s + t)
  {}

  /** Every known node lies in a well-formed group of known nodes with exactly one master. */
  ghost predicate World(home: map<Node, seq<Node>>)
    reads home.Keys
  {
    forall n :: n in home ==> Members(home[n]) <= home.Keys && Housed(home[n], n)
  }

  ghost predicate Housed(r: seq<Node>, n: Node)
    reads r
  {
    r != [] && r[0] == n && IsGroup(r) && OneMaster(r)
  }

  ghost function Rehomed(home: map<Node, seq<Node>>, r: seq<Node>): map<Node, seq<Node>> {
    map n | n in home :: if n in r then Rotated(r, n) else home[n]
  }

  lemma JoinedWorld(home: map<Node, seq<Node>>, n1: Node, n2: Node)
    requires World(home) && n1 in home && n2 in home
    ensures home[n1] != []
    ensures
      var r := Joined(home[n1], home[n2]);
      && Members(r) == Members(home[n1]) + Members(home[n2])
      && n1 in r && n2 in r && n2 in Members(r) && Members(r) <= home.Keys
      && Housed(home[n1], n1) && Housed(home[n2], n2)
      && (forall m :: m in home[n1] || m in home[n2] ==> m in home)
      && (forall n :: n in home ==> Housed(home[n], n) && Members(home[n]) <= home.Keys)
      && (forall n :: n in home && n in r ==> Members(home[n]) <= Members(r))
      && (forall n :: n in home && n !in r ==> Apart(home[n], home[n1]) && Apart(home[n], home[n2]))
  {
    hide IsGroup, OneMaster;
    var r := Joined(home[n1], home[n2]);
    SharedOrDisjoint(home[n1], home[n2]);
    assert Housed(home[n1], n1) && Housed(home[n2], n2);
    assert home[n1][0] in Members(home[n1]) && home[n2][0] in Members(home[n2]);
    assert Members(r) == Members(home[n1]) + Members(home[n2]);
    assert n1 in Members(r) && n2 in Members(r);
    assert forall m :: m in home[n1] ==> m in Members(home[n1]);
    assert forall m :: m in home[n2] ==> m in Members(home[n2]);
    forall n | n in home
      ensures n in r ==> Members(home[n]) <= Members(r)
      ensures n !in r ==> Apart(home[n], home[n1]) && Apart(home[n], home[n2])
    {
      assert Housed(home[n], n) && home[n][0] in Members(home[n]);
      SharedOrDisjoint(home[n], home[n1]);
      SharedOrDisjoint(home[n], home[n2]);
      assert n in r <==> n in Members(r);
      forall m | m in home[n] && n !in r ensures m !in home[n1] && m !in home[n2] {
        assert m in Members(home[n]) && m !in Members(home[n1]) && m !in Members(home[n2]);
      }
    }
  }

  lemma SoleMaster(r: seq<Node>, s: seq<Node>, m: Node)
    requires m in r && Members(s) == Members(r)
    requires forall n :: n in r ==> (n.master <==> n == m)
    ensures OneMaster(s)
  {
    assert m in Members(s);
    assert forall n :: n in s ==> n in Members(r);
  }

  lemma Resettled(home: map<Node, seq<Node>>, r: seq<Node>, m: Node)
    requires IsRing(r) && m in r && forall n :: n in r ==> (n.master <==> n == m)
    requires Members(r) <= home.Keys
    requires forall n :: n in home && n in r ==> Members(home[n]) <= Members(r)
    requires forall n :: n in home && n !in r ==> Members(home[n]) <= home.Keys && Housed(home[n], n)
    ensures World(Rehomed(home, r)) && Rehomed(home, r).Keys == home.Keys
    ensures forall n :: n in home ==> Members(home[n]) <= Members(Rehomed(home, r)[n])
    ensures forall n :: n in home && n in r ==> Members(Rehomed(home, r)[n]) == Members(r)
  {
    hide IsRing, OneMaster;
    var now := Rehomed(home, r);
    forall n | n in now && n in r ensures Housed(now[n], n) {
      RotatedRing(r, n);
      SoleMaster(r, now[n], m);
    }
  }

  /** A join touches no group but the two it joins. */
  method JoinAmong(n1: Node, n2: Node, ghost r1: seq<Node>, ghost r2: seq<Node>, ghost others: set<seq<Node>>)
    returns (ret: int)
    requires Housed(r1, n1) && Housed(r2, n2) && !n1.on && !n2.on
    requires forall s :: s in others ==> s != [] && Housed(s, s[0]) && Apart(s, r1) && Apart(s, r2)
    modifies r1`peer, r1`master, r2`peer, r2`master
    ensures ret == ARTNET_ESTATE
    ensures forall s :: s in others ==> s != [] && Housed(s, s[0])
    ensures IsRing(Joined(r1, r2)) && forall n :: n in Joined(r1, r2) ==> (n.master <==> n == n1)
  {
    hide IsGroup, OneMaster, IsRing;
    ret := Join(n1, n2, r1, r2);
    forall s | s in others ensures Housed(s, s[0]) {
      assert old(Housed(s, s[0])) && Apart(s, r1) && Apart(s, r2);
      assert forall i :: 0 <= i < |s| ==> unchanged(s[i]);
    }
  }

  /** A join keeps the world well-formed, merges the two groups and leaves every other as it was. */
  method JoinKnown(n1: Node, n2: Node, ghost home: map<Node, seq<Node>>)
    returns (ret: int, ghost now: map<Node, seq<Node>>)
    requires World(home) && n1 in home && n2 in home && !n1.on && !n2.on
    modifies home.Keys`peer, home.Keys`master
    ensures ret == ARTNET_ESTATE
    ensures World(now) && now.Keys == home.Keys
    ensures Members(now[n1]) == Members(now[n2]) == Members(home[n1]) + Members(home[n2])
    ensures n1.master && n2 in Members(now[n1])
    ensures forall a :: a in home ==> Members(home[a]) <= Members(now[a])
  {
    JoinedWorld(home, n1, n2);
    ghost var r := Joined(home[n1], home[n2]);
    ghost var others := set n | n in home && n !in r :: home[n];
    assert forall n :: n in home ==> home[n] != [] && home[n][0] == n;
    hide IsRing, OneMaster, World, Joined, Members, Rehomed, IsGroup, Housed;
    ret := JoinAmong(n1, n2, home[n1], home[n2], others);
    forall n | n in home && n !in r ensures Housed(home[n], n) {
      assert home[n] in others && home[n][0] == n;
    }
    Resettled(home, r, n1);
    now := Rehomed(home, r);
  }

  /**
   * After any sequence of joins of nodes that have not been started, every node is in a
   * well-formed group with exactly one master, and all joined pairs share a group.
   */
  method JoinAll(pairs: seq<(Node, Node)>, ghost home: map<Node, seq<Node>>)
    returns (ghost now: map<Node, seq<Node>>)
    requires World(home)
    requires forall i :: 0 <= i < |pairs| ==> pairs[i].0 in home && pairs[i].1 in home
    requires forall n :: n in home ==> !n.on
    modifies home.Keys`peer, home.Keys`master
    ensures World(now) && now.Keys == home.Keys
    ensures forall i :: 0 <= i < |pairs| ==> pairs[i].1 in Members(now[pairs[i].0])
  {
    hide World, Members;
    now := home;
    for k := 0 to |pairs|
      invariant World(now) && now.Keys == home.Keys
      invariant forall i :: 0 <= i < k ==> pairs[i].1 in Members(now[pairs[i].0])
    {
      var _, next := JoinKnown(pairs[k].0, pairs[k].1, now);
      now := next;
    }
  }
}
