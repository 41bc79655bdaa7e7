/** The `Container` objects of the threading code (jwz_threading.py:11-50),
    kept in an arena: a container is an index into a sequence of container
    records, its parent and children are indices too.

    Every record's children carry a smaller ghost rank than the record
    itself. The rank is what makes recursion over children terminate and
    what rules out cycles; `Arena.AddChild` keeps it up to date. */
module Containers {
  import opened Wrappers
  import opened Mail

  datatype Container = Container(message: Option<EmailMessage>, parent: Option<nat>, children: seq<nat>)

  /** `is_dummy` (jwz_threading.py:40-42): a container without a message. */
  predicate IsDummy(c: Container) {
    c.message.None?
  }

  predicate NoDup<T(==)>(s: seq<T>) {
    forall i, j :: 0 <= i < j < |s| ==> s[i] != s[j]
  }

  /** Every parent and child index points into the arena. */
  predicate InRange(ns: seq<Container>) {
    && (forall x :: 0 <= x < |ns| && ns[x].parent.Some? ==> ns[x].parent.value < |ns|)
    && (forall x, i :: 0 <= x < |ns| && 0 <= i < |ns[x].children| ==> ns[x].children[i] < |ns|)
  }

  /** `rank` decreases from every container to each of its children: the
      child lists contain no cycle. */
  ghost predicate Ranked(ns: seq<Container>, rank: seq<nat>) {
    && |rank| == |ns|
    && InRange(ns)
    && (forall x, i :: 0 <= x < |ns| && 0 <= i < |ns[x].children| ==> rank[ns[x].children[i]] < rank[x])
  }

  /** `y` is `x` itself or one of its descendants. */
  ghost predicate Reaches(ns: seq<Container>, rank: seq<nat>, x: nat, y: nat)
    requires Ranked(ns, rank) && x < |ns|
    decreases rank[x]
  {
    x == y || exists i :: 0 <= i < |ns[x].children| && Reaches(ns, rank, ns[x].children[i], y)
  }

  /** `y` is a proper descendant of `x`. */
  ghost predicate Below(ns: seq<Container>, rank: seq<nat>, x: nat, y: nat)
    requires Ranked(ns, rank) && x < |ns|
  {
    exists i :: 0 <= i < |ns[x].children| && Reaches(ns, rank, ns[x].children[i], y)
  }

  /** `has_descendant` (jwz_threading.py:33-38): depth-first over the
      children, in order. */
  function HasDescendant(ns: seq<Container>, ghost rank: seq<nat>, x: nat, y: nat): (r: bool)
    requires Ranked(ns, rank) && x < |ns|
    ensures r <==> Below(ns, rank, x, y)
    decreases rank[x], 1
  {
    AnyChildReaches(ns, rank, x, 0, y)
  }

  /** The loop of `has_descendant` from the `i`-th child on. */
  function AnyChildReaches(ns: seq<Container>, ghost rank: seq<nat>, x: nat, i: nat, y: nat): (r: bool)
    requires Ranked(ns, rank) && x < |ns| && i <= |ns[x].children|
    ensures r <==> exists j :: i <= j < |ns[x].children| && Reaches(ns, rank, ns[x].children[j], y)
    decreases rank[x], 0, |ns[x].children| - i
  {
    if i == |ns[x].children| then false
    else
      var c := ns[x].children[i];
      c == y || HasDescendant(ns, rank, c, y) || AnyChildReaches(ns, rank, x, i + 1, y)
  }

  /** `get_subject` (jwz_threading.py:44-50): the subject of the container's
      message, or else of its first child, or the empty string. A non-empty
      result is the subject of a message in the container's subtree. */
  function GetSubject(ns: seq<Container>, ghost rank: seq<nat>, x: nat): (r: string)
    requires Ranked(ns, rank) && x < |ns|
    ensures ns[x].message.Some? ==> r == ns[x].message.value.subject
    decreases rank[x]
  {
    if ns[x].message.Some? then ns[x].message.value.subject
    else if ns[x].children != [] then GetSubject(ns, rank, ns[x].children[0])
    else ""
  }

  /** A non-empty subject from `get_subject` is the subject of a message in
      the container's subtree. */
  lemma {:induction false} GetSubjectFromSubtree(ns: seq<Container>, rank: seq<nat>, x: nat)
    requires Ranked(ns, rank) && x < |ns|
    ensures GetSubject(ns, rank, x) != [] ==>
      exists y :: 0 <= y < |ns| && Reaches(ns, rank, x, y) && ns[y].message.Some? && ns[y].message.value.subject == GetSubject(ns, rank, x)
    decreases rank[x]
  {
    if ns[x].message.None? && ns[x].children != [] {
      var c := ns[x].children[0];
      GetSubjectFromSubtree(ns, rank, c);
      if GetSubject(ns, rank, c) != [] {
        var y :| 0 <= y < |ns| && Reaches(ns, rank, c, y) && ns[y].message.Some? && ns[y].message.value.subject == GetSubject(ns, rank, c);
        assert Reaches(ns, rank, x, y);
      }
    }
  }

  /** An upper bound of the ranks. */
  function MaxRank(rank: seq<nat>): (m: nat)
    ensures forall i :: 0 <= i < |rank| ==> rank[i] <= m
  {
    if rank == [] then 0
    else
      var m := MaxRank(rank[1..]);
      assert forall i :: 1 <= i < |rank| ==> rank[i] == rank[1..][i - 1];
      if rank[0] > m then rank[0] else m
  }

  /** A descendant never has a larger rank. */
  lemma {:induction false} ReachesRank(ns: seq<Container>, rank: seq<nat>, x: nat, y: nat)
    requires Ranked(ns, rank) && x < |ns| && Reaches(ns, rank, x, y)
    ensures y < |ns| && rank[y] <= rank[x]
    ensures x != y ==> rank[y] < rank[x]
    decreases rank[x]
  {
    if x != y {
      var i :| 0 <= i < |ns[x].children| && Reaches(ns, rank, ns[x].children[i], y);
      ReachesRank(ns, rank, ns[x].children[i], y);
    }
  }

  /** No container is its own proper descendant. */
  lemma NotOwnDescendant(ns: seq<Container>, rank: seq<nat>, x: nat)
    requires Ranked(ns, rank) && x < |ns|
    ensures !HasDescendant(ns, rank, x, x)
  {
    if Below(ns, rank, x, x) {
      var i :| 0 <= i < |ns[x].children| && Reaches(ns, rank, ns[x].children[i], x);
      ReachesRank(ns, rank, ns[x].children[i], x);
    }
  }

  /** Reachability is transitive. */
  lemma {:induction false} ReachesTrans(ns: seq<Container>, rank: seq<nat>, x: nat, y: nat, z: nat)
    requires Ranked(ns, rank) && x < |ns| && y < |ns|
    requires Reaches(ns, rank, x, y) && Reaches(ns, rank, y, z)
    ensures Reaches(ns, rank, x, z)
    decreases rank[x]
  {
    if x != y {
      var i :| 0 <= i < |ns[x].children| && Reaches(ns, rank, ns[x].children[i], y);
      ReachesTrans(ns, rank, ns[x].children[i], y, z);
    }
  }

  /** A child of a reachable container is reachable. */
  lemma ReachesChild(ns: seq<Container>, rank: seq<nat>, x: nat, y: nat, i: nat)
    requires Ranked(ns, rank) && x < |ns| && y < |ns| && Reaches(ns, rank, x, y)
    requires i < |ns[y].children|
    ensures Reaches(ns, rank, x, ns[y].children[i])
  {
    var c := ns[y].children[i];
    assert Reaches(ns, rank, c, c);
    assert Reaches(ns, rank, y, c);
    ReachesTrans(ns, rank, x, y, c);
  }

  /** The position of the first occurrence of `v` in `s`. */
  function FirstIndex(s: seq<nat>, v: nat): (k: nat)
    requires v in s
    ensures k < |s| && s[k] == v && v !in s[..k]
  {
    if s[0] == v then 0
    else
      var k := FirstIndex(s[1..], v);
      assert s[..k + 1] == [s[0]] + s[1..][..k];
      k + 1
  }

  /** `list.remove(v)` when `v` is in the list, and no change otherwise (the
      callers test membership first). */
  function RemoveFirst(s: seq<nat>, v: nat): (r: seq<nat>)
    ensures v !in s ==> r == s
    ensures v in s ==> |r| == |s| - 1
    ensures forall y :: y in r ==> y in s
  {
    if v in s then
      var k := FirstIndex(s, v);
      s[..k] + s[k + 1..]
    else s
  }

  /** Removing `v` keeps every other element. */
  lemma RemoveFirstKeeps(s: seq<nat>, v: nat, x: nat)
    requires x in s && x != v
    ensures x in RemoveFirst(s, v)
  {
    if v in s {
      var k := FirstIndex(s, v);
      var i :| 0 <= i < |s| && s[i] == x;
      if i < k {
        assert s[..k][i] == x;
      } else {
        assert s[k + 1..][i - k - 1] == x;
      }
    }
  }

  /** Without duplicates, removing `v` removes every `v` and keeps the list
      free of duplicates. */
  lemma RemoveFirstNoDup(s: seq<nat>, v: nat)
    requires NoDup(s)
    ensures NoDup(RemoveFirst(s, v)) && v !in RemoveFirst(s, v)
  {
    if v in s {
      var k := FirstIndex(s, v);
      var r := s[..k] + s[k + 1..];
      assert RemoveFirst(s, v) == r;
      forall i | 0 <= i < |r| ensures r[i] == s[if i < k then i else i + 1] {
        if i < k {
          assert r[i] == s[..k][i];
        } else {
          assert r[i] == s[k + 1..][i - k];
        }
      }
      forall i, j | 0 <= i < j < |r| ensures r[i] != r[j] {
        var i', j' := if i < k then i else i + 1, if j < k then j else j + 1;
        assert r[i] == s[i'] && r[j] == s[j'] && i' < j';
      }
      forall i | 0 <= i < |r| ensures r[i] != v {
        var i' := if i < k then i else i + 1;
        assert r[i] == s[i'] && i' != k;
      }
    }
  }

  /** `remove_child` (jwz_threading.py:27-31) on the records: when `c` is one
      of `p`'s children it leaves the list and loses its parent; otherwise
      nothing changes. */
  function Detached(ns: seq<Container>, p: nat, c: nat): (r: seq<Container>)
    requires p < |ns| && c < |ns|
    ensures |r| == |ns|
    ensures c !in ns[p].children ==> r == ns
    ensures c in ns[p].children ==> r[c].parent.None? && r[p].children == RemoveFirst(ns[p].children, c)
    ensures forall x :: 0 <= x < |ns| && x != p && x != c ==> r[x] == ns[x]
    ensures forall x :: 0 <= x < |ns| && x != c ==> r[x].parent == ns[x].parent
    ensures forall x :: 0 <= x < |ns| ==> r[x].message == ns[x].message
  {
    if c in ns[p].children then
      var ns1 := ns[p := ns[p].(children := RemoveFirst(ns[p].children, c))];
      ns1[c := ns1[c].(parent := None)]
    else ns
  }

  /** The first step of `add_child` (jwz_threading.py:21-22): `c` is
      removed from its current parent, if it has one. */
  function Orphaned(ns: seq<Container>, c: nat): (r: seq<Container>)
    requires InRange(ns) && c < |ns|
    ensures |r| == |ns|
    ensures forall x :: 0 <= x < |ns| && x != c ==> r[x].parent == ns[x].parent
    ensures forall x :: 0 <= x < |ns| ==> r[x].message == ns[x].message
  {
    if ns[c].parent.Some? then Detached(ns, ns[c].parent.value, c) else ns
  }

  /** The second step of `add_child` (jwz_threading.py:24-25). */
  function Attached(ns: seq<Container>, p: nat, c: nat): (r: seq<Container>)
    requires p < |ns| && c < |ns|
  {
    var ns1 := ns[c := ns[c].(parent := Some(p))];
    ns1[p := ns1[p].(children := ns1[p].children + [c])]
  }

  /** `add_child` (jwz_threading.py:19-25) on the records: `c` is first
      removed from its current parent, then becomes the last child of `p`
      with `p` as its parent. Only `p`, `c` and `c`'s former parent change. */
  function Adopted(ns: seq<Container>, p: nat, c: nat): (r: seq<Container>)
    requires InRange(ns) && p < |ns| && c < |ns|
    ensures |r| == |ns|
    ensures r[c].parent == Some(p)
    ensures r[p].children == (if ns[c].parent == Some(p) then RemoveFirst(ns[p].children, c) else ns[p].children) + [c]
    ensures forall x :: 0 <= x < |ns| ==> r[x].message == ns[x].message
    ensures forall x :: 0 <= x < |ns| && x != c ==> r[x].parent == ns[x].parent
    ensures forall x :: 0 <= x < |ns| && x != p && x != c ==>
      r[x].parent == ns[x].parent &&
      r[x].children == if ns[c].parent == Some(x) then RemoveFirst(ns[x].children, c) else ns[x].children
  {
    Attached(Orphaned(ns, c), p, c)
  }

  /** After `add_child`, every child of a container was its child before,
      except the adopted one. */
  lemma AdoptedChildren(ns: seq<Container>, p: nat, c: nat)
    requires InRange(ns) && p < |ns| && c < |ns|
    ensures forall x, y :: 0 <= x < |ns| && y in Adopted(ns, p, c)[x].children ==>
      y in ns[x].children || (x == p && y == c)
  {
    var r := Adopted(ns, p, c);
    forall x, y | 0 <= x < |ns| && y in r[x].children
      ensures y in ns[x].children || (x == p && y == c)
    {
      if x == c && x != p {
      } else if x != p {
      } else if y != c {
        assert y in (if ns[c].parent == Some(p) then RemoveFirst(ns[p].children, c) else ns[p].children);
      }
    }
  }

  /** `add_child` keeps every link inside the arena. */
  lemma AdoptedInRange(ns: seq<Container>, p: nat, c: nat)
    requires InRange(ns) && p < |ns| && c < |ns|
    ensures InRange(Adopted(ns, p, c))
  {
    var r := Adopted(ns, p, c);
    AdoptedChildren(ns, p, c);
    forall x, i | 0 <= x < |r| && 0 <= i < |r[x].children| ensures r[x].children[i] < |r| {
      assert r[x].children[i] in r[x].children;
    }
  }

  /** The ranks after `c` becomes a child of a container outside its subtree:
      everything outside the subtree of `c` moves up by `rank[c] + 1`. */
  ghost function Bumped(ns: seq<Container>, rank: seq<nat>, c: nat): (rk: seq<nat>)
    requires Ranked(ns, rank) && c < |ns|
    ensures |rk| == |ns|
  {
    seq(|ns|, x requires 0 <= x < |ns| => if Reaches(ns, rank, c, x) then rank[x] else rank[x] + rank[c] + 1)
  }

  /** Linking `c` under `p` keeps the child lists acyclic when `p` is not
      in the subtree of `c`; `AdoptedCycle` gives the converse. */
  lemma AdoptedRanked(ns: seq<Container>, rank: seq<nat>, p: nat, c: nat)
    requires Ranked(ns, rank) && p < |ns| && c < |ns|
    requires !Reaches(ns, rank, c, p)
    ensures Ranked(Adopted(ns, p, c), Bumped(ns, rank, c))
  {
    var r := Adopted(ns, p, c);
    var rk := Bumped(ns, rank, c);
    AdoptedChildren(ns, p, c);
    forall x, i | 0 <= x < |r| && 0 <= i < |r[x].children|
      ensures r[x].children[i] < |r| && rk[r[x].children[i]] < rk[x]
    {
      var y := r[x].children[i];
      assert y in r[x].children;
      if y in ns[x].children {
        var j :| 0 <= j < |ns[x].children| && ns[x].children[j] == y;
        if Reaches(ns, rank, c, x) {
          ReachesChild(ns, rank, c, x, j);
        }
      } else {
        assert Reaches(ns, rank, c, c);
      }
    }
  }

  /** Linking `c` under a container of its own subtree closes a cycle: no
      ranks fit the result. */
  lemma AdoptedCycle(ns: seq<Container>, rank: seq<nat>, p: nat, c: nat, rk: seq<nat>)
    requires Ranked(ns, rank) && p < |ns| && c < |ns|
    requires Reaches(ns, rank, c, p)
    ensures !Ranked(Adopted(ns, p, c), rk)
  {
    var r := Adopted(ns, p, c);
    var k := |r[p].children| - 1;
    assert r[p].children[k] == c;
    if p != c {
      CycleRanks(ns, rank, p, c, c, rk);
    }
  }

  /** Along a path from the subtree of `c` down to `p`, every link survives
      linking `c` under `p`, so ranks that fit the result cannot grow along
      it. */
  lemma {:induction false} CycleRanks(ns: seq<Container>, rank: seq<nat>, p: nat, c: nat, x: nat, rk: seq<nat>)
    requires Ranked(ns, rank) && p < |ns| && c < |ns| && x < |ns| && p != c
    requires Reaches(ns, rank, c, x) && Reaches(ns, rank, x, p)
    ensures Ranked(Adopted(ns, p, c), rk) ==> rk[p] <= rk[x]
    decreases rank[x]
  {
    var r := Adopted(ns, p, c);
    if x != p {
      var i :| 0 <= i < |ns[x].children| && Reaches(ns, rank, ns[x].children[i], p);
      var ch := ns[x].children[i];
      ReachesChild(ns, rank, c, x, i);
      ReachesRank(ns, rank, c, x);
      CycleRanks(ns, rank, p, c, ch, rk);
      assert ch in r[x].children by {
        if x == c {
          AdoptedOwnChildren(ns, rank, p, c);
        } else if ns[c].parent == Some(x) {
          RemoveFirstKeeps(ns[x].children, c, ch);
        }
      }
      if Ranked(r, rk) {
        var j :| 0 <= j < |r[x].children| && r[x].children[j] == ch;
        assert rk[ch] < rk[x];
      }
    }
  }

  /** `add_child` leaves the children of the adopted container as they
      were. */
  lemma AdoptedOwnChildren(ns: seq<Container>, rank: seq<nat>, p: nat, c: nat)
    requires Ranked(ns, rank) && p < |ns| && c < |ns| && p != c
    ensures Adopted(ns, p, c)[c].children == ns[c].children
  {
    assert c !in ns[c].children by {
      forall i | 0 <= i < |ns[c].children| ensures ns[c].children[i] != c {
        assert rank[ns[c].children[i]] < rank[c];
      }
    }
    var o := Orphaned(ns, c);
    assert o[c].children == ns[c].children;
  }

  /** The children of `x` are live, distinct, and each names `x` as its
      parent. */
  ghost predicate LinkedAt(ns: seq<Container>, dead: set<nat>, x: nat)
    requires InRange(ns) && x < |ns|
  {
    && NoDup(ns[x].children)
    && forall i :: 0 <= i < |ns[x].children| ==>
         ns[x].children[i] !in dead && ns[ns[x].children[i]].parent == Some(x)
  }

  /** Parent and children agree at every live container. Discarded
      containers (`dead`) keep whatever stale fields they had. */
  ghost predicate Consistent(ns: seq<Container>, dead: set<nat>)
    requires InRange(ns)
  {
    forall x :: 0 <= x < |ns| && x !in dead ==> LinkedAt(ns, dead, x)
  }

  lemma DetachedConsistent(ns: seq<Container>, dead: set<nat>, p: nat, c: nat)
    requires InRange(ns) && p < |ns| && c < |ns| && Consistent(ns, dead)
    requires p !in dead || ns[c].parent == Some(p)
    ensures InRange(Detached(ns, p, c)) && Consistent(Detached(ns, p, c), dead)
  {
    var r := Detached(ns, p, c);
    DetachedInRange(ns, p, c);
    if c in ns[p].children {
      forall x | 0 <= x < |r| && x !in dead ensures LinkedAt(r, dead, x) {
        if x == p {
          DetachedLinkedParent(ns, dead, p, c);
        } else {
          DetachedLinkedOther(ns, dead, p, c, x);
        }
      }
    }
  }

  lemma DetachedInRange(ns: seq<Container>, p: nat, c: nat)
    requires InRange(ns) && p < |ns| && c < |ns|
    ensures InRange(Detached(ns, p, c))
  {
    var r := Detached(ns, p, c);
    forall x, i | 0 <= x < |r| && 0 <= i < |r[x].children| ensures r[x].children[i] < |r| {
      if x == p && c in ns[p].children {
        assert r[x].children[i] in r[x].children;
      }
    }
  }

  /** After `remove_child(c)` the former parent's list is still consistent. */
  lemma DetachedLinkedParent(ns: seq<Container>, dead: set<nat>, p: nat, c: nat)
    requires InRange(ns) && p < |ns| && c < |ns| && Consistent(ns, dead)
    requires c in ns[p].children && p !in dead
    ensures InRange(Detached(ns, p, c)) && LinkedAt(Detached(ns, p, c), dead, p)
  {
    var r := Detached(ns, p, c);
    assert LinkedAt(ns, dead, p);
    RemoveFirstNoDup(ns[p].children, c);
    forall i | 0 <= i < |r[p].children|
      ensures r[p].children[i] != c && r[p].children[i] !in dead && r[r[p].children[i]].parent == Some(p)
    {
      var y := r[p].children[i];
      assert y in r[p].children;
      assert y in ns[p].children;
    }
  }

  /** ... and so is every other live container's list. */
  lemma DetachedLinkedOther(ns: seq<Container>, dead: set<nat>, p: nat, c: nat, x: nat)
    requires InRange(ns) && p < |ns| && c < |ns| && Consistent(ns, dead)
    requires p !in dead || ns[c].parent == Some(p)
    requires c in ns[p].children && x < |ns| && x !in dead && x != p
    ensures InRange(Detached(ns, p, c)) && LinkedAt(Detached(ns, p, c), dead, x)
  {
    var r := Detached(ns, p, c);
    assert LinkedAt(ns, dead, x);
    forall i | 0 <= i < |r[x].children|
      ensures r[x].children[i] !in dead && r[r[x].children[i]].parent == Some(x)
    {
      if p !in dead {
        var j := FirstIndex(ns[p].children, c);
        assert LinkedAt(ns, dead, p);
      }
    }
  }

  /** Once orphaned, a container is in no live child list. */
  lemma OrphanedConsistent(ns: seq<Container>, dead: set<nat>, c: nat)
    requires InRange(ns) && c < |ns| && Consistent(ns, dead)
    ensures InRange(Orphaned(ns, c)) && Consistent(Orphaned(ns, c), dead)
    ensures forall x :: 0 <= x < |ns| && x !in dead ==> c !in Orphaned(ns, c)[x].children
  {
    var ns1 := Orphaned(ns, c);
    if ns[c].parent.Some? {
      DetachedConsistent(ns, dead, ns[c].parent.value, c);
    }
    forall x | 0 <= x < |ns| && x !in dead ensures c !in ns1[x].children {
      assert LinkedAt(ns1, dead, x);
      if ns[c].parent.Some? && c !in ns[ns[c].parent.value].children {
        assert ns1 == ns;
      } else {
        assert ns1[c].parent.None?;
      }
    }
  }

  /** Attaching a live container that is in no live child list under a
      different live container keeps parents and children in agreement. */
  lemma AttachedConsistent(ns: seq<Container>, dead: set<nat>, p: nat, c: nat)
    requires InRange(ns) && p < |ns| && c < |ns| && Consistent(ns, dead)
    requires p !in dead && c !in dead && p != c
    requires forall x :: 0 <= x < |ns| && x !in dead ==> c !in ns[x].children
    ensures InRange(Attached(ns, p, c)) && Consistent(Attached(ns, p, c), dead)
  {
    var r := Attached(ns, p, c);
    forall x | 0 <= x < |r| && x !in dead ensures LinkedAt(r, dead, x) {
      assert LinkedAt(ns, dead, x);
      if x == p {
        forall i, j | 0 <= i < j < |r[p].children| ensures r[p].children[i] != r[p].children[j] {
          if j == |r[p].children| - 1 {
            assert ns[p].children[i] in ns[p].children;
          }
        }
      } else {
        forall i | 0 <= i < |r[x].children|
          ensures r[x].children[i] !in dead && r[r[x].children[i]].parent == Some(x)
        {
          assert ns[x].children[i] in ns[x].children;
        }
      }
    }
  }

  lemma AdoptedConsistent(ns: seq<Container>, dead: set<nat>, p: nat, c: nat)
    requires InRange(ns) && p < |ns| && c < |ns| && Consistent(ns, dead)
    requires p !in dead && c !in dead && p != c
    ensures InRange(Adopted(ns, p, c)) && Consistent(Adopted(ns, p, c), dead)
  {
    OrphanedConsistent(ns, dead, c);
    AttachedConsistent(Orphaned(ns, c), dead, p, c);
  }

  /** All the `Container` objects of one threading run. */
  class Arena {
    var nodes: seq<Container>
    /** Acyclicity witness: children rank below their parent. */
    ghost var rank: seq<nat>
    /** Containers the pruning phase has discarded; their fields are stale. */
    ghost var dead: set<nat>

    ghost predicate Valid()
      reads this
    {
      // Named, so that a caller holding a valid arena passes it on as one
      // fact rather than re-proving each part.
      var holds := Ranked(nodes, rank) && Consistent(nodes, dead);
      holds
    }

    constructor ()
      ensures Valid() && nodes == [] && dead == {}
    {
      nodes := [];
      rank := [];
      dead := {};
    }

    /** `Container(message)` (jwz_threading.py:14-17): a new container with
        no parent and no children. */
    method NewContainer(m: Option<EmailMessage>) returns (x: nat)
      requires Valid()
      modifies this
      ensures Valid() && dead == old(dead) && rank == old(rank) + [0]
      ensures x == |old(nodes)| && nodes == old(nodes) + [Container(m, None, [])]
    {
      x := |nodes|;
      nodes := nodes + [Container(m, None, [])];
      rank := rank + [0];
      assert forall y :: 0 <= y < x ==> nodes[y] == old(nodes)[y];
      assert forall y :: 0 <= y < x && y !in dead ==> LinkedAt(old(nodes), dead, y);
    }

    /** `container.message = message` (jwz_threading.py:140). */
    method SetMessage(x: nat, m: EmailMessage)
      requires Valid() && x < |nodes|
      modifies this
      ensures Valid() && dead == old(dead) && rank == old(rank)
      ensures nodes == old(nodes)[x := old(nodes)[x].(message := Some(m))]
    {
      nodes := nodes[x := nodes[x].(message := Some(m))];
      assert forall y :: 0 <= y < |nodes| && y !in dead ==> LinkedAt(old(nodes), dead, y);
    }

    /** `remove_child` (jwz_threading.py:27-31). */
    method RemoveChild(p: nat, c: nat)
      requires Valid() && p < |nodes| && c < |nodes|
      requires p !in dead || nodes[c].parent == Some(p)
      modifies this
      ensures Valid() && dead == old(dead) && rank == old(rank)
      ensures nodes == Detached(old(nodes), p, c)
    {
      DetachedConsistent(nodes, dead, p, c);
      if c in nodes[p].children {
        nodes := nodes[p := nodes[p].(children := RemoveFirst(nodes[p].children, c))];
        nodes := nodes[c := nodes[c].(parent := None)];
      }
    }

    /** `add_child` (jwz_threading.py:19-25), for a live container `c` and a
        live container `p` outside the subtree of `c`: afterwards `c` is the
        last child of `p` and names `p` as its parent, and the child lists
        are still acyclic. */
    method AddChild(p: nat, c: nat)
      requires Valid() && p < |nodes| && c < |nodes| && p !in dead && c !in dead
      requires !Reaches(nodes, rank, c, p)
      modifies this
      ensures Valid() && dead == old(dead) && rank == Bumped(old(nodes), old(rank), c)
      ensures nodes == Adopted(old(nodes), p, c)
      ensures nodes[c].parent == Some(p) && nodes[p].children[|nodes[p].children| - 1] == c
    {
      ghost var ns0, rank0 := nodes, rank;
      AdoptedRanked(nodes, rank, p, c);
      AdoptedConsistent(nodes, dead, p, c);
      if nodes[c].parent.Some? {
        RemoveChild(nodes[c].parent.value, c);
      }
      nodes := nodes[c := nodes[c].(parent := Some(p))];
      nodes := nodes[p := nodes[p].(children := nodes[p].children + [c])];
      rank := Bumped(ns0, rank0, c);
    }
  }
}
