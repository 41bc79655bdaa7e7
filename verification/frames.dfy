/** What `add_child` and `Container()` leave alone (jwz_threading.py:14-25):
    the subtrees they do not touch, and the descendant relation outside the
    moved subtree. The grouping phase relies on these to know which roots
    still look as they did when the subject table was built. */
module Frames {
  import opened Wrappers
  import opened Mail
  import opened Containers

  /** Below a live container every container is live and has a parent. */
  lemma {:induction false} ReachedHasParent(ns: seq<Container>, rank: seq<nat>, dead: set<nat>, x: nat, y: nat)
    requires Ranked(ns, rank) && Consistent(ns, dead) && x < |ns| && x !in dead
    ensures Reaches(ns, rank, x, y) && x != y ==> y < |ns| && y !in dead && ns[y].parent.Some?
    decreases rank[x]
  {
    if Reaches(ns, rank, x, y) && x != y {
      var i :| 0 <= i < |ns[x].children| && Reaches(ns, rank, ns[x].children[i], y);
      assert LinkedAt(ns, dead, x);
      ReachedHasParent(ns, rank, dead, ns[x].children[i], y);
    }
  }

  /** A parentless container is in no other live container's subtree. */
  lemma ParentlessUnreached(ns: seq<Container>, rank: seq<nat>, dead: set<nat>, x: nat, y: nat)
    requires Ranked(ns, rank) && Consistent(ns, dead) && x < |ns| && x !in dead
    requires y < |ns| && ns[y].parent.None? && x != y
    ensures !Reaches(ns, rank, x, y)
  {
    ReachedHasParent(ns, rank, dead, x, y);
  }

  /** `add_child` keeps every child of every container except the one it
      moves. */
  lemma AdoptedKeepsChild(ns: seq<Container>, p: nat, c: nat, x: nat, y: nat)
    requires InRange(ns) && p < |ns| && c < |ns| && x < |ns|
    requires y in ns[x].children && y != c
    ensures y in Adopted(ns, p, c)[x].children
  {
    var r := Adopted(ns, p, c);
    if x == p {
      if ns[c].parent == Some(p) {
        RemoveFirstKeeps(ns[p].children, c, y);
      }
      assert r[p].children[..|r[p].children| - 1] == (if ns[c].parent == Some(p) then RemoveFirst(ns[p].children, c) else ns[p].children);
    } else if x == c {
      var o := Orphaned(ns, c);
      assert r[c].children == o[c].children;
      if ns[c].parent.Some? {
        var q := ns[c].parent.value;
        if c in ns[q].children && q == c {
          RemoveFirstKeeps(ns[c].children, c, y);
        }
      }
    } else if ns[c].parent == Some(x) {
      RemoveFirstKeeps(ns[x].children, c, y);
    }
  }

  /** After `add_child(c)` on a container outside the subtree of `c`, `x`
      still reaches `y` unless the path ran through `c` from outside its
      subtree. */
  lemma {:induction false} AdoptedKeepsReach(ns: seq<Container>, rank: seq<nat>, p: nat, c: nat, x: nat, y: nat)
    requires Ranked(ns, rank) && p < |ns| && c < |ns| && x < |ns| && !Reaches(ns, rank, c, p)
    requires Reaches(ns, rank, x, y) && (Reaches(ns, rank, c, x) || !Reaches(ns, rank, c, y))
    ensures Ranked(Adopted(ns, p, c), Bumped(ns, rank, c))
    ensures Reaches(Adopted(ns, p, c), Bumped(ns, rank, c), x, y)
    decreases rank[x]
  {
    AdoptedRanked(ns, rank, p, c);
    var r, rk := Adopted(ns, p, c), Bumped(ns, rank, c);
    if x != y {
      var i :| 0 <= i < |ns[x].children| && Reaches(ns, rank, ns[x].children[i], y);
      var ch := ns[x].children[i];
      if Reaches(ns, rank, c, x) {
        ReachesChild(ns, rank, c, x, i);
        if ch == c {
          ReachesRank(ns, rank, c, x);
          assert false;
        }
      } else if ch == c {
        assert false;
      }
      AdoptedKeepsReach(ns, rank, p, c, ch, y);
      AdoptedKeepsChild(ns, p, c, x, ch);
      var j :| 0 <= j < |r[x].children| && r[x].children[j] == ch;
      assert Reaches(r, rk, r[x].children[j], y);
    }
  }

  /** After `add_child(c)`, the new parent reaches the whole former subtree
      of `c`. */
  lemma AdoptedReachesSubtree(ns: seq<Container>, rank: seq<nat>, p: nat, c: nat, y: nat)
    requires Ranked(ns, rank) && p < |ns| && c < |ns| && !Reaches(ns, rank, c, p)
    requires Reaches(ns, rank, c, y)
    ensures Ranked(Adopted(ns, p, c), Bumped(ns, rank, c))
    ensures Reaches(Adopted(ns, p, c), Bumped(ns, rank, c), p, y)
  {
    var r, rk := Adopted(ns, p, c), Bumped(ns, rank, c);
    AdoptedKeepsReach(ns, rank, p, c, c, y);
    assert r[p].children[|r[p].children| - 1] == c;
    assert Reaches(r, rk, r[p].children[|r[p].children| - 1], y);
  }

  /** A new container leaves the descendant relation among the old ones as
      it was. */
  lemma {:induction false} AppendedKeepsReach(ns: seq<Container>, rank: seq<nat>, m: Option<EmailMessage>, x: nat, y: nat)
    requires Ranked(ns, rank) && x < |ns|
    ensures Ranked(ns + [Container(m, None, [])], rank + [0])
    ensures Reaches(ns + [Container(m, None, [])], rank + [0], x, y) <==> Reaches(ns, rank, x, y)
    decreases rank[x]
  {
    var ns', rank' := ns + [Container(m, None, [])], rank + [0];
    assert forall z :: 0 <= z < |ns| ==> ns'[z] == ns[z] && rank'[z] == rank[z];
    assert Ranked(ns', rank');
    forall i | 0 <= i < |ns[x].children|
      ensures Reaches(ns', rank', ns[x].children[i], y) <==> Reaches(ns, rank, ns[x].children[i], y)
    {
      AppendedKeepsReach(ns, rank, m, ns[x].children[i], y);
    }
  }

  /** Every container of the original subtree of `d` is still exactly as it
      was in `ns0`. */
  ghost predicate Intact(ns0: seq<Container>, rank0: seq<nat>, ns: seq<Container>, d: nat)
    requires Ranked(ns0, rank0) && d < |ns0|
  {
    forall y :: 0 <= y < |ns0| && Reaches(ns0, rank0, d, y) ==> y < |ns| && ns[y] == ns0[y]
  }

  /** An intact subtree has the same descendants as before. */
  lemma {:induction false} IntactReaches(ns0: seq<Container>, rank0: seq<nat>, ns: seq<Container>, rank: seq<nat>, d: nat, y: nat)
    requires Ranked(ns0, rank0) && Ranked(ns, rank) && d < |ns0| && d < |ns| && Intact(ns0, rank0, ns, d)
    ensures Reaches(ns, rank, d, y) <==> Reaches(ns0, rank0, d, y)
    decreases rank0[d]
  {
    assert Reaches(ns0, rank0, d, d);
    forall i | 0 <= i < |ns0[d].children|
      ensures Reaches(ns, rank, ns0[d].children[i], y) <==> Reaches(ns0, rank0, ns0[d].children[i], y)
    {
      var c := ns0[d].children[i];
      forall z | 0 <= z < |ns0| && Reaches(ns0, rank0, c, z) ensures Reaches(ns0, rank0, d, z) {
        ReachesChild(ns0, rank0, d, d, i);
        ReachesTrans(ns0, rank0, d, c, z);
      }
      IntactReaches(ns0, rank0, ns, rank, c, y);
    }
  }

  /** An intact subtree has the same `get_subject` as before. */
  lemma {:induction false} IntactSubject(ns0: seq<Container>, rank0: seq<nat>, ns: seq<Container>, rank: seq<nat>, d: nat)
    requires Ranked(ns0, rank0) && Ranked(ns, rank) && d < |ns0| && d < |ns| && Intact(ns0, rank0, ns, d)
    ensures GetSubject(ns, rank, d) == GetSubject(ns0, rank0, d)
    decreases rank0[d]
  {
    assert Reaches(ns0, rank0, d, d);
    if ns0[d].message.None? && ns0[d].children != [] {
      var c := ns0[d].children[0];
      forall z | 0 <= z < |ns0| && Reaches(ns0, rank0, c, z) ensures Reaches(ns0, rank0, d, z) {
        ReachesChild(ns0, rank0, d, d, 0);
        ReachesTrans(ns0, rank0, d, c, z);
      }
      IntactSubject(ns0, rank0, ns, rank, c);
    }
  }

  /** `add_child(c)` under `p` keeps a subtree intact when it contains
      neither `p`, nor `c`, nor the former parent of `c`. */
  lemma AdoptedKeepsIntact(ns0: seq<Container>, rank0: seq<nat>, ns: seq<Container>, p: nat, c: nat, d: nat)
    requires Ranked(ns0, rank0) && InRange(ns) && d < |ns0| && p < |ns| && c < |ns|
    requires Intact(ns0, rank0, ns, d)
    requires p >= |ns0| || !Reaches(ns0, rank0, d, p)
    requires c >= |ns0| || !Reaches(ns0, rank0, d, c)
    requires ns[c].parent.None? || ns[c].parent.value >= |ns0| || !Reaches(ns0, rank0, d, ns[c].parent.value)
    ensures Intact(ns0, rank0, Adopted(ns, p, c), d)
  {
    var r := Adopted(ns, p, c);
    forall y | 0 <= y < |ns0| && Reaches(ns0, rank0, d, y) ensures y < |r| && r[y] == ns[y] {
      assert r[y].message == ns[y].message;
    }
  }

  /** A new container keeps every subtree intact. */
  lemma AppendedKeepsIntact(ns0: seq<Container>, rank0: seq<nat>, ns: seq<Container>, m: Option<EmailMessage>, d: nat)
    requires Ranked(ns0, rank0) && d < |ns0| && Intact(ns0, rank0, ns, d)
    ensures Intact(ns0, rank0, ns + [Container(m, None, [])], d)
  {
    var ns' := ns + [Container(m, None, [])];
    forall y | 0 <= y < |ns0| && Reaches(ns0, rank0, d, y) ensures y < |ns'| && ns'[y] == ns0[y] {
      assert ns'[y] == ns[y];
    }
  }

  /** A new container leaves a consistent arena consistent. */
  lemma AppendedConsistent(ns: seq<Container>, dead: set<nat>, m: Option<EmailMessage>)
    requires InRange(ns) && Consistent(ns, dead)
    ensures InRange(ns + [Container(m, None, [])]) && Consistent(ns + [Container(m, None, [])], dead)
  {
    var ns' := ns + [Container(m, None, [])];
    assert forall y :: 0 <= y < |ns| ==> ns'[y] == ns[y];
    forall y | 0 <= y < |ns'| && y !in dead ensures LinkedAt(ns', dead, y) {
      if y < |ns| {
        assert LinkedAt(ns, dead, y);
      }
    }
  }
}
