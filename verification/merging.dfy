/** `group_by_subject` and `merge_subject_containers`
    (jwz_threading.py:174-245): the roots are walked in order, and each one
    whose key has a different representative in the subject table is
    merged with that representative, under it, over it, or beside it under
    a new dummy container.

    The invariant of the walk is `GroupState`. Roots not handled yet (and
    the dropped replies described below) are still exactly as they were
    when the subject table was built, so their keys are the table's keys.
    Every handled root is in the subtree of an entry of the grouped list,
    or is a dropped reply: a reply whose representative was handled
    before, is no longer an entry of the grouped list and is not moved
    under a new dummy (jwz_threading.py:219-221). Such a reply is linked
    nowhere and is absent from the grouped list and every subtree below
    it. `DropRule` says which roots can be dropped at all: never one with
    an empty key, one that represents itself, or the first with its key. */
module Merging {
  import opened Wrappers
  import opened Mail
  import opened Text
  import opened Subjects
  import opened Containers
  import opened Pruning
  import opened Frames
  import opened Grouping

  /** The root set handed to grouping: distinct, live, parentless
      containers of a consistent, acyclic arena whose discarded containers
      all lie inside it. */
  ghost predicate RootSet(ns0: seq<Container>, rank0: seq<nat>, dead: set<nat>, roots: seq<nat>) {
    && Ranked(ns0, rank0) && Consistent(ns0, dead) && Within(roots, |ns0|) && NoDup(roots)
    && (forall i :: 0 <= i < |roots| ==> roots[i] !in dead && ns0[roots[i]].parent.None?)
    && (forall y :: y in dead ==> y < |ns0|)
  }

  /** Grouping only adds dummy containers and changes no message. */
  ghost predicate Grown(ns0: seq<Container>, ns: seq<Container>) {
    && |ns0| <= |ns|
    && (forall y :: 0 <= y < |ns0| ==> ns[y].message == ns0[y].message)
    && (forall y :: |ns0| <= y < |ns| ==> ns[y].message.None?)
  }

  /** The grouped list: distinct, live, parentless containers, each a root
      or a new dummy. */
  ghost predicate GroupedWell(ns: seq<Container>, dead: set<nat>, roots: seq<nat>, n0: nat, grouped: seq<nat>) {
    && Within(grouped, |ns|) && NoDup(grouped)
    && forall k :: 0 <= k < |grouped| ==>
         grouped[k] !in dead && ns[grouped[k]].parent.None? && (grouped[k] in roots || grouped[k] >= n0)
  }

  /** Roots not handled yet, and dropped replies, are intact and not in the
      grouped list. */
  ghost predicate Waiting(ns0: seq<Container>, rank0: seq<nat>, roots: seq<nat>, ns: seq<Container>,
                          grouped: seq<nat>, processed: set<nat>, dropped: set<nat>)
    requires Ranked(ns0, rank0)
  {
    forall x :: x in roots && x < |ns0| && (x !in processed || x in dropped) ==>
      Intact(ns0, rank0, ns, x) && x !in grouped
  }

  /** Dropped containers are handled roots whose subject is a reply. */
  ghost predicate DroppedReplies(ns0: seq<Container>, rank0: seq<nat>, roots: seq<nat>, processed: set<nat>, dropped: set<nat>)
    requires Ranked(ns0, rank0) && Within(roots, |ns0|)
  {
    forall d :: d in dropped ==> d in processed && d in roots && d < |ns0| && IsReply(ns0, rank0, d)
  }

  /** Every handled root is a dropped reply or lies below an entry of the
      grouped list. */
  ghost predicate Covered(ns: seq<Container>, rank: seq<nat>, roots: seq<nat>, grouped: seq<nat>,
                          processed: set<nat>, dropped: set<nat>)
    requires Ranked(ns, rank) && Within(grouped, |ns|)
  {
    && (forall x :: x in processed ==> x in roots)
    && forall i :: 0 <= i < |roots| && roots[i] in processed ==>
         roots[i] in dropped || BelowSome(ns, rank, grouped, roots[i])
  }

  /** A root that has a parent got it from a new dummy or from a handled
      root that was not dropped. */
  ghost predicate RootParents(ns: seq<Container>, roots: seq<nat>, n0: nat, processed: set<nat>, dropped: set<nat>)
    requires Within(roots, |ns|)
  {
    forall i :: 0 <= i < |roots| && ns[roots[i]].parent.Some? ==>
      ns[roots[i]].parent.value >= n0 ||
      (ns[roots[i]].parent.value in roots && ns[roots[i]].parent.value in processed && ns[roots[i]].parent.value !in dropped)
  }

  /** The invariant of the grouping walk, over the arena `ns0` it started
      from and the current arena `ns`. */
  ghost predicate GroupState(ns0: seq<Container>, rank0: seq<nat>, dead: set<nat>, roots: seq<nat>,
                             ns: seq<Container>, rank: seq<nat>, grouped: seq<nat>, processed: set<nat>, dropped: set<nat>)
  {
    // Named, so that a caller holding this state passes it on as one fact
    // rather than re-proving each part.
    var holds :=
      && RootSet(ns0, rank0, dead, roots)
      && Ranked(ns, rank) && Consistent(ns, dead) && Grown(ns0, ns)
      && GroupedWell(ns, dead, roots, |ns0|, grouped)
      && Waiting(ns0, rank0, roots, ns, grouped, processed, dropped)
      && DroppedReplies(ns0, rank0, roots, processed, dropped)
      && Covered(ns, rank, roots, grouped, processed, dropped)
      && RootParents(ns, roots, |ns0|, processed, dropped);
    holds
  }

  /** The grouping invariant from its parts. */
  lemma GroupStateIntro(ns0: seq<Container>, rank0: seq<nat>, dead: set<nat>, roots: seq<nat>,
                        ns: seq<Container>, rank: seq<nat>, grouped: seq<nat>, processed: set<nat>, dropped: set<nat>)
    requires RootSet(ns0, rank0, dead, roots)
    requires Ranked(ns, rank) && Consistent(ns, dead) && Grown(ns0, ns)
    requires GroupedWell(ns, dead, roots, |ns0|, grouped)
    requires Waiting(ns0, rank0, roots, ns, grouped, processed, dropped)
    requires DroppedReplies(ns0, rank0, roots, processed, dropped)
    requires Covered(ns, rank, roots, grouped, processed, dropped)
    requires RootParents(ns, roots, |ns0|, processed, dropped)
    ensures GroupState(ns0, rank0, dead, roots, ns, rank, grouped, processed, dropped)
  {
  }

  /** Two distinct roots lie outside each other's subtrees. */
  lemma RootUnreached(ns0: seq<Container>, rank0: seq<nat>, dead: set<nat>, roots: seq<nat>, d: nat, x: nat)
    requires RootSet(ns0, rank0, dead, roots) && d in roots && x in roots && d != x
    ensures d < |ns0| && x < |ns0| && !Reaches(ns0, rank0, d, x)
  {
    var i :| 0 <= i < |roots| && roots[i] == d;
    var j :| 0 <= j < |roots| && roots[j] == x;
    ParentlessUnreached(ns0, rank0, dead, d, x);
  }

  /** A root not handled yet (or a dropped reply) is still parentless and
      has its old subject and its old subtree. */
  lemma WaitingRoot(ns0: seq<Container>, rank0: seq<nat>, dead: set<nat>, roots: seq<nat>,
                    ns: seq<Container>, rank: seq<nat>, grouped: seq<nat>, processed: set<nat>, dropped: set<nat>, x: nat)
    requires GroupState(ns0, rank0, dead, roots, ns, rank, grouped, processed, dropped)
    requires x in roots && (x !in processed || x in dropped)
    ensures x < |ns0| && x < |ns| && x !in dead && x !in grouped && ns[x] == ns0[x] && ns[x].parent.None?
    ensures Intact(ns0, rank0, ns, x)
    ensures GetSubject(ns, rank, x) == GetSubject(ns0, rank0, x)
    ensures forall y :: Reaches(ns, rank, x, y) <==> Reaches(ns0, rank0, x, y)
  {
    var i :| 0 <= i < |roots| && roots[i] == x;
    assert Reaches(ns0, rank0, x, x);
    IntactSubject(ns0, rank0, ns, rank, x);
    forall y ensures Reaches(ns, rank, x, y) <==> Reaches(ns0, rank0, x, y) {
      IntactReaches(ns0, rank0, ns, rank, x, y);
    }
  }

  /** A root not handled yet still has the key it had when the subject
      table was built. */
  lemma WaitingKey(ns0: seq<Container>, rank0: seq<nat>, dead: set<nat>, roots: seq<nat>,
                   ns: seq<Container>, rank: seq<nat>, grouped: seq<nat>, processed: set<nat>, dropped: set<nat>,
                   i: nat, key: string)
    requires GroupState(ns0, rank0, dead, roots, ns, rank, grouped, processed, dropped)
    requires i < |roots| && roots[i] !in processed
    requires Ranked(ns0, rank0) && roots[i] < |ns0| && key == Key(ns0, rank0, roots[i])
    ensures roots[i] < |ns| && Key(ns, rank, roots[i]) == key
  {
    WaitingRoot(ns0, rank0, dead, roots, ns, rank, grouped, processed, dropped, roots[i]);
  }

  /** A root still waiting reaches no other root. */
  lemma WaitingMissesRoot(ns0: seq<Container>, rank0: seq<nat>, dead: set<nat>, roots: seq<nat>,
                          ns: seq<Container>, rank: seq<nat>, grouped: seq<nat>, processed: set<nat>, dropped: set<nat>, x: nat, y: nat)
    requires GroupState(ns0, rank0, dead, roots, ns, rank, grouped, processed, dropped)
    requires x in roots && (x !in processed || x in dropped) && y in roots && x != y
    ensures x < |ns| && !Reaches(ns, rank, x, y)
  {
    WaitingRoot(ns0, rank0, dead, roots, ns, rank, grouped, processed, dropped, x);
    RootUnreached(ns0, rank0, dead, roots, x, y);
  }

  /** Handling a root whose key is empty or which represents itself: it is
      appended to the grouped list as it is (jwz_threading.py:184-196). */
  lemma PassKeeps(ns0: seq<Container>, rank0: seq<nat>, dead: set<nat>, roots: seq<nat>,
                  ns: seq<Container>, rank: seq<nat>, grouped: seq<nat>, processed: set<nat>, dropped: set<nat>, c: nat)
    requires GroupState(ns0, rank0, dead, roots, ns, rank, grouped, processed, dropped)
    requires c in roots && c !in processed
    ensures GroupState(ns0, rank0, dead, roots, ns, rank, grouped + [c], processed + {c}, dropped)
  {
    WaitingRoot(ns0, rank0, dead, roots, ns, rank, grouped, processed, dropped, c);
    var g := grouped + [c];
    assert g[|grouped|] == c;
    assert forall k :: 0 <= k < |grouped| ==> g[k] == grouped[k];
    assert GroupedWell(ns, dead, roots, |ns0|, g);
    assert c !in dropped;
    assert Waiting(ns0, rank0, roots, ns, g, processed + {c}, dropped);
    assert Covered(ns, rank, roots, g, processed + {c}, dropped) by {
      forall i | 0 <= i < |roots| && roots[i] in processed + {c} && roots[i] !in dropped
        ensures BelowSome(ns, rank, g, roots[i])
      {
        if roots[i] == c {
          assert Reaches(ns, rank, g[|grouped|], c);
        } else {
          var k :| 0 <= k < |grouped| && Reaches(ns, rank, grouped[k], roots[i]);
          assert Reaches(ns, rank, g[k], roots[i]);
        }
      }
    }
    GroupStateIntro(ns0, rank0, dead, roots, ns, rank, g, processed + {c}, dropped);
  }

  /** Handling a reply whose representative was handled and has left the
      grouped list: nothing is linked, and the reply is dropped
      (jwz_threading.py:219-221). */
  lemma DropKeeps(ns0: seq<Container>, rank0: seq<nat>, dead: set<nat>, roots: seq<nat>,
                  ns: seq<Container>, rank: seq<nat>, grouped: seq<nat>, processed: set<nat>, dropped: set<nat>, c: nat)
    requires GroupState(ns0, rank0, dead, roots, ns, rank, grouped, processed, dropped)
    requires c in roots && c !in processed && c < |ns| && IsReply(ns, rank, c)
    ensures GroupState(ns0, rank0, dead, roots, ns, rank, grouped, processed + {c}, dropped + {c})
  {
    WaitingRoot(ns0, rank0, dead, roots, ns, rank, grouped, processed, dropped, c);
  }

  /** Handling two roots of which one becomes the last child of the other,
      which joins the grouped list (jwz_threading.py:226-240). */
  lemma AdoptKeeps(ns0: seq<Container>, rank0: seq<nat>, dead: set<nat>, roots: seq<nat>,
                   ns: seq<Container>, rank: seq<nat>, grouped: seq<nat>, processed: set<nat>, dropped: set<nat>, p: nat, x: nat)
    requires GroupState(ns0, rank0, dead, roots, ns, rank, grouped, processed, dropped)
    requires p in roots && x in roots && p != x && p !in processed && x !in processed
    ensures p < |ns| && x < |ns| && p !in dead && x !in dead && !Reaches(ns, rank, x, p)
    ensures GroupState(ns0, rank0, dead, roots, Adopted(ns, p, x), Bumped(ns, rank, x), grouped + [p], processed + {p, x}, dropped)
  {
    WaitingRoot(ns0, rank0, dead, roots, ns, rank, grouped, processed, dropped, p);
    WaitingRoot(ns0, rank0, dead, roots, ns, rank, grouped, processed, dropped, x);
    WaitingMissesRoot(ns0, rank0, dead, roots, ns, rank, grouped, processed, dropped, x, p);
    AdoptedRanked(ns, rank, p, x);
    AdoptedConsistent(ns, dead, p, x);
    AdoptKeepsShape(ns0, rank0, dead, roots, ns, rank, grouped, processed, dropped, p, x);
    AdoptKeepsWaiting(ns0, rank0, dead, roots, ns, rank, grouped, processed, dropped, p, x);
    AdoptKeepsCovered(ns0, rank0, dead, roots, ns, rank, grouped, processed, dropped, p, x);
    GroupStateIntro(ns0, rank0, dead, roots, Adopted(ns, p, x), Bumped(ns, rank, x), grouped + [p], processed + {p, x}, dropped);
  }

  lemma AdoptKeepsShape(ns0: seq<Container>, rank0: seq<nat>, dead: set<nat>, roots: seq<nat>,
                        ns: seq<Container>, rank: seq<nat>, grouped: seq<nat>, processed: set<nat>, dropped: set<nat>, p: nat, x: nat)
    requires GroupState(ns0, rank0, dead, roots, ns, rank, grouped, processed, dropped)
    requires p in roots && x in roots && p != x && p !in processed && x !in processed
    requires p < |ns| && x < |ns| && ns[p].parent.None? && p !in grouped && x !in grouped && p !in dead
    ensures Grown(ns0, Adopted(ns, p, x))
    ensures GroupedWell(Adopted(ns, p, x), dead, roots, |ns0|, grouped + [p])
    ensures RootParents(Adopted(ns, p, x), roots, |ns0|, processed + {p, x}, dropped)
  {
    var r := Adopted(ns, p, x);
    var g := grouped + [p];
    assert g[|grouped|] == p;
    forall k | 0 <= k < |grouped| ensures g[k] == grouped[k] && grouped[k] != x {}
  }

  lemma AdoptKeepsWaiting(ns0: seq<Container>, rank0: seq<nat>, dead: set<nat>, roots: seq<nat>,
                          ns: seq<Container>, rank: seq<nat>, grouped: seq<nat>, processed: set<nat>, dropped: set<nat>, p: nat, x: nat)
    requires GroupState(ns0, rank0, dead, roots, ns, rank, grouped, processed, dropped)
    requires p in roots && x in roots && p != x && p !in processed && x !in processed
    requires x < |ns| && ns[x].parent.None?
    ensures Waiting(ns0, rank0, roots, Adopted(ns, p, x), grouped + [p], processed + {p, x}, dropped)
  {
    var r := Adopted(ns, p, x);
    forall d | d in roots && d < |ns0| && (d !in processed + {p, x} || d in dropped) ensures Intact(ns0, rank0, r, d) {
      RootUnreached(ns0, rank0, dead, roots, d, p);
      RootUnreached(ns0, rank0, dead, roots, d, x);
      AdoptedKeepsIntact(ns0, rank0, ns, p, x, d);
    }
  }

  lemma AdoptKeepsCovered(ns0: seq<Container>, rank0: seq<nat>, dead: set<nat>, roots: seq<nat>,
                          ns: seq<Container>, rank: seq<nat>, grouped: seq<nat>, processed: set<nat>, dropped: set<nat>, p: nat, x: nat)
    requires GroupState(ns0, rank0, dead, roots, ns, rank, grouped, processed, dropped)
    requires p in roots && x in roots && p != x && p !in processed && x !in processed
    requires p < |ns| && x < |ns| && !Reaches(ns, rank, x, p)
    ensures Ranked(Adopted(ns, p, x), Bumped(ns, rank, x)) && Within(grouped + [p], |ns|)
    ensures Covered(Adopted(ns, p, x), Bumped(ns, rank, x), roots, grouped + [p], processed + {p, x}, dropped)
  {
    AdoptedRanked(ns, rank, p, x);
    var r, rk := Adopted(ns, p, x), Bumped(ns, rank, x);
    var g := grouped + [p];
    assert g[|grouped|] == p;
    forall i | 0 <= i < |roots| && roots[i] in processed + {p, x} && roots[i] !in dropped
      ensures BelowSome(r, rk, g, roots[i])
    {
      var y := roots[i];
      if y == p {
        assert Reaches(r, rk, g[|grouped|], y);
      } else if y == x {
        AdoptedReachesSubtree(ns, rank, p, x, x);
        assert Reaches(r, rk, g[|grouped|], y);
      } else {
        var k :| 0 <= k < |grouped| && Reaches(ns, rank, grouped[k], y);
        WaitingMissesRoot(ns0, rank0, dead, roots, ns, rank, grouped, processed, dropped, x, y);
        AdoptedKeepsReach(ns, rank, p, x, grouped[k], y);
        assert g[k] == grouped[k];
        assert Reaches(r, rk, g[k], y);
      }
    }
  }

  /** Handling a reply whose representative was handled and is still an
      entry of the grouped list: the reply becomes its last child
      (jwz_threading.py:218-221). */
  lemma ReplyKeeps(ns0: seq<Container>, rank0: seq<nat>, dead: set<nat>, roots: seq<nat>,
                   ns: seq<Container>, rank: seq<nat>, grouped: seq<nat>, processed: set<nat>, dropped: set<nat>, tc: nat, c: nat)
    requires GroupState(ns0, rank0, dead, roots, ns, rank, grouped, processed, dropped)
    requires tc in roots && tc in grouped && c in roots && c !in processed
    ensures tc < |ns| && c < |ns| && tc !in dead && c !in dead && !Reaches(ns, rank, c, tc)
    ensures GroupState(ns0, rank0, dead, roots, Adopted(ns, tc, c), Bumped(ns, rank, c), grouped, processed + {c}, dropped)
  {
    WaitingRoot(ns0, rank0, dead, roots, ns, rank, grouped, processed, dropped, c);
    var k :| 0 <= k < |grouped| && grouped[k] == tc;
    var j :| 0 <= j < |roots| && roots[j] == tc;
    ParentlessUnreached(ns, rank, dead, c, tc);
    AdoptedRanked(ns, rank, tc, c);
    AdoptedConsistent(ns, dead, tc, c);
    ReplyKeepsShape(ns0, rank0, dead, roots, ns, rank, grouped, processed, dropped, tc, c);
    ReplyKeepsWaiting(ns0, rank0, dead, roots, ns, rank, grouped, processed, dropped, tc, c);
    ReplyKeepsCovered(ns0, rank0, dead, roots, ns, rank, grouped, processed, dropped, tc, c, k);
    GroupStateIntro(ns0, rank0, dead, roots, Adopted(ns, tc, c), Bumped(ns, rank, c), grouped, processed + {c}, dropped);
  }

  lemma ReplyKeepsShape(ns0: seq<Container>, rank0: seq<nat>, dead: set<nat>, roots: seq<nat>,
                        ns: seq<Container>, rank: seq<nat>, grouped: seq<nat>, processed: set<nat>, dropped: set<nat>, tc: nat, c: nat)
    requires GroupState(ns0, rank0, dead, roots, ns, rank, grouped, processed, dropped)
    requires tc in roots && tc in grouped && c in roots && c !in processed
    requires tc < |ns| && c < |ns| && c !in grouped
    ensures Grown(ns0, Adopted(ns, tc, c))
    ensures GroupedWell(Adopted(ns, tc, c), dead, roots, |ns0|, grouped)
    ensures DroppedReplies(ns0, rank0, roots, processed + {c}, dropped)
    ensures RootParents(Adopted(ns, tc, c), roots, |ns0|, processed + {c}, dropped)
  {
    var k :| 0 <= k < |grouped| && grouped[k] == tc;
    assert tc !in dropped;
  }

  lemma ReplyKeepsWaiting(ns0: seq<Container>, rank0: seq<nat>, dead: set<nat>, roots: seq<nat>,
                          ns: seq<Container>, rank: seq<nat>, grouped: seq<nat>, processed: set<nat>, dropped: set<nat>, tc: nat, c: nat)
    requires GroupState(ns0, rank0, dead, roots, ns, rank, grouped, processed, dropped)
    requires tc in roots && tc in grouped && c in roots && c !in processed
    requires tc < |ns| && c < |ns| && ns[c].parent.None?
    ensures Waiting(ns0, rank0, roots, Adopted(ns, tc, c), grouped, processed + {c}, dropped)
  {
    forall d | d in roots && d < |ns0| && (d !in processed + {c} || d in dropped) ensures Intact(ns0, rank0, Adopted(ns, tc, c), d) {
      RootUnreached(ns0, rank0, dead, roots, d, tc);
      RootUnreached(ns0, rank0, dead, roots, d, c);
      AdoptedKeepsIntact(ns0, rank0, ns, tc, c, d);
    }
  }

  lemma ReplyKeepsCovered(ns0: seq<Container>, rank0: seq<nat>, dead: set<nat>, roots: seq<nat>,
                          ns: seq<Container>, rank: seq<nat>, grouped: seq<nat>, processed: set<nat>, dropped: set<nat>, tc: nat, c: nat, k: nat)
    requires GroupState(ns0, rank0, dead, roots, ns, rank, grouped, processed, dropped)
    requires c in roots && c !in processed && k < |grouped| && grouped[k] == tc
    requires tc < |ns| && c < |ns| && !Reaches(ns, rank, c, tc)
    ensures Ranked(Adopted(ns, tc, c), Bumped(ns, rank, c))
    ensures Covered(Adopted(ns, tc, c), Bumped(ns, rank, c), roots, grouped, processed + {c}, dropped)
  {
    AdoptedRanked(ns, rank, tc, c);
    var r, rk := Adopted(ns, tc, c), Bumped(ns, rank, c);
    forall i | 0 <= i < |roots| && roots[i] in processed + {c} && roots[i] !in dropped
      ensures BelowSome(r, rk, grouped, roots[i])
    {
      var y := roots[i];
      if y == c {
        AdoptedReachesSubtree(ns, rank, tc, c, c);
        assert Reaches(r, rk, grouped[k], y);
      } else {
        var m :| 0 <= m < |grouped| && Reaches(ns, rank, grouped[m], y);
        WaitingMissesRoot(ns0, rank0, dead, roots, ns, rank, grouped, processed, dropped, c, y);
        AdoptedKeepsReach(ns, rank, tc, c, grouped[m], y);
      }
    }
  }

  /** The grouped list after `dummy` takes the place of `tc`, or is
      appended when `tc` is not there (jwz_threading.py:210-214). */
  function Replaced(grouped: seq<nat>, tc: nat, dummy: nat): (g: seq<nat>)
    ensures tc in grouped ==> |g| == |grouped| && g[FirstIndex(grouped, tc)] == dummy
    ensures tc !in grouped ==> |g| == |grouped| + 1 && g[|grouped|] == dummy
    ensures forall k :: 0 <= k < |grouped| && grouped[k] != tc ==> g[k] == grouped[k]
  {
    if tc in grouped then grouped[FirstIndex(grouped, tc) := dummy] else grouped + [dummy]
  }

  /** Replacing or appending keeps every other entry, adds only `dummy`,
      and keeps the list free of duplicates. */
  lemma ReplacedEntries(grouped: seq<nat>, tc: nat, dummy: nat)
    requires NoDup(grouped) && dummy !in grouped
    ensures NoDup(Replaced(grouped, tc, dummy)) && dummy in Replaced(grouped, tc, dummy)
    ensures forall y :: y in Replaced(grouped, tc, dummy) ==> y == dummy || (y in grouped && y != tc)
  {
    var g := Replaced(grouped, tc, dummy);
    if tc in grouped {
      var f := FirstIndex(grouped, tc);
      forall y | y in g ensures y == dummy || (y in grouped && y != tc) {
        var k :| 0 <= k < |g| && g[k] == y;
        if k != f {
          assert grouped[k] != tc;
        }
      }
    }
  }

  /** Handling two roots that become siblings under a new dummy container,
      which takes the place of `tc` in the grouped list or is appended to
      it (jwz_threading.py:206-214 and 241-245). The three arenas are the
      ones after `Container()` and after each `add_child`. */
  lemma SiblingKeeps(ns0: seq<Container>, rank0: seq<nat>, dead: set<nat>, roots: seq<nat>,
                     ns: seq<Container>, rank: seq<nat>, grouped: seq<nat>, processed: set<nat>, dropped: set<nat>, tc: nat, c: nat,
                     ns1: seq<Container>, rank1: seq<nat>, ns2: seq<Container>, rank2: seq<nat>, ns3: seq<Container>, rank3: seq<nat>)
    requires GroupState(ns0, rank0, dead, roots, ns, rank, grouped, processed, dropped)
    requires tc in roots && c in roots && tc != c && c !in processed && tc < |ns| && c < |ns|
    requires ns1 == ns + [Container(None, None, [])] && rank1 == rank + [0] && Ranked(ns1, rank1) && !Reaches(ns1, rank1, tc, |ns|)
    requires ns2 == Adopted(ns1, |ns|, tc) && rank2 == Bumped(ns1, rank1, tc) && Ranked(ns2, rank2) && !Reaches(ns2, rank2, c, |ns|)
    requires ns3 == Adopted(ns2, |ns|, c) && rank3 == Bumped(ns2, rank2, c) && Ranked(ns3, rank3) && Consistent(ns3, dead)
    ensures GroupState(ns0, rank0, dead, roots, ns3, rank3, Replaced(grouped, tc, |ns|), processed + {tc, c}, dropped - {tc})
  {
    WaitingRoot(ns0, rank0, dead, roots, ns, rank, grouped, processed, dropped, c);
    ReplacedEntries(grouped, tc, |ns|);
    SiblingFrame(ns, tc, c, ns1, ns2, ns3);
    SiblingGrown(ns0, ns, ns3);
    SiblingGrouped(ns0, dead, roots, ns, grouped, tc, c, ns3);
    SiblingParents(ns0, roots, ns, processed, dropped, tc, c, ns3);
    SiblingWaiting(ns0, rank0, dead, roots, ns, rank, grouped, processed, dropped, tc, c, ns1, ns2, ns3);
    SiblingCovered(ns0, rank0, dead, roots, ns, rank, grouped, processed, dropped, tc, c, ns1, rank1, ns2, rank2, ns3, rank3);
    GroupStateIntro(ns0, rank0, dead, roots, ns3, rank3, Replaced(grouped, tc, |ns|), processed + {tc, c}, dropped - {tc});
  }

  lemma SiblingGrown(ns0: seq<Container>, ns: seq<Container>, ns3: seq<Container>)
    requires Grown(ns0, ns) && |ns3| == |ns| + 1
    requires forall y :: 0 <= y < |ns3| ==> ns3[y].message == (if y < |ns| then ns[y].message else None)
    ensures Grown(ns0, ns3)
  {
  }

  /** What the new dummy and the two `add_child` calls change. */
  lemma SiblingFrame(ns: seq<Container>, tc: nat, c: nat, ns1: seq<Container>, ns2: seq<Container>, ns3: seq<Container>)
    requires tc < |ns| && c < |ns| && tc != c
    requires ns1 == ns + [Container(None, None, [])] && InRange(ns1)
    requires ns2 == Adopted(ns1, |ns|, tc) && InRange(ns2)
    requires ns3 == Adopted(ns2, |ns|, c)
    ensures |ns3| == |ns| + 1
    ensures forall y :: 0 <= y < |ns3| ==> ns3[y].message == (if y < |ns| then ns[y].message else None)
    ensures forall y :: 0 <= y < |ns3| && y != tc && y != c ==> ns3[y].parent == (if y < |ns| then ns[y].parent else None)
    ensures ns3[tc].parent == Some(|ns|) && ns3[c].parent == Some(|ns|)
  {
    forall y | 0 <= y < |ns3| ensures ns3[y].message == (if y < |ns| then ns[y].message else None) {
      assert ns3[y].message == ns2[y].message == ns1[y].message;
    }
    forall y | 0 <= y < |ns3| && y != tc && y != c ensures ns3[y].parent == (if y < |ns| then ns[y].parent else None) {
      assert ns3[y].parent == ns2[y].parent == ns1[y].parent;
    }
    assert ns3[tc].parent == ns2[tc].parent;
  }

  lemma SiblingGrouped(ns0: seq<Container>, dead: set<nat>, roots: seq<nat>, ns: seq<Container>, grouped: seq<nat>, tc: nat, c: nat, ns3: seq<Container>)
    requires GroupedWell(ns, dead, roots, |ns0|, grouped) && |ns0| <= |ns| && |ns3| == |ns| + 1 && tc < |ns| && c < |ns|
    requires forall y :: y in dead ==> y < |ns0|
    requires c !in grouped && NoDup(Replaced(grouped, tc, |ns|))
    requires forall y :: y in Replaced(grouped, tc, |ns|) ==> y == |ns| || (y in grouped && y != tc)
    requires forall y :: 0 <= y < |ns3| && y != tc && y != c ==> ns3[y].parent == (if y < |ns| then ns[y].parent else None)
    ensures GroupedWell(ns3, dead, roots, |ns0|, Replaced(grouped, tc, |ns|))
  {
    var g := Replaced(grouped, tc, |ns|);
    forall k | 0 <= k < |g| ensures g[k] < |ns3| && g[k] !in dead && ns3[g[k]].parent.None? && (g[k] in roots || g[k] >= |ns0|) {
      assert g[k] in g;
      if g[k] != |ns| {
        var m :| 0 <= m < |grouped| && grouped[m] == g[k];
      }
    }
  }

  lemma SiblingParents(ns0: seq<Container>, roots: seq<nat>, ns: seq<Container>, processed: set<nat>, dropped: set<nat>,
                       tc: nat, c: nat, ns3: seq<Container>)
    requires Within(roots, |ns0|) && |ns0| <= |ns| && |ns3| == |ns| + 1 && tc < |ns| && c < |ns|
    requires RootParents(ns, roots, |ns0|, processed, dropped)
    requires forall y :: 0 <= y < |ns3| && y != tc && y != c ==> ns3[y].parent == (if y < |ns| then ns[y].parent else None)
    requires ns3[tc].parent == Some(|ns|) && ns3[c].parent == Some(|ns|)
    ensures RootParents(ns3, roots, |ns0|, processed + {tc, c}, dropped - {tc})
  {
  }

  lemma SiblingWaiting(ns0: seq<Container>, rank0: seq<nat>, dead: set<nat>, roots: seq<nat>,
                       ns: seq<Container>, rank: seq<nat>, grouped: seq<nat>, processed: set<nat>, dropped: set<nat>, tc: nat, c: nat,
                       ns1: seq<Container>, ns2: seq<Container>, ns3: seq<Container>)
    requires GroupState(ns0, rank0, dead, roots, ns, rank, grouped, processed, dropped)
    requires tc in roots && c in roots && tc != c && c !in processed && tc < |ns| && c < |ns| && ns[c].parent.None?
    requires ns1 == ns + [Container(None, None, [])] && InRange(ns1)
    requires ns2 == Adopted(ns1, |ns|, tc) && InRange(ns2)
    requires ns3 == Adopted(ns2, |ns|, c)
    requires forall y :: y in Replaced(grouped, tc, |ns|) ==> y == |ns| || (y in grouped && y != tc)
    ensures Waiting(ns0, rank0, roots, ns3, Replaced(grouped, tc, |ns|), processed + {tc, c}, dropped - {tc})
    ensures Intact(ns0, rank0, ns2, c)
  {
    forall d | d in roots && d < |ns0| && (d !in processed + {tc, c} || d in dropped - {tc} || d == c)
      ensures Intact(ns0, rank0, ns2, d)
    {
      AppendedKeepsIntact(ns0, rank0, ns, None, d);
      RootUnreached(ns0, rank0, dead, roots, d, tc);
      if ns[tc].parent.Some? && ns[tc].parent.value < |ns0| {
        var j :| 0 <= j < |roots| && roots[j] == tc;
        RootUnreached(ns0, rank0, dead, roots, d, ns[tc].parent.value);
      }
      AdoptedKeepsIntact(ns0, rank0, ns1, |ns|, tc, d);
    }
    forall d | d in roots && d < |ns0| && (d !in processed + {tc, c} || d in dropped - {tc})
      ensures Intact(ns0, rank0, ns3, d)
    {
      RootUnreached(ns0, rank0, dead, roots, d, c);
      AdoptedKeepsIntact(ns0, rank0, ns2, |ns|, c, d);
    }
  }

  lemma SiblingCovered(ns0: seq<Container>, rank0: seq<nat>, dead: set<nat>, roots: seq<nat>,
                       ns: seq<Container>, rank: seq<nat>, grouped: seq<nat>, processed: set<nat>, dropped: set<nat>, tc: nat, c: nat,
                       ns1: seq<Container>, rank1: seq<nat>, ns2: seq<Container>, rank2: seq<nat>, ns3: seq<Container>, rank3: seq<nat>)
    requires GroupState(ns0, rank0, dead, roots, ns, rank, grouped, processed, dropped)
    requires tc in roots && c in roots && tc != c && c !in processed && tc < |ns| && c < |ns|
    requires ns1 == ns + [Container(None, None, [])] && rank1 == rank + [0] && Ranked(ns1, rank1) && !Reaches(ns1, rank1, tc, |ns|)
    requires ns2 == Adopted(ns1, |ns|, tc) && rank2 == Bumped(ns1, rank1, tc) && Ranked(ns2, rank2) && !Reaches(ns2, rank2, c, |ns|)
    requires ns3 == Adopted(ns2, |ns|, c) && rank3 == Bumped(ns2, rank2, c) && Ranked(ns3, rank3)
    requires Intact(ns0, rank0, ns2, c)
    requires Within(Replaced(grouped, tc, |ns|), |ns3|)
    ensures Covered(ns3, rank3, roots, Replaced(grouped, tc, |ns|), processed + {tc, c}, dropped - {tc})
  {
    var g := Replaced(grouped, tc, |ns|);
    forall i | 0 <= i < |roots| && roots[i] in processed + {tc, c} && roots[i] !in dropped - {tc}
      ensures BelowSome(ns3, rank3, g, roots[i])
    {
      SiblingCoveredAt(ns0, rank0, dead, roots, ns, rank, grouped, processed, dropped, tc, c,
                       ns1, rank1, ns2, rank2, ns3, rank3, roots[i]);
    }
  }

  /** One root handled after the siblings step is below an entry of the
      new grouped list. */
  lemma SiblingCoveredAt(ns0: seq<Container>, rank0: seq<nat>, dead: set<nat>, roots: seq<nat>,
                         ns: seq<Container>, rank: seq<nat>, grouped: seq<nat>, processed: set<nat>, dropped: set<nat>, tc: nat, c: nat,
                         ns1: seq<Container>, rank1: seq<nat>, ns2: seq<Container>, rank2: seq<nat>, ns3: seq<Container>, rank3: seq<nat>,
                         y: nat)
    requires GroupState(ns0, rank0, dead, roots, ns, rank, grouped, processed, dropped)
    requires tc in roots && c in roots && tc != c && c !in processed && tc < |ns| && c < |ns|
    requires ns1 == ns + [Container(None, None, [])] && rank1 == rank + [0] && Ranked(ns1, rank1) && !Reaches(ns1, rank1, tc, |ns|)
    requires ns2 == Adopted(ns1, |ns|, tc) && rank2 == Bumped(ns1, rank1, tc) && Ranked(ns2, rank2) && !Reaches(ns2, rank2, c, |ns|)
    requires ns3 == Adopted(ns2, |ns|, c) && rank3 == Bumped(ns2, rank2, c) && Ranked(ns3, rank3)
    requires Intact(ns0, rank0, ns2, c)
    requires Within(Replaced(grouped, tc, |ns|), |ns3|)
    requires y in roots && y in processed + {tc, c} && y !in dropped - {tc}
    ensures BelowSome(ns3, rank3, Replaced(grouped, tc, |ns|), y)
  {
    if y == c {
      SiblingCoversNew(ns, grouped, tc, c, ns2, rank2, ns3, rank3);
    } else {
      RootUnreached(ns0, rank0, dead, roots, c, y);
      IntactReaches(ns0, rank0, ns2, rank2, c, y);
      SiblingKeepsCovered(ns, rank, grouped, tc, c, ns1, rank1, ns2, rank2, ns3, rank3, y);
    }
  }

  /** `c` is below the new dummy, an entry of the new grouped list. */
  lemma SiblingCoversNew(ns: seq<Container>, grouped: seq<nat>, tc: nat, c: nat,
                         ns2: seq<Container>, rank2: seq<nat>, ns3: seq<Container>, rank3: seq<nat>)
    requires Ranked(ns2, rank2) && |ns| < |ns2| && c < |ns2| && !Reaches(ns2, rank2, c, |ns|)
    requires ns3 == Adopted(ns2, |ns|, c) && rank3 == Bumped(ns2, rank2, c) && Ranked(ns3, rank3)
    requires Within(Replaced(grouped, tc, |ns|), |ns3|)
    ensures BelowSome(ns3, rank3, Replaced(grouped, tc, |ns|), c)
  {
    var g := Replaced(grouped, tc, |ns|);
    var at := if tc in grouped then FirstIndex(grouped, tc) else |grouped|;
    assert g[at] == |ns|;
    assert Reaches(ns2, rank2, c, c);
    AdoptedReachesSubtree(ns2, rank2, |ns|, c, c);
    assert Reaches(ns3, rank3, g[at], c);
  }

  /** A container below an entry of the grouped list, or `tc` itself, is
      below an entry of the new grouped list, as long as it is outside the
      subtree of `c`. */
  lemma SiblingKeepsCovered(ns: seq<Container>, rank: seq<nat>, grouped: seq<nat>, tc: nat, c: nat,
                            ns1: seq<Container>, rank1: seq<nat>, ns2: seq<Container>, rank2: seq<nat>, ns3: seq<Container>, rank3: seq<nat>,
                            y: nat)
    requires Ranked(ns, rank) && tc < |ns| && c < |ns| && Within(grouped, |ns|)
    requires ns1 == ns + [Container(None, None, [])] && rank1 == rank + [0] && Ranked(ns1, rank1) && !Reaches(ns1, rank1, tc, |ns|)
    requires ns2 == Adopted(ns1, |ns|, tc) && rank2 == Bumped(ns1, rank1, tc) && Ranked(ns2, rank2) && !Reaches(ns2, rank2, c, |ns|)
    requires ns3 == Adopted(ns2, |ns|, c) && rank3 == Bumped(ns2, rank2, c) && Ranked(ns3, rank3)
    requires Within(Replaced(grouped, tc, |ns|), |ns3|)
    requires !Reaches(ns2, rank2, c, y) && (y == tc || BelowSome(ns, rank, grouped, y))
    ensures BelowSome(ns3, rank3, Replaced(grouped, tc, |ns|), y)
  {
    var d := |ns|;
    var g := Replaced(grouped, tc, d);
    var at := if tc in grouped then FirstIndex(grouped, tc) else |grouped|;
    assert g[at] == d;
    if y == tc {
      SiblingKeepsBelow(ns, rank, tc, c, ns1, rank1, ns2, rank2, ns3, rank3, tc, y);
      assert Reaches(ns3, rank3, g[at], y);
    } else {
      var k :| 0 <= k < |grouped| && Reaches(ns, rank, grouped[k], y);
      SiblingKeepsBelow(ns, rank, tc, c, ns1, rank1, ns2, rank2, ns3, rank3, grouped[k], y);
      if Reaches(ns3, rank3, d, y) {
        assert Reaches(ns3, rank3, g[at], y);
      } else {
        assert g[k] == grouped[k];
        assert Reaches(ns3, rank3, g[k], y);
      }
    }
  }

  /** A container that `x` reaches, or `tc` itself, is afterwards below the
      new dummy or still below `x`, as long as it is outside the subtree of
      `c`. */
  lemma SiblingKeepsBelow(ns: seq<Container>, rank: seq<nat>, tc: nat, c: nat,
                          ns1: seq<Container>, rank1: seq<nat>, ns2: seq<Container>, rank2: seq<nat>, ns3: seq<Container>, rank3: seq<nat>,
                          x: nat, y: nat)
    requires Ranked(ns, rank) && tc < |ns| && c < |ns| && x < |ns|
    requires ns1 == ns + [Container(None, None, [])] && rank1 == rank + [0] && Ranked(ns1, rank1) && !Reaches(ns1, rank1, tc, |ns|)
    requires ns2 == Adopted(ns1, |ns|, tc) && rank2 == Bumped(ns1, rank1, tc) && Ranked(ns2, rank2) && !Reaches(ns2, rank2, c, |ns|)
    requires ns3 == Adopted(ns2, |ns|, c) && rank3 == Bumped(ns2, rank2, c) && Ranked(ns3, rank3)
    requires !Reaches(ns2, rank2, c, y) && (y == tc || Reaches(ns, rank, x, y))
    ensures Reaches(ns3, rank3, |ns|, y) || (y != tc && x != tc && Reaches(ns3, rank3, x, y))
  {
    var d := |ns|;
    if y == tc {
      AdoptedReachesSubtree(ns1, rank1, d, tc, tc);
      AdoptedKeepsReach(ns2, rank2, d, c, d, y);
    } else {
      AppendedKeepsReach(ns, rank, None, x, y);
      AppendedKeepsReach(ns, rank, None, tc, y);
      if Reaches(ns1, rank1, tc, y) {
        AdoptedReachesSubtree(ns1, rank1, d, tc, y);
        AdoptedKeepsReach(ns2, rank2, d, c, d, y);
      } else {
        AdoptedKeepsReach(ns1, rank1, d, tc, x, y);
        AdoptedKeepsReach(ns2, rank2, d, c, x, y);
      }
    }
  }

  /** A root is a live container of both arenas. */
  lemma RootLive(ns0: seq<Container>, rank0: seq<nat>, dead: set<nat>, roots: seq<nat>,
                 ns: seq<Container>, rank: seq<nat>, grouped: seq<nat>, processed: set<nat>, dropped: set<nat>, x: nat)
    requires GroupState(ns0, rank0, dead, roots, ns, rank, grouped, processed, dropped)
    requires x in roots
    ensures x < |ns0| && x < |ns| && x !in dead
  {
    var i :| 0 <= i < |roots| && roots[i] == x;
  }

  /** A dropped reply is reached from no entry of the grouped list. */
  lemma DroppedUnreached(ns0: seq<Container>, rank0: seq<nat>, dead: set<nat>, roots: seq<nat>,
                         ns: seq<Container>, rank: seq<nat>, grouped: seq<nat>, processed: set<nat>, dropped: set<nat>, d: nat)
    requires GroupState(ns0, rank0, dead, roots, ns, rank, grouped, processed, dropped)
    requires d in dropped
    ensures d < |ns| && ns[d].parent.None? && !BelowSome(ns, rank, grouped, d)
  {
    WaitingRoot(ns0, rank0, dead, roots, ns, rank, grouped, processed, dropped, d);
    forall k | 0 <= k < |grouped| ensures !Reaches(ns, rank, grouped[k], d) {
      ParentlessUnreached(ns, rank, dead, grouped[k], d);
    }
  }

  /** `dummy = Container()`, `dummy.add_child(tc)`, `dummy.add_child(c)`
      on the records: a new container without a message, appended to the
      arena, adopts `tc` and then `c`. */
  function UnderNewDummy(ns: seq<Container>, tc: nat, c: nat): (r: seq<Container>)
    requires InRange(ns) && tc < |ns| && c < |ns| && tc != c
    ensures |r| == |ns| + 1 && r[|ns|] == Container(None, None, [tc, c])
    ensures r[tc].parent == Some(|ns|) && r[c].parent == Some(|ns|)
    ensures forall x :: 0 <= x < |ns| ==> r[x].message == ns[x].message
  {
    var ns1 := ns + [Container(None, None, [])];
    assert InRange(ns1) by {
      assert forall x :: 0 <= x < |ns| ==> ns1[x] == ns[x];
    }
    AdoptedInRange(ns1, |ns|, tc);
    var ns2 := Adopted(ns1, |ns|, tc);
    assert ns2[c].parent == ns1[c].parent;
    Adopted(ns2, |ns|, c)
  }

  /** `merge_subject_containers` (jwz_threading.py:203-245) on the records:
      the arena after root `c` is merged with the representative `tc` of
      its subject. */
  function Merged(ns: seq<Container>, ghost rank: seq<nat>, c: nat, tc: nat, grouped: seq<nat>, processed: set<nat>): (r: seq<Container>)
    requires Ranked(ns, rank) && c < |ns| && tc < |ns| && c != tc
  {
    if tc in processed then
      if !IsReply(ns, rank, c) then UnderNewDummy(ns, tc, c)
      else if tc in grouped then Adopted(ns, tc, c)
      else ns
    else
      var top := FreshTop(ns, rank, c, tc);
      if top == tc then Adopted(ns, tc, c)
      else if top == c then Adopted(ns, c, tc)
      else UnderNewDummy(ns, tc, c)
  }

  /** Merging changes no message: the old containers keep theirs and a new
      container is a dummy. */
  lemma MergedKeepsMessages(ns: seq<Container>, rank: seq<nat>, c: nat, tc: nat, grouped: seq<nat>, processed: set<nat>)
    requires Ranked(ns, rank) && c < |ns| && tc < |ns| && c != tc
    ensures var r := Merged(ns, rank, c, tc, grouped, processed);
      && |ns| <= |r| <= |ns| + 1
      && (forall x :: 0 <= x < |ns| ==> r[x].message == ns[x].message)
      && (|r| == |ns| + 1 ==> r[|ns|] == Container(None, None, [tc, c]))
  {
  }

  /** Merging joins the two threads: one root becomes the parent of the
      other, or both become children of one new dummy; only a reply whose
      representative was handled and has left the grouped list is dropped,
      and then nothing changes. */
  lemma MergedJoins(ns: seq<Container>, rank: seq<nat>, c: nat, tc: nat, grouped: seq<nat>, processed: set<nat>)
    requires Ranked(ns, rank) && c < |ns| && tc < |ns| && c != tc
    requires ns[c].parent.None? && (tc !in processed ==> ns[tc].parent.None?)
    ensures var r := Merged(ns, rank, c, tc, grouped, processed);
      (r == ns <==> tc in processed && IsReply(ns, rank, c) && tc !in grouped)
    ensures var r := Merged(ns, rank, c, tc, grouped, processed);
      r != ns ==>
        || r[c].parent == Some(tc)
        || r[tc].parent == Some(c)
        || (|r| == |ns| + 1 && r[c].parent == Some(|ns|) && r[tc].parent == Some(|ns|))
  {
    var r := Merged(ns, rank, c, tc, grouped, processed);
    if tc in processed && IsReply(ns, rank, c) && tc !in grouped {
    } else if |r| == |ns| + 1 {
    } else if r == Adopted(ns, tc, c) {
      assert r[c].parent != ns[c].parent;
    } else {
      assert r == Adopted(ns, c, tc) && tc !in processed;
      assert r[tc].parent != ns[tc].parent;
    }
  }

  /** `p.add_child(x)` for two roots not handled yet: `p` then joins the
      grouped list. */
  method AdoptRoot(a: Arena, p: nat, x: nat, grouped: seq<nat>, processed: set<nat>,
                   ghost ns0: seq<Container>, ghost rank0: seq<nat>, ghost roots: seq<nat>, ghost dropped: set<nat>)
    requires a.Valid() && GroupState(ns0, rank0, a.dead, roots, a.nodes, a.rank, grouped, processed, dropped)
    requires p in roots && x in roots && p != x && p !in processed && x !in processed
    modifies a
    ensures a.Valid() && a.dead == old(a.dead)
    ensures GroupState(ns0, rank0, a.dead, roots, a.nodes, a.rank, grouped + [p], processed + {p, x}, dropped)
    ensures a.nodes == Adopted(old(a.nodes), p, x)
  {
    AdoptKeeps(ns0, rank0, a.dead, roots, a.nodes, a.rank, grouped, processed, dropped, p, x);
    a.AddChild(p, x);
  }

  /** `dummy = Container()`, `dummy.add_child(tc)`, `dummy.add_child(c)`:
      the two become siblings under a new dummy container, which is
      returned. */
  method UnderDummy(a: Arena, tc: nat, c: nat, grouped: seq<nat>, processed: set<nat>,
                    ghost ns0: seq<Container>, ghost rank0: seq<nat>, ghost roots: seq<nat>, ghost dropped: set<nat>)
    returns (dummy: nat)
    requires a.Valid() && GroupState(ns0, rank0, a.dead, roots, a.nodes, a.rank, grouped, processed, dropped)
    requires c in roots && tc in roots && c != tc && c !in processed
    modifies a
    ensures a.Valid() && a.dead == old(a.dead) && dummy == |old(a.nodes)|
    ensures GroupState(ns0, rank0, a.dead, roots, a.nodes, a.rank, Replaced(grouped, tc, dummy), processed + {tc, c}, dropped - {tc})
    ensures a.nodes == UnderNewDummy(old(a.nodes), tc, c)
  {
    ghost var ns, rank, dead := a.nodes, a.rank, a.dead;
    RootLive(ns0, rank0, dead, roots, ns, rank, grouped, processed, dropped, c);
    RootLive(ns0, rank0, dead, roots, ns, rank, grouped, processed, dropped, tc);
    dummy := a.NewContainer(None);
    ghost var ns1, rank1 := a.nodes, a.rank;
    ParentlessUnreached(ns1, rank1, dead, tc, dummy);
    a.AddChild(dummy, tc);
    ghost var ns2, rank2 := a.nodes, a.rank;
    ParentlessUnreached(ns2, rank2, dead, c, dummy);
    a.AddChild(dummy, c);
    SiblingKeeps(ns0, rank0, dead, roots, ns, rank, grouped, processed, dropped, tc, c,
                 ns1, rank1, ns2, rank2, a.nodes, a.rank);
  }

  /** Grouping touches only roots and new containers: every other
      container of `ns0` is as it was, and every root keeps the children it
      had in `ns0`. */
  ghost predicate KeptBelowRoots(ns0: seq<Container>, roots: seq<nat>, ns: seq<Container>) {
    && |ns0| <= |ns|
    && (forall y :: 0 <= y < |ns0| && y !in roots ==> ns[y] == ns0[y])
    && (forall r, y :: r in roots && r < |ns0| && y in ns0[r].children ==> y in ns[r].children)
  }

  /** A child of a root is not a root: roots have no parent. */
  lemma RootKidsNotRoots(ns0: seq<Container>, rank0: seq<nat>, dead: set<nat>, roots: seq<nat>, r: nat, y: nat)
    requires RootSet(ns0, rank0, dead, roots) && r in roots && y in ns0[r].children
    ensures y !in roots
  {
    var i :| 0 <= i < |roots| && roots[i] == r;
    assert LinkedAt(ns0, dead, r);
    var k :| 0 <= k < |ns0[r].children| && ns0[r].children[k] == y;
    forall j | 0 <= j < |roots| ensures roots[j] != y {
      assert ns0[roots[j]].parent.None?;
    }
  }

  /** `add_child` of a root, under a root or a new container, away from a
      parent that is a root or a new container, keeps `KeptBelowRoots`. */
  lemma AdoptedKeptBelowRoots(ns0: seq<Container>, rank0: seq<nat>, dead: set<nat>, roots: seq<nat>,
                              ns: seq<Container>, p: nat, ch: nat)
    requires RootSet(ns0, rank0, dead, roots) && KeptBelowRoots(ns0, roots, ns) && InRange(ns)
    requires p < |ns| && ch < |ns| && ch in roots && (p in roots || p >= |ns0|)
    requires ns[ch].parent.Some? ==> ns[ch].parent.value in roots || ns[ch].parent.value >= |ns0|
    ensures KeptBelowRoots(ns0, roots, Adopted(ns, p, ch))
  {
    var r := Adopted(ns, p, ch);
    forall y | 0 <= y < |ns0| && y !in roots ensures r[y] == ns[y] {
      assert r[y].parent == ns[y].parent && r[y].children == ns[y].children && r[y].message == ns[y].message;
    }
    forall rt, y | rt in roots && rt < |ns0| && y in ns0[rt].children ensures y in r[rt].children {
      RootKidsNotRoots(ns0, rank0, dead, roots, rt, y);
      AdoptedKeepsChild(ns, p, ch, rt, y);
    }
  }

  /** Merging keeps `KeptBelowRoots`: it links only roots and new dummies,
      and the parent of each of the two roots is a root or a new dummy. */
  lemma MergedKeptBelowRoots(ns0: seq<Container>, rank0: seq<nat>, dead: set<nat>, roots: seq<nat>,
                             ns: seq<Container>, rank: seq<nat>, grouped: seq<nat>, processed: set<nat>,
                             c: nat, tc: nat)
    requires RootSet(ns0, rank0, dead, roots) && KeptBelowRoots(ns0, roots, ns) && Ranked(ns, rank)
    requires c < |ns| && tc < |ns| && c in roots && tc in roots && c != tc
    requires ns[tc].parent.Some? ==> ns[tc].parent.value in roots || ns[tc].parent.value >= |ns0|
    requires ns[c].parent.Some? ==> ns[c].parent.value in roots || ns[c].parent.value >= |ns0|
    ensures KeptBelowRoots(ns0, roots, Merged(ns, rank, c, tc, grouped, processed))
  {
    var top := FreshTop(ns, rank, c, tc);
    if tc in processed && IsReply(ns, rank, c) {
      if tc in grouped {
        AdoptedKeptBelowRoots(ns0, rank0, dead, roots, ns, tc, c);
      }
    } else if tc !in processed && top == tc {
      AdoptedKeptBelowRoots(ns0, rank0, dead, roots, ns, tc, c);
    } else if tc !in processed && top == c {
      AdoptedKeptBelowRoots(ns0, rank0, dead, roots, ns, c, tc);
    } else {
      UnderNewDummyKept(ns0, rank0, dead, roots, ns, tc, c);
    }
  }

  /** During the walk, the parent of a root is a root or a new dummy. */
  lemma RootParentKept(ns0: seq<Container>, rank0: seq<nat>, dead: set<nat>, roots: seq<nat>,
                       ns: seq<Container>, rank: seq<nat>, grouped: seq<nat>, processed: set<nat>, dropped: set<nat>, x: nat)
    requires GroupState(ns0, rank0, dead, roots, ns, rank, grouped, processed, dropped) && x in roots
    ensures RootSet(ns0, rank0, dead, roots) && Ranked(ns, rank) && x < |ns|
    ensures ns[x].parent.Some? ==> ns[x].parent.value in roots || ns[x].parent.value >= |ns0|
  {
    assert RootSet(ns0, rank0, dead, roots) && RootParents(ns, roots, |ns0|, processed, dropped) && Grown(ns0, ns);
    var i :| 0 <= i < |roots| && roots[i] == x;
  }

  lemma UnderNewDummyKept(ns0: seq<Container>, rank0: seq<nat>, dead: set<nat>, roots: seq<nat>,
                          ns: seq<Container>, tc: nat, c: nat)
    requires RootSet(ns0, rank0, dead, roots) && KeptBelowRoots(ns0, roots, ns) && InRange(ns)
    requires tc < |ns| && c < |ns| && tc in roots && c in roots && tc != c
    requires ns[tc].parent.Some? ==> ns[tc].parent.value in roots || ns[tc].parent.value >= |ns0|
    requires ns[c].parent.Some? ==> ns[c].parent.value in roots || ns[c].parent.value >= |ns0|
    ensures KeptBelowRoots(ns0, roots, UnderNewDummy(ns, tc, c))
  {
    var ns1 := ns + [Container(None, None, [])];
    assert forall x :: 0 <= x < |ns| ==> ns1[x] == ns[x];
    assert InRange(ns1) && KeptBelowRoots(ns0, roots, ns1);
    AdoptedKeptBelowRoots(ns0, rank0, dead, roots, ns1, |ns|, tc);
    AdoptedInRange(ns1, |ns|, tc);
    var ns2 := Adopted(ns1, |ns|, tc);
    assert ns2[c].parent == ns[c].parent;
    AdoptedKeptBelowRoots(ns0, rank0, dead, roots, ns2, |ns|, c);
  }

  /** Under `KeptBelowRoots`, what a root, or a live container that is not
      a root, reached in `ns0` it still reaches. */
  lemma {:induction false} KeptReaches(ns0: seq<Container>, rank0: seq<nat>, dead: set<nat>, roots: seq<nat>,
                                       ns: seq<Container>, rank: seq<nat>, x: nat, y: nat)
    requires RootSet(ns0, rank0, dead, roots) && KeptBelowRoots(ns0, roots, ns) && Ranked(ns, rank)
    requires x < |ns0| && x !in dead && Reaches(ns0, rank0, x, y)
    ensures Reaches(ns, rank, x, y)
    decreases rank0[x]
  {
    if x != y {
      var i :| 0 <= i < |ns0[x].children| && Reaches(ns0, rank0, ns0[x].children[i], y);
      var ch := ns0[x].children[i];
      assert LinkedAt(ns0, dead, x);
      KeptReaches(ns0, rank0, dead, roots, ns, rank, ch, y);
      assert ch in ns[x].children by {
        if x !in roots {
          assert ns[x] == ns0[x];
        }
      }
      var j :| 0 <= j < |ns[x].children| && ns[x].children[j] == ch;
      assert Reaches(ns, rank, ns[x].children[j], y);
    }
  }

  /** Before the walk: nothing is handled, and the arena is the one the
      walk starts from. */
  lemma GroupStart(ns0: seq<Container>, rank0: seq<nat>, dead: set<nat>, roots: seq<nat>)
    requires RootSet(ns0, rank0, dead, roots)
    ensures GroupState(ns0, rank0, dead, roots, ns0, rank0, [], {}, {})
  {
    forall x | x in roots && x < |ns0| ensures Intact(ns0, rank0, ns0, x) {}
  }

  /** The outcome of grouping, from the arena `ns0` before it to the arena
      `ns` after it: grouping has only added dummy containers; the grouped
      list holds distinct live parentless containers, each a root or a new
      dummy; every root lies below an entry of the list unless it is a
      dropped reply; and a dropped reply is a root whose subject is a reply,
      unchanged, parentless and below no entry of the list. */
  ghost predicate Grouped(ns0: seq<Container>, rank0: seq<nat>, dead: set<nat>, roots: seq<nat>,
                          ns: seq<Container>, rank: seq<nat>, grouped: seq<nat>, dropped: set<nat>)
  {
    var holds :=
      && Ranked(ns0, rank0) && Ranked(ns, rank) && Within(roots, |ns0|)
      && Grown(ns0, ns) && GroupedWell(ns, dead, roots, |ns0|, grouped)
      && (forall i :: 0 <= i < |roots| ==> roots[i] in dropped || BelowSome(ns, rank, grouped, roots[i]))
      && (forall d :: d in dropped ==>
            && d in roots && d < |ns0| && d < |ns| && IsReply(ns0, rank0, d)
            && ns[d] == ns0[d] && ns[d].parent.None? && !BelowSome(ns, rank, grouped, d));
    holds
  }

  /** After the walk, with every root handled, the outcome is `Grouped`. */
  lemma GroupEnd(ns0: seq<Container>, rank0: seq<nat>, dead: set<nat>, roots: seq<nat>,
                 ns: seq<Container>, rank: seq<nat>, grouped: seq<nat>, processed: set<nat>, dropped: set<nat>)
    requires GroupState(ns0, rank0, dead, roots, ns, rank, grouped, processed, dropped)
    requires forall i :: 0 <= i < |roots| ==> roots[i] in processed
    ensures Grouped(ns0, rank0, dead, roots, ns, rank, grouped, dropped)
  {
    forall d | d in dropped
      ensures d < |ns| && ns[d] == ns0[d] && ns[d].parent.None? && !BelowSome(ns, rank, grouped, d)
    {
      WaitingRoot(ns0, rank0, dead, roots, ns, rank, grouped, processed, dropped, d);
      DroppedUnreached(ns0, rank0, dead, roots, ns, rank, grouped, processed, dropped, d);
    }
  }

  /** `keys` lists the grouping key of each entry of `roots`. */
  ghost predicate KeysOf(ns: seq<Container>, rank: seq<nat>, roots: seq<nat>, keys: seq<string>)
    requires Ranked(ns, rank) && Within(roots, |ns|)
  {
    |keys| == |roots| && forall j :: 0 <= j < |roots| ==> keys[j] == Key(ns, rank, roots[j])
  }

  /** Every slot of the subject table holds an entry of the root set whose
      key is the slot's own, and so never one whose key is empty. */
  ghost predicate TableFits(roots: seq<nat>, keys: seq<string>, table: map<string, nat>)
    requires |keys| == |roots|
  {
    forall k :: k in table ==>
      && table[k] in roots
      && (forall j :: 0 <= j < |roots| && keys[j] == [] ==> roots[j] != table[k])
      && (forall j :: 0 <= j < |roots| && roots[j] == table[k] ==> keys[j] == k)
  }

  lemma TableRoots(ns: seq<Container>, rank: seq<nat>, roots: seq<nat>, keys: seq<string>)
    requires Ranked(ns, rank) && Within(roots, |ns|) && NoDup(roots) && |keys| == |roots|
    ensures TableFits(roots, keys, SubjectTable(ns, rank, roots, keys))
  {
    var t := SubjectTable(ns, rank, roots, keys);
    SubjectTableSlots(ns, rank, roots, keys);
    forall k | k in t
      ensures t[k] in roots && (forall j :: 0 <= j < |roots| && keys[j] == [] ==> roots[j] != t[k])
      ensures forall j :: 0 <= j < |roots| && roots[j] == t[k] ==> keys[j] == k
    {
      var m :| 0 <= m < |roots| && roots[m] == t[k] && keys[m] == k;
    }
  }

  /** Which roots the walk can have dropped (jwz_threading.py:185-194,
      205 and 218-221): only a root whose key is not empty and has a
      representative in the subject table other than itself, that
      representative handled before the root's turn (one of the earlier
      roots or their representatives) and no longer an entry of the grouped
      list, and an earlier root with the same key. So a root with an empty
      key, a root that represents itself, and the first root with each key
      are never dropped. */
  ghost predicate DropRule(roots: seq<nat>, keys: seq<string>, table: map<string, nat>, grouped: seq<nat>, dropped: set<nat>)
    requires |keys| == |roots|
  {
    forall i :: 0 <= i < |roots| && roots[i] in dropped ==>
      && keys[i] != [] && keys[i] in table && table[keys[i]] != roots[i] && table[keys[i]] !in grouped
      && table[keys[i]] in HandledUpTo(roots, keys, table, i)
      && exists j :: 0 <= j < i && keys[j] == keys[i]
  }

  /** The representative of every dropped root has been handled. */
  ghost predicate DropsHandled(roots: seq<nat>, keys: seq<string>, table: map<string, nat>, processed: set<nat>, dropped: set<nat>)
    requires |keys| == |roots|
  {
    forall i :: 0 <= i < |roots| && roots[i] in dropped && keys[i] in table ==> table[keys[i]] in processed
  }

  /** The first `n` roots and their representatives. */
  ghost function HandledUpTo(roots: seq<nat>, keys: seq<string>, table: map<string, nat>, n: nat): set<nat>
    requires |keys| == |roots| && n <= |roots|
  {
    if n == 0 then {}
    else HandledUpTo(roots, keys, table, n - 1) + {roots[n - 1]}
         + (if keys[n - 1] in table then {table[keys[n - 1]]} else {})
  }

  /** Whatever is among the first `n` roots and their representatives is
      one of them or the representative of one of them. */
  lemma {:induction false} HandledUpToWitness(roots: seq<nat>, keys: seq<string>, table: map<string, nat>, n: nat, x: nat)
    requires |keys| == |roots| && n <= |roots| && x in HandledUpTo(roots, keys, table, n)
    ensures exists j :: 0 <= j < n && (roots[j] == x || (keys[j] in table && table[keys[j]] == x))
  {
    if roots[n - 1] != x && !(keys[n - 1] in table && table[keys[n - 1]] == x) {
      HandledUpToWitness(roots, keys, table, n - 1, x);
    }
  }

  /** Before the turn of `roots[n]`, only the earlier roots and their
      representatives have been handled. */
  ghost predicate HandledBefore(roots: seq<nat>, keys: seq<string>, table: map<string, nat>, n: nat, processed: set<nat>)
    requires |keys| == |roots| && n <= |roots|
  {
    processed <= HandledUpTo(roots, keys, table, n)
  }

  /** The drop rule, the handled representatives and the handled prefix
      before the turn of `roots[i]`. */
  ghost predicate DropState(roots: seq<nat>, keys: seq<string>, table: map<string, nat>, i: nat,
                            grouped: seq<nat>, processed: set<nat>, dropped: set<nat>)
    requires |keys| == |roots| && i <= |roots|
  {
    && DropRule(roots, keys, table, grouped, dropped) && DropsHandled(roots, keys, table, processed, dropped)
    && HandledBefore(roots, keys, table, i, processed)
  }

  /** The drop rule over the arena the subject table was built from. */
  ghost predicate DroppedBehind(ns0: seq<Container>, rank0: seq<nat>, roots: seq<nat>, grouped: seq<nat>, dropped: set<nat>)
    requires Ranked(ns0, rank0) && Within(roots, |ns0|)
  {
    var keys := RootKeys(ns0, rank0, roots);
    DropRule(roots, keys, SubjectTable(ns0, rank0, roots, keys), grouped, dropped)
  }

  /** Appending a root not handled yet keeps the drop rule and hands the
      turn on. */
  lemma PassDropRule(roots: seq<nat>, keys: seq<string>, table: map<string, nat>, i: nat,
                     grouped: seq<nat>, processed: set<nat>, dropped: set<nat>)
    requires |keys| == |roots| && i < |roots| && roots[i] !in processed
    requires DropRule(roots, keys, table, grouped, dropped) && DropsHandled(roots, keys, table, processed, dropped)
    requires HandledBefore(roots, keys, table, i, processed)
    ensures DropRule(roots, keys, table, grouped + [roots[i]], dropped)
    ensures DropsHandled(roots, keys, table, processed + {roots[i]}, dropped)
    ensures HandledBefore(roots, keys, table, i + 1, processed + {roots[i]})
  {
    forall m | 0 <= m < |roots| && roots[m] in dropped
      ensures table[keys[m]] !in grouped + [roots[i]]
    {
      assert table[keys[m]] in processed;
    }
  }

  /** Merging a root not handled yet with its representative keeps the
      drop rule and hands the turn on. The merge adds to the grouped list
      only containers not handled before or new ones (index `n` or more),
      and drops at most the root, when its representative was handled and
      is not an entry. */
  lemma MergeDropRule(roots: seq<nat>, keys: seq<string>, table: map<string, nat>, i: nat, n: nat,
                      grouped: seq<nat>, processed: set<nat>, dropped: set<nat>,
                      grouped': seq<nat>, dropped': set<nat>)
    requires |keys| == |roots| && i < |roots| && NoDup(roots) && TableFits(roots, keys, table)
    requires keys[i] != [] && keys[i] in table && table[keys[i]] != roots[i] && roots[i] !in processed
    requires forall x :: x in roots ==> x < n
    requires DropRule(roots, keys, table, grouped, dropped) && DropsHandled(roots, keys, table, processed, dropped)
    requires HandledBefore(roots, keys, table, i, processed)
    requires forall x :: x in grouped' ==> x in grouped || x >= n || x !in processed
    requires forall d :: d in dropped' ==>
      d in dropped || (d == roots[i] && table[keys[i]] in processed && table[keys[i]] !in grouped && grouped' == grouped)
    ensures DropRule(roots, keys, table, grouped', dropped')
    ensures DropsHandled(roots, keys, table, processed + {table[keys[i]], roots[i]}, dropped')
    ensures HandledBefore(roots, keys, table, i + 1, processed + {table[keys[i]], roots[i]})
  {
    MergeDropped(roots, keys, table, i, n, grouped, processed, dropped, grouped', dropped');
    MergeHandled(roots, keys, table, i, processed, dropped, dropped');
  }

  /** The handled part of `MergeDropRule`. */
  lemma MergeHandled(roots: seq<nat>, keys: seq<string>, table: map<string, nat>, i: nat,
                     processed: set<nat>, dropped: set<nat>, dropped': set<nat>)
    requires |keys| == |roots| && i < |roots| && NoDup(roots) && keys[i] in table
    requires DropsHandled(roots, keys, table, processed, dropped) && HandledBefore(roots, keys, table, i, processed)
    requires forall d :: d in dropped' ==> d in dropped || d == roots[i]
    ensures DropsHandled(roots, keys, table, processed + {table[keys[i]], roots[i]}, dropped')
    ensures HandledBefore(roots, keys, table, i + 1, processed + {table[keys[i]], roots[i]})
  {
    HandledUpToStep(roots, keys, table, i);
  }

  /** One more root adds itself and its representative. */
  lemma HandledUpToStep(roots: seq<nat>, keys: seq<string>, table: map<string, nat>, i: nat)
    requires |keys| == |roots| && i < |roots| && keys[i] in table
    ensures HandledUpTo(roots, keys, table, i + 1) == HandledUpTo(roots, keys, table, i) + {roots[i], table[keys[i]]}
  {
  }

  /** The drop rule part of `MergeDropRule`. */
  lemma MergeDropped(roots: seq<nat>, keys: seq<string>, table: map<string, nat>, i: nat, n: nat,
                     grouped: seq<nat>, processed: set<nat>, dropped: set<nat>,
                     grouped': seq<nat>, dropped': set<nat>)
    requires |keys| == |roots| && i < |roots| && NoDup(roots) && TableFits(roots, keys, table)
    requires keys[i] != [] && keys[i] in table && table[keys[i]] != roots[i]
    requires forall x :: x in roots ==> x < n
    requires DropRule(roots, keys, table, grouped, dropped) && DropsHandled(roots, keys, table, processed, dropped)
    requires HandledBefore(roots, keys, table, i, processed)
    requires forall x :: x in grouped' ==> x in grouped || x >= n || x !in processed
    requires forall d :: d in dropped' ==>
      d in dropped || (d == roots[i] && table[keys[i]] in processed && table[keys[i]] !in grouped && grouped' == grouped)
    ensures DropRule(roots, keys, table, grouped', dropped')
  {
    forall m | 0 <= m < |roots| && roots[m] in dropped'
      ensures keys[m] != [] && keys[m] in table && table[keys[m]] != roots[m] && table[keys[m]] !in grouped'
      ensures table[keys[m]] in HandledUpTo(roots, keys, table, m)
      ensures exists j :: 0 <= j < m && keys[j] == keys[m]
    {
      if roots[m] in dropped {
        assert table[keys[m]] in processed && table[keys[m]] in roots;
      } else {
        assert m == i;
        EarlierKey(roots, keys, table, i, processed);
      }
    }
  }

  /** A root whose representative was handled before its turn has an
      earlier root with the same key. */
  lemma EarlierKey(roots: seq<nat>, keys: seq<string>, table: map<string, nat>, i: nat, processed: set<nat>)
    requires |keys| == |roots| && i < |roots| && TableFits(roots, keys, table)
    requires keys[i] in table && table[keys[i]] in processed && HandledBefore(roots, keys, table, i, processed)
    ensures exists j :: 0 <= j < i && keys[j] == keys[i]
  {
    var tc := table[keys[i]];
    HandledUpToWitness(roots, keys, table, i, tc);
    var j :| 0 <= j < i && (roots[j] == tc || (keys[j] in table && table[keys[j]] == tc));
    var m :| 0 <= m < |roots| && roots[m] == tc;
    assert keys[m] == keys[i];
    if roots[j] != tc {
      assert keys[m] == keys[j];
    }
  }

  /** A root with an empty key, a root that represents itself, and the
      first root with its key are never dropped: each lies below an entry
      of the grouped list. */
  lemma KeptRoots(ns0: seq<Container>, rank0: seq<nat>, dead: set<nat>, roots: seq<nat>,
                  ns: seq<Container>, rank: seq<nat>, grouped: seq<nat>, dropped: set<nat>, i: nat)
    requires Grouped(ns0, rank0, dead, roots, ns, rank, grouped, dropped)
    requires Ranked(ns0, rank0) && Within(roots, |ns0|) && DroppedBehind(ns0, rank0, roots, grouped, dropped)
    requires i < |roots|
    requires var keys := RootKeys(ns0, rank0, roots); var table := SubjectTable(ns0, rank0, roots, keys);
      keys[i] == [] || keys[i] !in table || table[keys[i]] == roots[i] || forall j :: 0 <= j < i ==> keys[j] != keys[i]
    ensures roots[i] !in dropped && BelowSome(ns, rank, grouped, roots[i])
  {
  }

  /** Before the turn of `roots[i]`: the earlier roots are handled, and
      every handled root with an empty key is an entry of the grouped
      list. */
  ghost predicate Progress(roots: seq<nat>, keys: seq<string>, i: nat, grouped: seq<nat>, processed: set<nat>)
    requires |keys| == |roots|
  {
    && (forall j :: 0 <= j < i && j < |roots| ==> roots[j] in processed)
    && (forall j :: 0 <= j < |roots| && keys[j] == [] && roots[j] in processed ==> roots[j] in grouped)
  }

  /** A turn that handles `roots[i]` and keeps the handled empty-key roots
      in the grouped list moves the progress on by one root. */
  lemma TurnProgress(roots: seq<nat>, keys: seq<string>, i: nat, grouped: seq<nat>, processed: set<nat>,
                     grouped': seq<nat>, processed': set<nat>)
    requires |keys| == |roots| && i < |roots| && Progress(roots, keys, i, grouped, processed)
    requires processed + {roots[i]} <= processed'
    requires forall j :: 0 <= j < |roots| && keys[j] == [] && roots[j] in processed' ==>
      roots[j] in grouped' || (roots[j] in processed && roots[j] !in grouped)
    ensures Progress(roots, keys, i + 1, grouped', processed')
  {
  }

  /** What was handled before one turn was handled before the next. */
  lemma HandledLater(roots: seq<nat>, keys: seq<string>, table: map<string, nat>, i: nat, processed: set<nat>)
    requires |keys| == |roots| && i < |roots| && HandledBefore(roots, keys, table, i, processed)
    ensures HandledBefore(roots, keys, table, i + 1, processed)
  {
  }


  /** Appending a root to the grouped list keeps every empty-key root
      handled so far in it. */
  lemma PassEmptyKeys(roots: seq<nat>, keys: seq<string>, c: nat, grouped: seq<nat>, processed: set<nat>,
                      grouped': seq<nat>, processed': set<nat>)
    requires |keys| == |roots| && grouped' == grouped + [c] && processed' == processed + {c}
    ensures forall j :: 0 <= j < |roots| && keys[j] == [] && roots[j] in processed' ==>
      roots[j] in grouped' || (roots[j] in processed && roots[j] !in grouped)
  {
  }

  /** Merging a root whose key is not empty with a representative that is
      not an empty-key root keeps every empty-key root handled so far in the
      grouped list. */
  lemma MergeEmptyKeys(roots: seq<nat>, keys: seq<string>, i: nat, tc: nat, grouped: seq<nat>, processed: set<nat>,
                       grouped': seq<nat>, processed': set<nat>)
    requires |keys| == |roots| && i < |roots| && keys[i] != [] && NoDup(roots)
    requires forall j :: 0 <= j < |roots| && keys[j] == [] ==> roots[j] != tc
    requires processed' == processed + {tc, roots[i]}
    requires forall k :: 0 <= k < |grouped| && grouped[k] != tc ==> grouped[k] in grouped'
    ensures forall j :: 0 <= j < |roots| && keys[j] == [] && roots[j] in processed' ==>
      roots[j] in grouped' || (roots[j] in processed && roots[j] !in grouped)
  {
  }

  /** One turn of the loop of `group_by_subject` (jwz_threading.py:
      182-197), for the root `roots[i]`, not handled yet. */
  method GroupRoot(a: Arena, table: map<string, nat>, roots: seq<nat>, i: nat, grouped: seq<nat>, processed: set<nat>,
                   ghost ns0: seq<Container>, ghost rank0: seq<nat>, ghost keys: seq<string>, ghost dropped: set<nat>)
    returns (grouped': seq<nat>, processed': set<nat>, ghost dropped': set<nat>)
    requires a.Valid() && GroupState(ns0, rank0, a.dead, roots, a.nodes, a.rank, grouped, processed, dropped)
    requires Ranked(ns0, rank0) && Within(roots, |ns0|) && |keys| == |roots| && TableFits(roots, keys, table)
    requires i < |roots| && roots[i] !in processed && keys[i] == Key(ns0, rank0, roots[i])
    requires KeptBelowRoots(ns0, roots, a.nodes)
    requires DropState(roots, keys, table, i, grouped, processed, dropped)
    modifies a
    ensures a.Valid() && a.dead == old(a.dead)
    ensures GroupState(ns0, rank0, a.dead, roots, a.nodes, a.rank, grouped', processed', dropped')
    ensures KeptBelowRoots(ns0, roots, a.nodes)
    ensures processed + {roots[i]} <= processed'
    ensures forall j :: 0 <= j < |roots| && keys[j] == [] && roots[j] in processed' ==>
      roots[j] in grouped' || (roots[j] in processed && roots[j] !in grouped)
    ensures DropState(roots, keys, table, i + 1, grouped', processed', dropped')
  {
    var container := roots[i];
    WaitingKey(ns0, rank0, a.dead, roots, a.nodes, a.rank, grouped, processed, dropped, i, keys[i]);
    var subject := Key(a.nodes, a.rank, container);
    if subject == [] || subject !in table || table[subject] == container {
      PassKeeps(ns0, rank0, a.dead, roots, a.nodes, a.rank, grouped, processed, dropped, container);
      grouped' := grouped + [container];
      processed' := processed + {container};
      dropped' := dropped;
      PassEmptyKeys(roots, keys, container, grouped, processed, grouped', processed');
      PassDropRule(roots, keys, table, i, grouped, processed, dropped);
    } else {
      var tc := table[subject];
      assert NoDup(roots);
      ghost var ns, rank := a.nodes, a.rank;
      RootParentKept(ns0, rank0, a.dead, roots, ns, rank, grouped, processed, dropped, container);
      RootParentKept(ns0, rank0, a.dead, roots, ns, rank, grouped, processed, dropped, tc);
      MergedKeptBelowRoots(ns0, rank0, a.dead, roots, ns, rank, grouped, processed, container, tc);
      grouped', processed', dropped' := MergeSubjectContainers(a, container, tc, grouped, processed, ns0, rank0, roots, dropped);
      MergeEmptyKeys(roots, keys, i, tc, grouped, processed, grouped', processed');
      MergeDropRule(roots, keys, table, i, |ns|, grouped, processed, dropped, grouped', dropped');
    }
  }

  /** `group_by_subject` (jwz_threading.py:174-200): the subject table is
      built, then each root not handled yet is appended to the grouped list
      as it is (empty key, or its own representative) or merged with its
      representative. The outcome is `Grouped`; every root with an empty
      key is an entry of the grouped list; and the dropped roots keep
      `DroppedBehind`, so a root that represents itself, or is the first
      with its key, lies below an entry (`KeptRoots`). */
  method GroupBySubject(a: Arena, roots: seq<nat>) returns (grouped: seq<nat>, ghost dropped: set<nat>)
    requires a.Valid() && RootSet(a.nodes, a.rank, a.dead, roots)
    modifies a
    ensures a.Valid() && a.dead == old(a.dead)
    ensures Grouped(old(a.nodes), old(a.rank), a.dead, roots, a.nodes, a.rank, grouped, dropped)
    ensures forall i :: 0 <= i < |roots| && RootKeys(old(a.nodes), old(a.rank), roots)[i] == [] ==> roots[i] in grouped
    ensures KeptBelowRoots(old(a.nodes), roots, a.nodes)
    ensures DroppedBehind(old(a.nodes), old(a.rank), roots, grouped, dropped)
  {
    var ns0 := a.nodes;
    ghost var rank0 := a.rank;
    ghost var keys := RootKeys(ns0, rank0, roots);
    var table := BuildSubjectTable(a, roots);
    GroupStart(ns0, rank0, a.dead, roots);
    TableRoots(ns0, rank0, roots, keys);
    var processed;
    grouped, processed, dropped := GroupRoots(a, table, roots, ns0, rank0, keys);
    GroupEnd(ns0, rank0, a.dead, roots, a.nodes, a.rank, grouped, processed, dropped);
  }

  /** The loop of `group_by_subject` (jwz_threading.py:179-198), from the
      state before any root is handled to the state where all are. */
  method GroupRoots(a: Arena, table: map<string, nat>, roots: seq<nat>,
                    ghost ns0: seq<Container>, ghost rank0: seq<nat>, ghost keys: seq<string>)
    returns (grouped: seq<nat>, processed: set<nat>, ghost dropped: set<nat>)
    requires a.Valid() && GroupState(ns0, rank0, a.dead, roots, a.nodes, a.rank, [], {}, {})
    requires Ranked(ns0, rank0) && Within(roots, |ns0|) && KeysOf(ns0, rank0, roots, keys) && TableFits(roots, keys, table)
    requires a.nodes == ns0
    modifies a
    ensures a.Valid() && a.dead == old(a.dead)
    ensures GroupState(ns0, rank0, a.dead, roots, a.nodes, a.rank, grouped, processed, dropped)
    ensures forall i :: 0 <= i < |roots| ==> roots[i] in processed
    ensures forall i :: 0 <= i < |roots| && keys[i] == [] ==> roots[i] in grouped
    ensures KeptBelowRoots(ns0, roots, a.nodes)
    ensures DropRule(roots, keys, table, grouped, dropped)
  {
    grouped, processed, dropped := [], {}, {};
    for i := 0 to |roots|
      invariant a.Valid() && a.dead == old(a.dead)
      invariant GroupState(ns0, rank0, a.dead, roots, a.nodes, a.rank, grouped, processed, dropped)
      invariant Progress(roots, keys, i, grouped, processed)
      invariant KeptBelowRoots(ns0, roots, a.nodes)
      invariant DropState(roots, keys, table, i, grouped, processed, dropped)
    {
      grouped, processed, dropped := GroupTurn(a, table, roots, i, grouped, processed, ns0, rank0, keys, dropped);
    }
  }

  /** One turn of the loop of `group_by_subject` (jwz_threading.py:
      180-197): a root handled already is skipped, any other is grouped. */
  method GroupTurn(a: Arena, table: map<string, nat>, roots: seq<nat>, i: nat, grouped: seq<nat>, processed: set<nat>,
                   ghost ns0: seq<Container>, ghost rank0: seq<nat>, ghost keys: seq<string>, ghost dropped: set<nat>)
    returns (grouped': seq<nat>, processed': set<nat>, ghost dropped': set<nat>)
    requires a.Valid() && GroupState(ns0, rank0, a.dead, roots, a.nodes, a.rank, grouped, processed, dropped)
    requires Ranked(ns0, rank0) && Within(roots, |ns0|) && KeysOf(ns0, rank0, roots, keys) && TableFits(roots, keys, table)
    requires i < |roots| && Progress(roots, keys, i, grouped, processed)
    requires KeptBelowRoots(ns0, roots, a.nodes)
    requires DropState(roots, keys, table, i, grouped, processed, dropped)
    modifies a
    ensures a.Valid() && a.dead == old(a.dead)
    ensures GroupState(ns0, rank0, a.dead, roots, a.nodes, a.rank, grouped', processed', dropped')
    ensures Progress(roots, keys, i + 1, grouped', processed')
    ensures KeptBelowRoots(ns0, roots, a.nodes)
    ensures DropState(roots, keys, table, i + 1, grouped', processed', dropped')
  {
    if roots[i] !in processed {
      grouped', processed', dropped' := GroupRoot(a, table, roots, i, grouped, processed, ns0, rank0, keys, dropped);
      TurnProgress(roots, keys, i, grouped, processed, grouped', processed');
    } else {
      grouped', processed', dropped' := grouped, processed, dropped;
      TurnProgress(roots, keys, i, grouped, processed, grouped', processed');
      HandledLater(roots, keys, table, i, processed);
    }
  }

  /** `merge_subject_containers` (jwz_threading.py:203-245) for a root `c`
      not handled yet and its representative `tc`. The grouping invariant
      holds afterwards with `c` counted as handled; `tc` is handled too, and
      every entry of the grouped list other than `tc` is still in it. */
  method MergeSubjectContainers(a: Arena, c: nat, tc: nat, grouped: seq<nat>, processed: set<nat>,
                                ghost ns0: seq<Container>, ghost rank0: seq<nat>, ghost roots: seq<nat>, ghost dropped: set<nat>)
    returns (grouped': seq<nat>, processed': set<nat>, ghost dropped': set<nat>)
    requires a.Valid() && GroupState(ns0, rank0, a.dead, roots, a.nodes, a.rank, grouped, processed, dropped)
    requires c in roots && tc in roots && c != tc && c !in processed
    modifies a
    ensures a.Valid() && a.dead == old(a.dead)
    ensures GroupState(ns0, rank0, a.dead, roots, a.nodes, a.rank, grouped', processed', dropped')
    ensures processed' == processed + {tc, c}
    ensures forall k :: 0 <= k < |grouped| && grouped[k] != tc ==> grouped[k] in grouped'
    ensures a.nodes == Merged(old(a.nodes), old(a.rank), c, tc, grouped, processed)
    ensures forall x :: x in grouped' ==> x in grouped || x >= |old(a.nodes)| || x !in processed
    ensures forall d :: d in dropped' ==>
      d in dropped || (d == c && tc in processed && tc !in grouped && grouped' == grouped)
  {
    ghost var n := |a.nodes|;
    if tc in processed {
      processed' := processed + {tc, c};
      assert processed + {c} == processed';
      grouped', dropped' := MergeWithHandled(a, c, tc, grouped, processed, ns0, rank0, roots, dropped);
      if grouped' != grouped {
        ReplacedEntries(grouped, tc, n);
      }
    } else {
      grouped' := MergeWithFresh(a, c, tc, grouped, processed, ns0, rank0, roots, dropped);
      processed' := processed + {tc, c};
      dropped' := dropped;
    }
  }

  /** The first half of `merge_subject_containers` (jwz_threading.py:205-221):
      the representative was handled before. */
  method MergeWithHandled(a: Arena, c: nat, tc: nat, grouped: seq<nat>, processed: set<nat>,
                          ghost ns0: seq<Container>, ghost rank0: seq<nat>, ghost roots: seq<nat>, ghost dropped: set<nat>)
    returns (grouped': seq<nat>, ghost dropped': set<nat>)
    requires a.Valid() && GroupState(ns0, rank0, a.dead, roots, a.nodes, a.rank, grouped, processed, dropped)
    requires c in roots && tc in roots && c != tc && c !in processed && tc in processed
    modifies a
    ensures a.Valid() && a.dead == old(a.dead)
    ensures GroupState(ns0, rank0, a.dead, roots, a.nodes, a.rank, grouped', processed + {c}, dropped')
    ensures forall k :: 0 <= k < |grouped| && grouped[k] != tc ==> grouped[k] in grouped'
    ensures a.nodes == Merged(old(a.nodes), old(a.rank), c, tc, grouped, processed)
    ensures !IsReply(old(a.nodes), old(a.rank), c) ==> grouped' == Replaced(grouped, tc, |old(a.nodes)|) && dropped' == dropped - {tc}
    ensures IsReply(old(a.nodes), old(a.rank), c) ==> grouped' == grouped
    ensures IsReply(old(a.nodes), old(a.rank), c) ==> dropped' == if tc in grouped then dropped else dropped + {c}
  {
    RootLive(ns0, rank0, a.dead, roots, a.nodes, a.rank, grouped, processed, dropped, c);
    if !IsReplySubject(GetSubject(a.nodes, a.rank, c)) {
      // Not a reply: a new dummy becomes the parent of both, in the place
      // of `tc` in the grouped list or at its end.
      assert processed + {c} == processed + {tc, c};
      grouped' := DummyInPlace(a, tc, c, grouped, processed, ns0, rank0, roots, dropped);
      dropped' := dropped - {tc};
    } else if tc in grouped {
      // A reply goes under a representative still in the grouped list ...
      ReplyKeeps(ns0, rank0, a.dead, roots, a.nodes, a.rank, grouped, processed, dropped, tc, c);
      a.AddChild(tc, c);
      grouped', dropped' := grouped, dropped;
    } else {
      // ... and is dropped otherwise.
      DropKeeps(ns0, rank0, a.dead, roots, a.nodes, a.rank, grouped, processed, dropped, c);
      grouped', dropped' := grouped, dropped + {c};
    }
  }

  /** Two roots of which neither is a reply become siblings under a new
      dummy, which takes the place of `tc` in the grouped list or goes at its
      end (jwz_threading.py:208-217). */
  method DummyInPlace(a: Arena, tc: nat, c: nat, grouped: seq<nat>, processed: set<nat>,
                      ghost ns0: seq<Container>, ghost rank0: seq<nat>, ghost roots: seq<nat>, ghost dropped: set<nat>)
    returns (grouped': seq<nat>)
    requires a.Valid() && GroupState(ns0, rank0, a.dead, roots, a.nodes, a.rank, grouped, processed, dropped)
    requires c in roots && tc in roots && c != tc && c !in processed
    modifies a
    ensures a.Valid() && a.dead == old(a.dead)
    ensures GroupState(ns0, rank0, a.dead, roots, a.nodes, a.rank, grouped', processed + {tc, c}, dropped - {tc})
    ensures forall k :: 0 <= k < |grouped| && grouped[k] != tc ==> grouped[k] in grouped'
    ensures a.nodes == UnderNewDummy(old(a.nodes), tc, c) && grouped' == Replaced(grouped, tc, |old(a.nodes)|)
  {
    var dummy := UnderDummy(a, tc, c, grouped, processed, ns0, rank0, roots, dropped);
    grouped' := Replaced(grouped, tc, dummy);
    forall k | 0 <= k < |grouped| && grouped[k] != tc ensures grouped[k] in grouped' {
      assert grouped'[k] == grouped[k];
    }
  }

  /** Where two roots that were not handled yet end up
      (jwz_threading.py:224-245): under `tc` when `tc` is a dummy and `c`
      is not, or when they are alike and only `c` has a reply subject;
      under `c` in the mirror cases; otherwise under a new dummy, which
      takes index `|ns|`. */
  function FreshTop(ns: seq<Container>, ghost rank: seq<nat>, c: nat, tc: nat): (top: nat)
    requires Ranked(ns, rank) && c < |ns| && tc < |ns|
    ensures top == tc || top == c || top == |ns|
  {
    var tcDummy, cDummy := IsDummy(ns[tc]), IsDummy(ns[c]);
    var tcReply, cReply := IsReply(ns, rank, tc), IsReply(ns, rank, c);
    if (tcDummy && !cDummy) || (tcDummy == cDummy && !tcReply && cReply) then tc
    else if (!tcDummy && cDummy) || (tcDummy == cDummy && tcReply && !cReply) then c
    else |ns|
  }

  /** The choice does not depend on which of the two came first. */
  lemma FreshTopSymmetric(ns: seq<Container>, rank: seq<nat>, c: nat, tc: nat)
    requires Ranked(ns, rank) && c < |ns| && tc < |ns|
    ensures FreshTop(ns, rank, c, tc) == FreshTop(ns, rank, tc, c)
  {
  }

  /** The second half of `merge_subject_containers`
      (jwz_threading.py:222-245): neither has been handled. The container
      chosen by `FreshTop` joins the grouped list, and the other one, or
      both, become its children. */
  method MergeWithFresh(a: Arena, c: nat, tc: nat, grouped: seq<nat>, processed: set<nat>,
                        ghost ns0: seq<Container>, ghost rank0: seq<nat>, ghost roots: seq<nat>, ghost dropped: set<nat>)
    returns (grouped': seq<nat>)
    requires a.Valid() && GroupState(ns0, rank0, a.dead, roots, a.nodes, a.rank, grouped, processed, dropped)
    requires c in roots && tc in roots && c != tc && c !in processed && tc !in processed
    modifies a
    ensures a.Valid() && a.dead == old(a.dead)
    ensures GroupState(ns0, rank0, a.dead, roots, a.nodes, a.rank, grouped', processed + {tc, c}, dropped)
    ensures forall k :: 0 <= k < |grouped| ==> grouped[k] in grouped'
    ensures grouped' == grouped + [FreshTop(old(a.nodes), old(a.rank), c, tc)]
    ensures var top := FreshTop(old(a.nodes), old(a.rank), c, tc);
      && (top != tc ==> a.nodes[tc].parent == Some(top))
      && (top != c ==> a.nodes[c].parent == Some(top))
      && (top == tc ==> a.nodes == Adopted(old(a.nodes), tc, c))
      && (top == c ==> a.nodes == Adopted(old(a.nodes), c, tc))
      && (top == |old(a.nodes)| ==> a.nodes == UnderNewDummy(old(a.nodes), tc, c))
    ensures a.nodes == Merged(old(a.nodes), old(a.rank), c, tc, grouped, processed)
  {
    RootLive(ns0, rank0, a.dead, roots, a.nodes, a.rank, grouped, processed, dropped, c);
    RootLive(ns0, rank0, a.dead, roots, a.nodes, a.rank, grouped, processed, dropped, tc);
    var top := FreshTop(a.nodes, a.rank, c, tc);
    if top == tc {
      // `tc` adopts `c`: a dummy takes a message, or else a non-reply takes
      // a reply (and the other way round in the next branch).
      AdoptRoot(a, tc, c, grouped, processed, ns0, rank0, roots, dropped);
      grouped' := grouped + [tc];
    } else if top == c {
      assert processed + {c, tc} == processed + {tc, c};
      AdoptRoot(a, c, tc, grouped, processed, ns0, rank0, roots, dropped);
      grouped' := grouped + [c];
    } else {
      // Both replies or neither: siblings under a new dummy.
      grouped' := SiblingsAppended(a, tc, c, grouped, processed, ns0, rank0, roots, dropped);
    }
  }

  /** Two roots not handled yet, both replies or neither, become siblings
      under a new dummy, which goes at the end of the grouped list
      (jwz_threading.py:240-245). */
  method SiblingsAppended(a: Arena, tc: nat, c: nat, grouped: seq<nat>, processed: set<nat>,
                          ghost ns0: seq<Container>, ghost rank0: seq<nat>, ghost roots: seq<nat>, ghost dropped: set<nat>)
    returns (grouped': seq<nat>)
    requires a.Valid() && GroupState(ns0, rank0, a.dead, roots, a.nodes, a.rank, grouped, processed, dropped)
    requires c in roots && tc in roots && c != tc && c !in processed && tc !in processed
    modifies a
    ensures a.Valid() && a.dead == old(a.dead)
    ensures GroupState(ns0, rank0, a.dead, roots, a.nodes, a.rank, grouped', processed + {tc, c}, dropped)
    ensures a.nodes == UnderNewDummy(old(a.nodes), tc, c) && grouped' == grouped + [|old(a.nodes)|]
  {
    WaitingRoot(ns0, rank0, a.dead, roots, a.nodes, a.rank, grouped, processed, dropped, tc);
    assert tc !in dropped;
    var dummy := UnderDummy(a, tc, c, grouped, processed, ns0, rank0, roots, dropped);
    grouped' := grouped + [dummy];
    assert grouped' == Replaced(grouped, tc, dummy);
    assert dropped - {tc} == dropped;
  }
}
