/** `prune_empty_containers` (jwz_threading.py:65-96).

    The phase is stated twice: `PruneTrees` on trees of container records
    (what the forest looks like afterwards), and `PruneList`, the recursive
    method that reassigns child lists and parents in the arena as the source
    does. `PruneList` is proved to turn the arena's forest into
    `PruneTrees` of the old forest; the shape of the pruned forest is
    proved once, on `PruneTrees`. */
module Pruning {
  import opened Wrappers
  import opened Mail
  import opened Containers

  /** A container subtree as a value: the container's index, its message
      and the subtrees of its children, in order. */
  datatype Tree = Node(id: nat, message: Option<EmailMessage>, kids: seq<Tree>)

  /** The pruning of a sibling list; `top` holds for the root set, whose
      containers have no parent. */
  function PruneTrees(ts: seq<Tree>, top: bool): (r: seq<Tree>)
    decreases ts
  {
    if ts == [] then [] else PruneOne(ts[0], top) + PruneTrees(ts[1..], top)
  }

  /** What one container of a sibling list turns into (jwz_threading.py:
      71-94): its children are pruned first; a dummy left without children
      disappears; a dummy with children is replaced by them, except at the
      top level, where it stays unless it has exactly one child. */
  function PruneOne(t: Tree, top: bool): (r: seq<Tree>)
    decreases t
  {
    var kids := PruneTrees(t.kids, false);
    if t.message.Some? then [Node(t.id, t.message, kids)]
    else if kids == [] then []
    else if !top then kids
    else if |kids| == 1 then kids
    else [Node(t.id, None, kids)]
  }

  /** A tree of real containers only. */
  predicate RealTree(t: Tree)
    decreases t
  {
    t.message.Some? && forall k :: k in t.kids ==> RealTree(k)
  }

  /** A pruned top-level tree: a real container, or a dummy grouping at
      least two children, with real containers only below it. */
  predicate PrunedRoot(t: Tree) {
    (t.message.Some? || |t.kids| >= 2) && forall k :: k in t.kids ==> RealTree(k)
  }

  lemma PruneTreesAppend(ts: seq<Tree>, us: seq<Tree>, top: bool)
    ensures PruneTrees(ts + us, top) == PruneTrees(ts, top) + PruneTrees(us, top)
    decreases |ts|
  {
    if ts != [] {
      assert (ts + us)[1..] == ts[1..] + us;
      PruneTreesAppend(ts[1..], us, top);
    } else {
      assert ts + us == us;
    }
  }

  /** Below the top level only real containers remain; at the top level
      every tree is a real container or a dummy with two or more children,
      and real containers only below. No childless dummy survives. */
  lemma {:induction false} PrunedShape(ts: seq<Tree>, top: bool)
    ensures forall t :: t in PruneTrees(ts, top) ==> PrunedRoot(t)
    ensures !top ==> forall t :: t in PruneTrees(ts, top) ==> RealTree(t)
    decreases ts
  {
    if ts != [] {
      PrunedShapeOne(ts[0], top);
      PrunedShape(ts[1..], top);
    }
  }

  lemma {:induction false} PrunedShapeOne(t: Tree, top: bool)
    ensures forall u :: u in PruneOne(t, top) ==> PrunedRoot(u)
    ensures !top ==> forall u :: u in PruneOne(t, top) ==> RealTree(u)
    decreases t
  {
    PrunedShape(t.kids, false);
    var kids := PruneTrees(t.kids, false);
    forall u | u in kids ensures PrunedRoot(u) {
      assert RealTree(u);
    }
  }

  /** The real containers of a forest in pre-order. */
  function Reals(ts: seq<Tree>): (ids: seq<nat>)
    decreases ts
  {
    if ts == [] then [] else RealsOne(ts[0]) + Reals(ts[1..])
  }

  function RealsOne(t: Tree): (ids: seq<nat>)
    decreases t
  {
    (if t.message.Some? then [t.id] else []) + Reals(t.kids)
  }

  lemma {:induction false} RealsAppend(ts: seq<Tree>, us: seq<Tree>)
    ensures Reals(ts + us) == Reals(ts) + Reals(us)
    decreases |ts|
  {
    if ts == [] {
      assert ts + us == us;
    } else {
      assert (ts + us)[1..] == ts[1..] + us;
      RealsAppend(ts[1..], us);
    }
  }

  /** Pruning keeps every real container, in the same pre-order. */
  lemma {:induction false} PruneKeepsReals(ts: seq<Tree>, top: bool)
    ensures Reals(PruneTrees(ts, top)) == Reals(ts)
    decreases ts
  {
    if ts != [] {
      PruneKeepsRealsOne(ts[0], top);
      PruneKeepsReals(ts[1..], top);
      RealsAppend(PruneOne(ts[0], top), PruneTrees(ts[1..], top));
    }
  }

  lemma {:induction false} PruneKeepsRealsOne(t: Tree, top: bool)
    ensures Reals(PruneOne(t, top)) == RealsOne(t)
    decreases t
  {
    PruneKeepsReals(t.kids, false);
    var kids := PruneTrees(t.kids, false);
    var u := Node(t.id, t.message, kids);
    assert Reals([u]) == RealsOne(u) by {
      assert [u][1..] == [];
    }
  }

  /** Every entry of `xs` is an index below `n`. */
  predicate Within(xs: seq<nat>, n: nat) {
    forall i :: 0 <= i < |xs| ==> xs[i] < n
  }

  /** The containers of the subtree of `x`, `x` included. */
  ghost function Sub(ns: seq<Container>, rank: seq<nat>, x: nat): set<nat>
    requires Ranked(ns, rank) && x < |ns|
  {
    set y | 0 <= y < |ns| && Reaches(ns, rank, x, y)
  }

  /** The containers of the subtrees of the entries of `xs`. */
  ghost function SubAll(ns: seq<Container>, rank: seq<nat>, xs: seq<nat>): set<nat>
    requires Ranked(ns, rank) && Within(xs, |ns|)
  {
    set y | 0 <= y < |ns| && BelowSome(ns, rank, xs, y)
  }

  /** `y` is in the subtree of some entry of `xs`. */
  ghost predicate BelowSome(ns: seq<Container>, rank: seq<nat>, xs: seq<nat>, y: nat)
    requires Ranked(ns, rank) && Within(xs, |ns|)
  {
    exists i :: 0 <= i < |xs| && Reaches(ns, rank, xs[i], y)
  }

  /** Parents and children agree at every container of `s`. */
  ghost predicate LinkedIn(ns: seq<Container>, s: set<nat>)
    requires InRange(ns)
  {
    forall y :: y in s && y < |ns| ==> LinkedAt(ns, {}, y)
  }

  lemma SubAllAppend(ns: seq<Container>, rank: seq<nat>, xs: seq<nat>, ys: seq<nat>)
    requires Ranked(ns, rank) && Within(xs, |ns|) && Within(ys, |ns|)
    ensures Within(xs + ys, |ns|)
    ensures SubAll(ns, rank, xs + ys) == SubAll(ns, rank, xs) + SubAll(ns, rank, ys)
  {
    var zs := xs + ys;
    forall y | y in SubAll(ns, rank, xs) ensures y in SubAll(ns, rank, zs) {
      var i :| 0 <= i < |xs| && Reaches(ns, rank, xs[i], y);
      assert zs[i] == xs[i];
    }
    forall y | y in SubAll(ns, rank, ys) ensures y in SubAll(ns, rank, zs) {
      var i :| 0 <= i < |ys| && Reaches(ns, rank, ys[i], y);
      assert zs[|xs| + i] == ys[i];
    }
    forall y | y in SubAll(ns, rank, zs) ensures y in SubAll(ns, rank, xs) + SubAll(ns, rank, ys) {
      var i :| 0 <= i < |zs| && Reaches(ns, rank, zs[i], y);
      if i < |xs| {
        assert zs[i] == xs[i];
      } else {
        assert zs[i] == ys[i - |xs|];
      }
    }
  }

  lemma SubAllOne(ns: seq<Container>, rank: seq<nat>, x: nat)
    requires Ranked(ns, rank) && x < |ns|
    ensures Within([x], |ns|) && SubAll(ns, rank, [x]) == Sub(ns, rank, x)
  {
    forall y | y in Sub(ns, rank, x) ensures y in SubAll(ns, rank, [x]) {
      assert [x][0] == x;
    }
  }

  /** The subtree of a list extended by one entry. */
  lemma SubAllSnoc(ns: seq<Container>, rank: seq<nat>, xs: seq<nat>, i: nat)
    requires Ranked(ns, rank) && Within(xs, |ns|) && i < |xs|
    ensures Within(xs[..i], |ns|) && Within(xs[..i + 1], |ns|)
    ensures SubAll(ns, rank, xs[..i + 1]) == SubAll(ns, rank, xs[..i]) + Sub(ns, rank, xs[i])
  {
    assert xs[..i + 1] == xs[..i] + [xs[i]];
    SubAllAppend(ns, rank, xs[..i], [xs[i]]);
    SubAllOne(ns, rank, xs[i]);
  }

  /** The subtree of `x` is `x` and the subtrees of its children, all of
      which rank below `x`. */
  lemma SubOfChildren(ns: seq<Container>, rank: seq<nat>, x: nat)
    requires Ranked(ns, rank) && x < |ns|
    ensures Within(ns[x].children, |ns|)
    ensures Sub(ns, rank, x) == {x} + SubAll(ns, rank, ns[x].children)
    ensures forall y :: y in SubAll(ns, rank, ns[x].children) ==> rank[y] < rank[x]
  {
    var cs := ns[x].children;
    forall y | y in SubAll(ns, rank, cs) ensures rank[y] < rank[x] && y in Sub(ns, rank, x) {
      var i :| 0 <= i < |cs| && Reaches(ns, rank, cs[i], y);
      ReachesRank(ns, rank, cs[i], y);
    }
    forall y | y in Sub(ns, rank, x) && y != x ensures y in SubAll(ns, rank, cs) {
      var i :| 0 <= i < |cs| && Reaches(ns, rank, cs[i], y);
      assert BelowSome(ns, rank, cs, y);
    }
    assert x in Sub(ns, rank, x);
  }

  /** Within a subtree whose parents and children agree, every container
      but the top names a parent inside the subtree, of no larger rank,
      that lists it among its children. */
  lemma {:induction false} ReachesParent(ns: seq<Container>, rank: seq<nat>, x: nat, z: nat)
    requires Ranked(ns, rank) && x < |ns| && z < |ns| && LinkedIn(ns, Sub(ns, rank, x))
    ensures Reaches(ns, rank, x, z) && x != z ==>
      && ns[z].parent.Some? && ns[z].parent.value in Sub(ns, rank, x)
      && rank[ns[z].parent.value] <= rank[x]
      && z in ns[ns[z].parent.value].children
    decreases rank[x]
  {
    if Reaches(ns, rank, x, z) && x != z {
      var i :| 0 <= i < |ns[x].children| && Reaches(ns, rank, ns[x].children[i], z);
      var c := ns[x].children[i];
      assert x in Sub(ns, rank, x);
      assert LinkedAt(ns, {}, x);
      if c == z {
        assert ns[z].parent == Some(x);
      } else {
        SubOfChildren(ns, rank, x);
        assert Within([c], |ns|) && [c][0] == c;
        forall y | y in Sub(ns, rank, c) ensures y in Sub(ns, rank, x) {
          assert y in SubAll(ns, rank, ns[x].children);
        }
        ReachesParent(ns, rank, c, z);
        ReachesTrans(ns, rank, x, c, ns[z].parent.value);
        ReachesRank(ns, rank, x, ns[z].parent.value);
      }
    }
  }

  /** Two subtrees that share a container are nested. */
  lemma {:induction false} CommonAncestry(ns: seq<Container>, rank: seq<nat>, a: nat, b: nat, z: nat)
    requires Ranked(ns, rank) && a < |ns| && b < |ns| && z < |ns|
    requires LinkedIn(ns, Sub(ns, rank, a)) && LinkedIn(ns, Sub(ns, rank, b))
    ensures Reaches(ns, rank, a, z) && Reaches(ns, rank, b, z) ==> Reaches(ns, rank, a, b) || Reaches(ns, rank, b, a)
    decreases MaxRank(rank) - rank[z]
  {
    if Reaches(ns, rank, a, z) && Reaches(ns, rank, b, z) && z != a && z != b {
      ReachesParent(ns, rank, a, z);
      ReachesParent(ns, rank, b, z);
      var p := ns[z].parent.value;
      assert rank[z] < rank[p] by {
        var k := FirstIndex(ns[p].children, z);
      }
      CommonAncestry(ns, rank, a, b, p);
      ReachesChild(ns, rank, a, p, FirstIndex(ns[p].children, z));
    }
  }

  /** The requirements of pruning a sibling list: the entries are distinct,
      rank below `bound`, and name `owner` as their parent; `owner`, when
      there is one, ranks at least `bound`; and parents and children agree
      throughout the subtrees. */
  ghost predicate SiblingList(ns: seq<Container>, rank: seq<nat>, list: seq<nat>, owner: Option<nat>, bound: nat) {
    && Ranked(ns, rank) && Within(list, |ns|) && NoDup(list)
    && (forall i :: 0 <= i < |list| ==> rank[list[i]] < bound && ns[list[i]].parent == owner)
    && (owner.Some? ==> owner.value < |ns| && rank[owner.value] >= bound)
    && LinkedIn(ns, SubAll(ns, rank, list))
  }

  /** The subtrees of distinct siblings are disjoint. */
  lemma SiblingsDisjoint(ns: seq<Container>, rank: seq<nat>, list: seq<nat>, owner: Option<nat>, bound: nat, i: nat, j: nat)
    requires SiblingList(ns, rank, list, owner, bound) && i < |list| && j < |list| && i != j
    ensures Sub(ns, rank, list[i]) !! Sub(ns, rank, list[j])
  {
    var a, b := list[i], list[j];
    forall y | y in Sub(ns, rank, a) ensures y in SubAll(ns, rank, list) {
    }
    forall y | y in Sub(ns, rank, b) ensures y in SubAll(ns, rank, list) {
    }
    ReachesParent(ns, rank, a, b);
    ReachesParent(ns, rank, b, a);
    forall z | 0 <= z < |ns| ensures !(Reaches(ns, rank, a, z) && Reaches(ns, rank, b, z)) {
      CommonAncestry(ns, rank, a, b, z);
    }
  }

  /** An entry's subtree is disjoint from those of the entries before it. */
  lemma SiblingDisjointFromPrefix(ns: seq<Container>, rank: seq<nat>, list: seq<nat>, owner: Option<nat>, bound: nat, i: nat)
    requires SiblingList(ns, rank, list, owner, bound) && i < |list|
    ensures Within(list[..i], |ns|) && Sub(ns, rank, list[i]) !! SubAll(ns, rank, list[..i])
  {
    forall y | y in SubAll(ns, rank, list[..i]) ensures y !in Sub(ns, rank, list[i]) {
      var j :| 0 <= j < i && Reaches(ns, rank, list[..i][j], y);
      SiblingsDisjoint(ns, rank, list, owner, bound, i, j);
      assert y in Sub(ns, rank, list[j]);
    }
  }

  /** The subtree of container `x` as a `Tree`. */
  ghost function ToTree(ns: seq<Container>, rank: seq<nat>, x: nat): Tree
    requires Ranked(ns, rank) && x < |ns|
    decreases rank[x]
  {
    var cs := ns[x].children;
    Node(x, ns[x].message, seq(|cs|, i requires 0 <= i < |cs| => ToTree(ns, rank, cs[i])))
  }

  /** The subtrees of the entries of a sibling list. */
  ghost function ToForest(ns: seq<Container>, rank: seq<nat>, xs: seq<nat>): (ts: seq<Tree>)
    requires Ranked(ns, rank) && Within(xs, |ns|)
    ensures |ts| == |xs| && forall i :: 0 <= i < |xs| ==> ts[i] == ToTree(ns, rank, xs[i])
  {
    seq(|xs|, i requires 0 <= i < |xs| => ToTree(ns, rank, xs[i]))
  }

  lemma ToTreeKids(ns: seq<Container>, rank: seq<nat>, x: nat)
    requires Ranked(ns, rank) && x < |ns|
    ensures Within(ns[x].children, |ns|)
    ensures ToTree(ns, rank, x) == Node(x, ns[x].message, ToForest(ns, rank, ns[x].children))
  {
  }

  lemma ToForestAppend(ns: seq<Container>, rank: seq<nat>, xs: seq<nat>, ys: seq<nat>)
    requires Ranked(ns, rank) && Within(xs, |ns|) && Within(ys, |ns|)
    ensures Within(xs + ys, |ns|)
    ensures ToForest(ns, rank, xs + ys) == ToForest(ns, rank, xs) + ToForest(ns, rank, ys)
  {
  }

  /** `ns1` and `ns2` have the same children and messages at the
      containers of `s`. */
  ghost predicate ShapeAgrees(ns1: seq<Container>, ns2: seq<Container>, s: set<nat>) {
    && |ns1| == |ns2|
    && forall y :: y in s && y < |ns1| ==> ns2[y].children == ns1[y].children && ns2[y].message == ns1[y].message
  }

  lemma SubAllAgree(ns1: seq<Container>, ns2: seq<Container>, rank: seq<nat>, xs: seq<nat>)
    requires Ranked(ns1, rank) && Ranked(ns2, rank) && |ns1| == |ns2| && Within(xs, |ns1|)
    requires forall i :: 0 <= i < |xs| ==> Sub(ns2, rank, xs[i]) == Sub(ns1, rank, xs[i])
    ensures SubAll(ns2, rank, xs) == SubAll(ns1, rank, xs)
  {
    forall y | y in SubAll(ns1, rank, xs) ensures y in SubAll(ns2, rank, xs) {
      var i :| 0 <= i < |xs| && Reaches(ns1, rank, xs[i], y);
      assert y in Sub(ns1, rank, xs[i]);
    }
    forall y | y in SubAll(ns2, rank, xs) ensures y in SubAll(ns1, rank, xs) {
      var i :| 0 <= i < |xs| && Reaches(ns2, rank, xs[i], y);
      assert y in Sub(ns2, rank, xs[i]);
    }
  }

  /** A subtree is determined by the children and messages of its own
      containers: where two arenas agree on them, the subtree and its tree
      are the same in both. */
  lemma {:induction false} AgreeTree(ns1: seq<Container>, ns2: seq<Container>, rank: seq<nat>, x: nat)
    requires Ranked(ns1, rank) && Ranked(ns2, rank) && x < |ns1|
    requires ShapeAgrees(ns1, ns2, Sub(ns1, rank, x))
    ensures Sub(ns2, rank, x) == Sub(ns1, rank, x) && ToTree(ns2, rank, x) == ToTree(ns1, rank, x)
    decreases rank[x]
  {
    SubOfChildren(ns1, rank, x);
    SubOfChildren(ns2, rank, x);
    assert x in Sub(ns1, rank, x);
    var cs := ns1[x].children;
    forall i | 0 <= i < |cs|
      ensures Sub(ns2, rank, cs[i]) == Sub(ns1, rank, cs[i]) && ToTree(ns2, rank, cs[i]) == ToTree(ns1, rank, cs[i])
    {
      forall y | y in Sub(ns1, rank, cs[i]) ensures y in Sub(ns1, rank, x) {
        assert BelowSome(ns1, rank, cs, y);
      }
      AgreeTree(ns1, ns2, rank, cs[i]);
    }
    SubAllAgree(ns1, ns2, rank, cs);
  }

  /** The same for a sibling list. */
  lemma AgreeForest(ns1: seq<Container>, ns2: seq<Container>, rank: seq<nat>, xs: seq<nat>)
    requires Ranked(ns1, rank) && Ranked(ns2, rank) && Within(xs, |ns1|)
    requires ShapeAgrees(ns1, ns2, SubAll(ns1, rank, xs))
    ensures SubAll(ns2, rank, xs) == SubAll(ns1, rank, xs) && ToForest(ns2, rank, xs) == ToForest(ns1, rank, xs)
  {
    forall i | 0 <= i < |xs| ensures Sub(ns2, rank, xs[i]) == Sub(ns1, rank, xs[i]) && ToTree(ns2, rank, xs[i]) == ToTree(ns1, rank, xs[i]) {
      forall y | y in Sub(ns1, rank, xs[i]) ensures y in SubAll(ns1, rank, xs) {
        assert BelowSome(ns1, rank, xs, y);
      }
      AgreeTree(ns1, ns2, rank, xs[i]);
    }
    SubAllAgree(ns1, ns2, rank, xs);
  }

  /** Subtrees are closed under taking children. */
  lemma SubAllClosed(ns: seq<Container>, rank: seq<nat>, xs: seq<nat>, y: nat, k: nat)
    requires Ranked(ns, rank) && Within(xs, |ns|) && y in SubAll(ns, rank, xs) && k < |ns[y].children|
    ensures ns[y].children[k] in SubAll(ns, rank, xs)
  {
    var i :| 0 <= i < |xs| && Reaches(ns, rank, xs[i], y);
    ReachesChild(ns, rank, xs[i], y, k);
  }

  /** Agreement of parents and children carries over to an arena with the
      same records in a set closed under children. */
  lemma LinkedInKept(ns1: seq<Container>, ns2: seq<Container>, s: set<nat>)
    requires InRange(ns1) && InRange(ns2) && |ns1| == |ns2| && LinkedIn(ns1, s)
    requires forall y :: y in s && y < |ns1| ==> ns2[y] == ns1[y]
    requires forall y, k :: y in s && y < |ns1| && 0 <= k < |ns1[y].children| ==> ns1[y].children[k] in s
    ensures LinkedIn(ns2, s)
  {
    forall y | y in s && y < |ns2| ensures LinkedAt(ns2, {}, y) {
      assert LinkedAt(ns1, {}, y);
    }
  }

  /** `ns2` is `ns1` with the parent of every entry of `kids` set to `p`. */
  ghost predicate Reparented(ns1: seq<Container>, ns2: seq<Container>, kids: seq<nat>, p: Option<nat>) {
    && |ns2| == |ns1|
    && forall y :: 0 <= y < |ns1| ==> ns2[y] == if y in kids then ns1[y].(parent := p) else ns1[y]
  }

  /** Giving new parents to containers whose parent lies outside a set
      keeps parents and children in agreement inside it. */
  lemma ReparentedKeepsLinked(ns1: seq<Container>, ns2: seq<Container>, kids: seq<nat>, p: Option<nat>, s: set<nat>)
    requires InRange(ns1) && InRange(ns2) && Reparented(ns1, ns2, kids, p) && LinkedIn(ns1, s)
    requires forall k :: k in kids ==> k < |ns1| && ns1[k].parent.Some? && ns1[k].parent.value !in s
    ensures LinkedIn(ns2, s)
  {
    forall y | y in s && y < |ns2| ensures LinkedAt(ns2, {}, y) {
      assert LinkedAt(ns1, {}, y);
      forall k | 0 <= k < |ns2[y].children| ensures ns2[ns2[y].children[k]].parent == Some(y) {
        assert ns1[ns1[y].children[k]].parent == Some(y);
      }
    }
  }

  /** Setting parents leaves children and messages, hence every subtree
      and its tree, as they were. */
  lemma ReparentedKeepsTrees(ns1: seq<Container>, ns2: seq<Container>, rank: seq<nat>, kids: seq<nat>, p: Option<nat>, xs: seq<nat>)
    requires Ranked(ns1, rank) && Ranked(ns2, rank) && Reparented(ns1, ns2, kids, p) && Within(xs, |ns1|)
    ensures SubAll(ns2, rank, xs) == SubAll(ns1, rank, xs) && ToForest(ns2, rank, xs) == ToForest(ns1, rank, xs)
  {
    AgreeForest(ns1, ns2, rank, xs);
  }

  /** `child.parent = container.parent` for every child of a dummy below
      the top level (jwz_threading.py:89-91). */
  method Reparent(a: Arena, kids: seq<nat>, p: Option<nat>)
    modifies a
    ensures a.rank == old(a.rank) && a.dead == old(a.dead)
    ensures Reparented(old(a.nodes), a.nodes, kids, p)
  {
    for k := 0 to |kids|
      invariant a.rank == old(a.rank) && a.dead == old(a.dead)
      invariant Reparented(old(a.nodes), a.nodes, kids[..k], p)
    {
      if kids[k] < |a.nodes| {
        a.nodes := a.nodes[kids[k] := a.nodes[kids[k]].(parent := p)];
      }
      assert kids[..k + 1] == kids[..k] + [kids[k]];
    }
    assert kids[..|kids|] == kids;
  }

  /** What pruning the children of `x` leaves, from arena `ns0` to arena
      `ns`: `x` holds the list `kids` as its children and is otherwise
      unchanged, only the subtree of `x` changed, messages stayed, the
      entries of `kids` are distinct, name `x` as their parent and hold the
      pruned forest of the old children, and parents and children agree
      below them. */
  ghost predicate ChildrenPruned(ns0: seq<Container>, ns: seq<Container>, rank: seq<nat>, x: nat, kids: seq<nat>)
    requires Ranked(ns0, rank) && x < |ns0|
  {
    && |ns| == |ns0| && Ranked(ns, rank)
    && ns[x] == ns0[x].(children := kids)
    && (forall y :: 0 <= y < |ns| && y !in Sub(ns0, rank, x) ==> ns[y] == ns0[y])
    && (forall y :: 0 <= y < |ns| ==> ns[y].message == ns0[y].message)
    && Within(kids, |ns|) && NoDup(kids)
    && (forall i :: 0 <= i < |kids| ==> ns[kids[i]].parent == Some(x))
    && x !in SubAll(ns, rank, kids) && SubAll(ns, rank, kids) <= Sub(ns0, rank, x)
    && LinkedIn(ns, SubAll(ns, rank, kids))
    && ToForest(ns, rank, kids) == PruneTrees(ToTree(ns0, rank, x).kids, false)
  }

  /** What pruning container `x`, whose parent is `owner`, leaves: only the
      subtree of `x` changed, messages stayed, and the containers `piece`
      put in its place are distinct, name `owner` as their parent, lie in
      the old subtree of `x`, have parents and children in agreement below
      them and hold `PruneOne` of the old tree of `x`. */
  ghost predicate ContainerPruned(ns0: seq<Container>, ns: seq<Container>, rank: seq<nat>, x: nat, owner: Option<nat>, piece: seq<nat>)
    requires Ranked(ns0, rank) && x < |ns0|
  {
    // Named, so that a caller passes it on as one fact.
    var holds :=
      && |ns| == |ns0| && Ranked(ns, rank)
      && (forall y :: 0 <= y < |ns| && y !in Sub(ns0, rank, x) ==> ns[y] == ns0[y])
      && (forall y :: 0 <= y < |ns| ==> ns[y].message == ns0[y].message)
      && Within(piece, |ns|) && NoDup(piece)
      && (forall i :: 0 <= i < |piece| ==> ns[piece[i]].parent == owner)
      && SubAll(ns, rank, piece) <= Sub(ns0, rank, x)
      && LinkedIn(ns, SubAll(ns, rank, piece))
      && ToForest(ns, rank, piece) == PruneOne(ToTree(ns0, rank, x), owner.None?);
    holds
  }

  /** What pruning a sibling list whose entries name `owner` as their
      parent leaves: the same, for the subtrees of all the entries, with
      `PruneTrees` of the old forest. */
  ghost predicate ListPruned(ns0: seq<Container>, ns: seq<Container>, rank: seq<nat>, list: seq<nat>, owner: Option<nat>, result: seq<nat>)
    requires Ranked(ns0, rank) && Within(list, |ns0|)
  {
    && |ns| == |ns0| && Ranked(ns, rank)
    && (forall y :: 0 <= y < |ns| && y !in SubAll(ns0, rank, list) ==> ns[y] == ns0[y])
    && (forall y :: 0 <= y < |ns| ==> ns[y].message == ns0[y].message)
    && Within(result, |ns|) && NoDup(result)
    && (forall i :: 0 <= i < |result| ==> ns[result[i]].parent == owner)
    && SubAll(ns, rank, result) <= SubAll(ns0, rank, list)
    && LinkedIn(ns, SubAll(ns, rank, result))
    && ToForest(ns, rank, result) == PruneTrees(ToForest(ns0, rank, list), owner.None?)
  }

  /** The children of a container form a sibling list below it. */
  lemma ChildrenAreSiblings(ns: seq<Container>, rank: seq<nat>, x: nat)
    requires Ranked(ns, rank) && x < |ns| && LinkedIn(ns, Sub(ns, rank, x))
    ensures SiblingList(ns, rank, ns[x].children, Some(x), rank[x])
    ensures Sub(ns, rank, x) == {x} + SubAll(ns, rank, ns[x].children)
    ensures x !in SubAll(ns, rank, ns[x].children)
  {
    SubOfChildren(ns, rank, x);
    assert x in Sub(ns, rank, x);
    assert LinkedAt(ns, {}, x);
  }

  /** The arena after the pruned children of `x` are stored back. */
  lemma StoredChildren(ns0: seq<Container>, ns1: seq<Container>, rank: seq<nat>, x: nat, kids: seq<nat>)
    requires Ranked(ns0, rank) && x < |ns0| && Within(ns0[x].children, |ns0|)
    requires Sub(ns0, rank, x) == {x} + SubAll(ns0, rank, ns0[x].children)
    requires x !in SubAll(ns0, rank, ns0[x].children)
    requires ListPruned(ns0, ns1, rank, ns0[x].children, Some(x), kids)
    ensures ChildrenPruned(ns0, ns1[x := ns1[x].(children := kids)], rank, x, kids)
  {
    var ns2 := ns1[x := ns1[x].(children := kids)];
    ToTreeKids(ns0, rank, x);
    assert Ranked(ns2, rank) by {
      forall i | 0 <= i < |kids| ensures rank[kids[i]] < rank[x] {
        assert kids[i] in SubAll(ns1, rank, kids) by {
          assert Reaches(ns1, rank, kids[i], kids[i]);
        }
        assert kids[i] in SubAll(ns0, rank, ns0[x].children);
        SubOfChildren(ns0, rank, x);
      }
    }
    AgreeForest(ns1, ns2, rank, kids);
    LinkedInKept(ns1, ns2, SubAll(ns1, rank, kids)) by {
      forall y, k | y in SubAll(ns1, rank, kids) && y < |ns1| && 0 <= k < |ns1[y].children|
        ensures ns1[y].children[k] in SubAll(ns1, rank, kids)
      {
        SubAllClosed(ns1, rank, kids, y, k);
      }
    }
  }

  /** `container.children = prune_empty_containers(container.children)`
      (jwz_threading.py:71): the children of `x` are pruned, as a sibling
      list whose parent is `x`, and the result becomes its child list. */
  method PruneChildren(a: Arena, x: nat, ghost bound: nat) returns (kids: seq<nat>)
    requires Ranked(a.nodes, a.rank) && x < |a.nodes| && a.rank[x] < bound
    requires LinkedIn(a.nodes, Sub(a.nodes, a.rank, x))
    modifies a
    decreases bound, 0
    ensures a.rank == old(a.rank) && a.dead == old(a.dead)
    ensures ChildrenPruned(old(a.nodes), a.nodes, a.rank, x, kids)
  {
    ghost var ns0, rank := a.nodes, a.rank;
    var cs := a.nodes[x].children;
    ChildrenAreSiblings(ns0, rank, x);
    kids := PruneList(a, cs, Some(x), a.rank[x]);
    ghost var ns1 := a.nodes;
    a.nodes := a.nodes[x := a.nodes[x].(children := kids)];
    StoredChildren(ns0, ns1, rank, x, kids);
  }

  /** A dummy left without children is dropped (jwz_threading.py:73-75). */
  lemma DroppedDummy(ns0: seq<Container>, ns: seq<Container>, rank: seq<nat>, x: nat, owner: Option<nat>)
    requires Ranked(ns0, rank) && x < |ns0| && ChildrenPruned(ns0, ns, rank, x, [])
    requires ns0[x].message.None?
    ensures ContainerPruned(ns0, ns, rank, x, owner, [])
  {
    ToTreeKids(ns0, rank, x);
  }

  /** A real container, or a top-level dummy with two or more children,
      stays with its pruned children below it (jwz_threading.py:85-86,
      92-94). */
  lemma KeptContainer(ns0: seq<Container>, ns: seq<Container>, rank: seq<nat>, x: nat, owner: Option<nat>, kids: seq<nat>)
    requires Ranked(ns0, rank) && x < |ns0| && ChildrenPruned(ns0, ns, rank, x, kids)
    requires ns0[x].parent == owner
    requires ns0[x].message.Some? || (owner.None? && |kids| >= 2)
    ensures ContainerPruned(ns0, ns, rank, x, owner, [x])
  {
    SubAllOne(ns, rank, x);
    SubOfChildren(ns, rank, x);
    assert Reaches(ns0, rank, x, x);
    ToTreeKids(ns, rank, x);
    ToTreeKids(ns0, rank, x);
    forall y | y in SubAll(ns, rank, [x]) && y < |ns| ensures LinkedAt(ns, {}, y) {
      if y != x {
        assert y in SubAll(ns, rank, kids);
      }
    }
  }

  /** A dummy with children is replaced by them, which take its parent:
      below the top level always (jwz_threading.py:87-91), at the top level
      when there is one child (jwz_threading.py:79-83). */
  lemma PromotedChildren(ns0: seq<Container>, ns2: seq<Container>, ns: seq<Container>, rank: seq<nat>, x: nat, owner: Option<nat>, kids: seq<nat>)
    requires Ranked(ns0, rank) && x < |ns0| && ChildrenPruned(ns0, ns2, rank, x, kids)
    requires ns0[x].parent == owner && ns0[x].message.None? && kids != []
    requires owner.Some? ==> owner.value < |ns0|
    requires owner.None? ==> |kids| == 1
    requires Reparented(ns2, ns, kids, owner)
    ensures ContainerPruned(ns0, ns, rank, x, owner, kids)
  {
    assert InRange(ns);
    assert Ranked(ns, rank);
    assert SubAll(ns, rank, kids) == SubAll(ns2, rank, kids) && ToForest(ns, rank, kids) == ToForest(ns2, rank, kids) by {
      ReparentedKeepsTrees(ns2, ns, rank, kids, owner, kids);
    }
    assert LinkedIn(ns, SubAll(ns2, rank, kids)) by {
      ReparentedKeepsLinked(ns2, ns, kids, owner, SubAll(ns2, rank, kids));
    }
    assert forall y :: 0 <= y < |ns| && y !in Sub(ns0, rank, x) ==> ns[y] == ns0[y] by {
      forall y | 0 <= y < |ns| && y !in Sub(ns0, rank, x) ensures ns[y] == ns0[y] {
        assert y !in kids by {
          forall i | 0 <= i < |kids| ensures kids[i] in SubAll(ns2, rank, kids) {
            assert Reaches(ns2, rank, kids[i], kids[i]);
          }
        }
      }
    }
    assert ToForest(ns2, rank, kids) == PruneOne(ToTree(ns0, rank, x), owner.None?) by {
      ToTreeKids(ns0, rank, x);
    }
  }

  /** One iteration of the loop of `prune_empty_containers`
      (jwz_threading.py:69-94) on container `x`, whose parent is `owner`:
      the children are pruned and stored back, then the container is kept,
      dropped, or replaced by its children. */
  method PruneContainer(a: Arena, x: nat, ghost owner: Option<nat>, ghost bound: nat) returns (piece: seq<nat>)
    requires Ranked(a.nodes, a.rank) && x < |a.nodes| && a.rank[x] < bound && a.nodes[x].parent == owner
    requires owner.Some? ==> owner.value < |a.nodes| && a.rank[owner.value] >= bound
    requires LinkedIn(a.nodes, Sub(a.nodes, a.rank, x))
    modifies a
    decreases bound, 1
    ensures a.rank == old(a.rank) && a.dead == old(a.dead)
    ensures ContainerPruned(old(a.nodes), a.nodes, a.rank, x, owner, piece)
  {
    ghost var ns0, rank := a.nodes, a.rank;
    var kids := PruneChildren(a, x, bound);
    ghost var ns2 := a.nodes;
    if a.nodes[x].message.None? && |kids| == 0 {
      piece := [];
      DroppedDummy(ns0, ns2, rank, x, owner);
    } else if a.nodes[x].message.None? {
      if a.nodes[x].parent.None? {
        if |kids| == 1 {
          var child := kids[0];
          a.nodes := a.nodes[child := a.nodes[child].(parent := None)];
          piece := [child];
          assert piece == kids;
          assert Reparented(ns2, a.nodes, kids, None);
          PromotedChildren(ns0, ns2, a.nodes, rank, x, owner, kids);
        } else {
          piece := [x];
          KeptContainer(ns0, ns2, rank, x, owner, kids);
        }
      } else {
        Reparent(a, kids, a.nodes[x].parent);
        piece := kids;
        PromotedChildren(ns0, ns2, a.nodes, rank, x, owner, kids);
      }
    } else {
      piece := [x];
      KeptContainer(ns0, ns2, rank, x, owner, kids);
    }
  }

  /** `prune_empty_containers` (jwz_threading.py:65-96) on a sibling list
      whose entries name `owner` as their parent: only their subtrees
      change, and the list returned holds the pruned forest. */
  method PruneList(a: Arena, list: seq<nat>, ghost owner: Option<nat>, ghost bound: nat) returns (result: seq<nat>)
    requires SiblingList(a.nodes, a.rank, list, owner, bound)
    modifies a
    decreases bound, 2
    ensures a.rank == old(a.rank) && a.dead == old(a.dead)
    ensures ListPruned(old(a.nodes), a.nodes, a.rank, list, owner, result)
  {
    ghost var ns0, rank := a.nodes, a.rank;
    result := [];
    for i := 0 to |list|
      invariant a.rank == rank && a.dead == old(a.dead) && Within(list[..i], |ns0|)
      invariant ListPruned(ns0, a.nodes, rank, list[..i], owner, result)
    {
      ghost var nsI := a.nodes;
      NextSibling(ns0, nsI, rank, list, owner, bound, i, result);
      var piece := PruneContainer(a, list[i], owner, bound);
      ListStep(ns0, nsI, a.nodes, rank, list, owner, bound, i, result, piece);
      result := result + piece;
    }
    assert list[..|list|] == list;
  }

  /** The next entry of a sibling list is untouched by the pruning of the
      entries before it. */
  lemma NextSibling(ns0: seq<Container>, ns: seq<Container>, rank: seq<nat>, list: seq<nat>, owner: Option<nat>, bound: nat,
                    i: nat, result: seq<nat>)
    requires SiblingList(ns0, rank, list, owner, bound) && i < |list| && Within(list[..i], |ns0|)
    requires ListPruned(ns0, ns, rank, list[..i], owner, result)
    ensures list[i] < |ns| && rank[list[i]] < bound && ns[list[i]].parent == owner
    ensures owner.Some? ==> owner.value < |ns| && rank[owner.value] >= bound
    ensures Sub(ns, rank, list[i]) == Sub(ns0, rank, list[i]) && ToTree(ns, rank, list[i]) == ToTree(ns0, rank, list[i])
    ensures LinkedIn(ns, Sub(ns, rank, list[i]))
  {
    var x := list[i];
    SiblingDisjointFromPrefix(ns0, rank, list, owner, bound, i);
    assert Reaches(ns0, rank, x, x);
    AgreeTree(ns0, ns, rank, x);
    forall y | y in Sub(ns0, rank, x) ensures y in SubAll(ns0, rank, list) {
      assert BelowSome(ns0, rank, list, y);
    }
    LinkedInKept(ns0, ns, Sub(ns0, rank, x)) by {
      forall y, k | y in Sub(ns0, rank, x) && y < |ns0| && 0 <= k < |ns0[y].children|
        ensures ns0[y].children[k] in Sub(ns0, rank, x)
      {
        ReachesChild(ns0, rank, x, y, k);
      }
    }
  }

  /** Every entry of a list lies in the list's subtrees. */
  lemma EntriesInSubAll(ns: seq<Container>, rank: seq<nat>, xs: seq<nat>)
    requires Ranked(ns, rank) && Within(xs, |ns|)
    ensures forall j :: 0 <= j < |xs| ==> xs[j] in SubAll(ns, rank, xs)
  {
    forall j | 0 <= j < |xs| ensures xs[j] in SubAll(ns, rank, xs) {
      assert Reaches(ns, rank, xs[j], xs[j]);
    }
  }

  /** Two duplicate-free lists drawn from disjoint sets concatenate to a
      duplicate-free list. */
  lemma NoDupAppend(xs: seq<nat>, ys: seq<nat>, s: set<nat>, t: set<nat>)
    requires NoDup(xs) && NoDup(ys) && s !! t
    requires forall j :: 0 <= j < |xs| ==> xs[j] in s
    requires forall j :: 0 <= j < |ys| ==> ys[j] in t
    ensures NoDup(xs + ys)
  {
    var zs := xs + ys;
    forall j, k | 0 <= j < k < |zs| ensures zs[j] != zs[k] {
      if k < |xs| {
        assert zs[j] == xs[j] && zs[k] == xs[k];
      } else if j >= |xs| {
        assert zs[j] == ys[j - |xs|] && zs[k] == ys[k - |xs|];
      } else {
        assert zs[j] == xs[j] && zs[k] == ys[k - |xs|];
      }
    }
  }

  /** A list whose subtrees lie outside the containers that changed keeps
      its subtrees, its forest, the agreement of parents and children below
      it, and its entries' records. */
  lemma UntouchedList(ns1: seq<Container>, ns2: seq<Container>, rank: seq<nat>, xs: seq<nat>, changed: set<nat>)
    requires Ranked(ns1, rank) && Ranked(ns2, rank) && |ns2| == |ns1| && Within(xs, |ns1|)
    requires SubAll(ns1, rank, xs) !! changed
    requires forall y :: 0 <= y < |ns1| && y !in changed ==> ns2[y] == ns1[y]
    requires LinkedIn(ns1, SubAll(ns1, rank, xs))
    ensures SubAll(ns2, rank, xs) == SubAll(ns1, rank, xs) && ToForest(ns2, rank, xs) == ToForest(ns1, rank, xs)
    ensures LinkedIn(ns2, SubAll(ns2, rank, xs))
    ensures forall j :: 0 <= j < |xs| ==> ns2[xs[j]] == ns1[xs[j]]
  {
    var r := SubAll(ns1, rank, xs);
    AgreeForest(ns1, ns2, rank, xs);
    LinkedInKept(ns1, ns2, r) by {
      forall y, k | y in r && y < |ns1| && 0 <= k < |ns1[y].children|
        ensures ns1[y].children[k] in r
      {
        SubAllClosed(ns1, rank, xs, y, k);
      }
    }
    EntriesInSubAll(ns1, rank, xs);
  }

  /** The pruned forest of a list grows by the pruning of its next entry. */
  lemma PruneTreesSnoc(ns: seq<Container>, rank: seq<nat>, list: seq<nat>, i: nat, top: bool)
    requires Ranked(ns, rank) && Within(list, |ns|) && i < |list|
    ensures Within(list[..i], |ns|) && Within(list[..i + 1], |ns|)
    ensures PruneTrees(ToForest(ns, rank, list[..i + 1]), top)
         == PruneTrees(ToForest(ns, rank, list[..i]), top) + PruneOne(ToTree(ns, rank, list[i]), top)
  {
    assert list[..i + 1] == list[..i] + [list[i]];
    ToForestAppend(ns, rank, list[..i], [list[i]]);
    var t := ToTree(ns, rank, list[i]);
    assert ToForest(ns, rank, [list[i]]) == [t];
    PruneTreesAppend(ToForest(ns, rank, list[..i]), [t], top);
    assert [t][1..] == [];
    assert PruneTrees([t], top) == PruneOne(t, top) + PruneTrees([], top);
  }

  /** One more entry of a sibling list pruned: its piece is appended to the
      result, and what was built so far is unaffected. */
  lemma ListStep(ns0: seq<Container>, nsI: seq<Container>, nsP: seq<Container>, rank: seq<nat>, list: seq<nat>,
                 owner: Option<nat>, bound: nat, i: nat, result: seq<nat>, piece: seq<nat>)
    requires SiblingList(ns0, rank, list, owner, bound) && i < |list| && Within(list[..i], |ns0|)
    requires ListPruned(ns0, nsI, rank, list[..i], owner, result)
    requires list[i] < |nsI| && Sub(nsI, rank, list[i]) == Sub(ns0, rank, list[i])
    requires ToTree(nsI, rank, list[i]) == ToTree(ns0, rank, list[i])
    requires ContainerPruned(nsI, nsP, rank, list[i], owner, piece)
    ensures Within(list[..i + 1], |ns0|)
    ensures ListPruned(ns0, nsP, rank, list[..i + 1], owner, result + piece)
  {
    var x := list[i];
    var before, here := SubAll(ns0, rank, list[..i]), Sub(ns0, rank, x);
    SiblingDisjointFromPrefix(ns0, rank, list, owner, bound, i);
    SubAllSnoc(ns0, rank, list, i);
    UntouchedList(nsI, nsP, rank, result, here);
    SubAllAppend(nsP, rank, result, piece);
    ToForestAppend(nsP, rank, result, piece);
    EntriesInSubAll(nsI, rank, result);
    EntriesInSubAll(nsP, rank, piece);
    NoDupAppend(result, piece, before, here);
    PruneTreesSnoc(ns0, rank, list, i, owner.None?);
  }

  /** The containers outside the subtrees of `xs`. */
  ghost function Outside(ns: seq<Container>, rank: seq<nat>, xs: seq<nat>): set<nat>
    requires Ranked(ns, rank) && Within(xs, |ns|)
  {
    set y | 0 <= y < |ns| && y !in SubAll(ns, rank, xs)
  }

  /** A forest whose parents and children agree below its roots leaves the
      arena consistent once everything outside it counts as discarded. */
  lemma ForestConsistent(ns: seq<Container>, rank: seq<nat>, xs: seq<nat>)
    requires Ranked(ns, rank) && Within(xs, |ns|) && LinkedIn(ns, SubAll(ns, rank, xs))
    ensures Consistent(ns, Outside(ns, rank, xs))
  {
    var dead := Outside(ns, rank, xs);
    forall x | 0 <= x < |ns| && x !in dead ensures LinkedAt(ns, dead, x) {
      assert LinkedAt(ns, {}, x);
      forall k | 0 <= k < |ns[x].children| ensures ns[x].children[k] !in dead {
        SubAllClosed(ns, rank, xs, x, k);
      }
    }
  }

  /** `root_set = prune_empty_containers(root_set)` (jwz_threading.py:285)
      on the parentless containers of a consistent arena. Afterwards the
      arena holds the pruned forest under the returned roots, which have no
      parent; every container outside that forest is discarded, and the
      rest is consistent and acyclic. */
  method PruneRoots(a: Arena, roots: seq<nat>) returns (result: seq<nat>)
    requires a.Valid() && a.dead == {} && Within(roots, |a.nodes|) && NoDup(roots)
    requires forall i :: 0 <= i < |roots| ==> a.nodes[roots[i]].parent.None?
    modifies a
    ensures a.Valid() && a.rank == old(a.rank) && |a.nodes| == |old(a.nodes)|
    ensures Within(result, |a.nodes|) && NoDup(result)
    ensures forall i :: 0 <= i < |result| ==> a.nodes[result[i]].parent.None?
    ensures a.dead == Outside(a.nodes, a.rank, result)
    ensures forall y :: 0 <= y < |a.nodes| ==> a.nodes[y].message == old(a.nodes)[y].message
    ensures ToForest(a.nodes, a.rank, result) == PruneTrees(ToForest(old(a.nodes), old(a.rank), roots), true)
  {
    ghost var ns0, rank := a.nodes, a.rank;
    assert SiblingList(ns0, rank, roots, None, MaxRank(rank) + 1) by {
      forall y | y in SubAll(ns0, rank, roots) && y < |ns0| ensures LinkedAt(ns0, {}, y) {
      }
    }
    result := PruneList(a, roots, None, MaxRank(a.rank) + 1);
    ForestConsistent(a.nodes, rank, result);
    a.dead := Outside(a.nodes, a.rank, result);
  }

  /** The pruned root set, as trees: no dummy below the top level, no
      childless dummy, a top-level dummy only with two or more children,
      and the real containers of the old forest all kept, in the same
      pre-order. */
  lemma PrunedRootSet(ts: seq<Tree>)
    ensures forall t :: t in PruneTrees(ts, true) ==> PrunedRoot(t)
    ensures Reals(PruneTrees(ts, true)) == Reals(ts)
  {
    PrunedShape(ts, true);
    PruneKeepsReals(ts, true);
  }
}
