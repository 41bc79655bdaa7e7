/** How a link between two real containers, a message and its direct reply,
    survives the phases of `thread` (jwz_threading.py:277-296): pruning
    (jwz_threading.py:65-96) removes dummy containers only, grouping
    (jwz_threading.py:174-245) links roots only, sorting
    (jwz_threading.py:124-129) reorders child lists only, and `_flatten`
    (jwz_threading.py:261-275) shows a child one level below its parent.

    The link is stated on messages rather than on containers, so that it
    reads the same on the arena, on the trees built from it, and on the
    flattened lines. */
module Nesting {
  import opened Wrappers
  import opened Mail
  import opened Containers
  import opened Pruning
  import opened Flattening

  /** Somewhere in tree `t`, a node holding `p` has a child node holding
      `m`. */
  ghost predicate ChildInTree(t: Tree, p: EmailMessage, m: EmailMessage)
    decreases t
  {
    || (t.message == Some(p) && exists k :: k in t.kids && k.message == Some(m))
    || (exists k :: k in t.kids && ChildInTree(k, p, m))
  }

  /** Somewhere in the forest, a node holding `p` has a child node holding
      `m`. */
  ghost predicate ChildIn(ts: seq<Tree>, p: EmailMessage, m: EmailMessage) {
    exists t :: t in ts && ChildInTree(t, p, m)
  }

  /** In the arena, the container holding `p` lists among its children the
      container holding `m`. */
  ghost predicate ParentOf(ns: seq<Container>, p: EmailMessage, m: EmailMessage) {
    exists x, i :: 0 <= x < |ns| && ns[x].message == Some(p) && 0 <= i < |ns[x].children|
      && ns[x].children[i] < |ns| && ns[ns[x].children[i]].message == Some(m)
  }

  /** The same, for a container in the subtree of an entry of `xs`. */
  ghost predicate ParentBelow(ns: seq<Container>, rank: seq<nat>, xs: seq<nat>, p: EmailMessage, m: EmailMessage)
    requires Ranked(ns, rank) && Within(xs, |ns|)
  {
    exists x, i :: 0 <= x < |ns| && BelowSome(ns, rank, xs, x) && ns[x].message == Some(p)
      && 0 <= i < |ns[x].children| && ns[ns[x].children[i]].message == Some(m)
  }

  /** In the lines, `m` is shown one level deeper than `p`. */
  ghost predicate OneDeeper(lines: seq<Line>, p: EmailMessage, m: EmailMessage) {
    exists i, j :: 0 <= i < |lines| && 0 <= j < |lines| && lines[i].message == p && lines[j].message == m
      && lines[j].level == lines[i].level + 1
  }

  /** A link in the subtree of `r` is a link of the tree of `r`. */
  lemma {:induction false} LinkInTree(ns: seq<Container>, rank: seq<nat>, r: nat, x: nat, i: nat, p: EmailMessage, m: EmailMessage)
    requires Ranked(ns, rank) && r < |ns| && x < |ns| && Reaches(ns, rank, r, x)
    requires ns[x].message == Some(p) && i < |ns[x].children| && ns[ns[x].children[i]].message == Some(m)
    ensures ChildInTree(ToTree(ns, rank, r), p, m)
    decreases rank[r]
  {
    ToTreeKids(ns, rank, r);
    var t := ToTree(ns, rank, r);
    if r == x {
      assert t.kids[i] in t.kids && t.kids[i].message == Some(m);
    } else {
      var j :| 0 <= j < |ns[r].children| && Reaches(ns, rank, ns[r].children[j], x);
      LinkInTree(ns, rank, ns[r].children[j], x, i, p, m);
      assert t.kids[j] in t.kids;
    }
  }

  /** A link below the entries of `xs` is a link of their forest. */
  lemma LinkInForest(ns: seq<Container>, rank: seq<nat>, xs: seq<nat>, p: EmailMessage, m: EmailMessage)
    requires Ranked(ns, rank) && Within(xs, |ns|) && ParentBelow(ns, rank, xs, p, m)
    ensures ChildIn(ToForest(ns, rank, xs), p, m)
  {
    var x, i :| 0 <= x < |ns| && BelowSome(ns, rank, xs, x) && ns[x].message == Some(p)
      && 0 <= i < |ns[x].children| && ns[ns[x].children[i]].message == Some(m);
    var k :| 0 <= k < |xs| && Reaches(ns, rank, xs[k], x);
    LinkInTree(ns, rank, xs[k], x, i, p, m);
    assert ToForest(ns, rank, xs)[k] in ToForest(ns, rank, xs);
  }

  /** Conversely, a link of the tree of `r` is a link in the subtree of
      `r`. */
  lemma {:induction false} LinkFromTree(ns: seq<Container>, rank: seq<nat>, r: nat, p: EmailMessage, m: EmailMessage)
    returns (x: nat, i: nat)
    requires Ranked(ns, rank) && r < |ns| && ChildInTree(ToTree(ns, rank, r), p, m)
    ensures x < |ns| && Reaches(ns, rank, r, x) && ns[x].message == Some(p)
    ensures i < |ns[x].children| && ns[ns[x].children[i]].message == Some(m)
    decreases rank[r]
  {
    ToTreeKids(ns, rank, r);
    var t := ToTree(ns, rank, r);
    if t.message == Some(p) && exists k :: k in t.kids && k.message == Some(m) {
      var k :| k in t.kids && k.message == Some(m);
      var j :| 0 <= j < |t.kids| && t.kids[j] == k;
      x, i := r, j;
    } else {
      var k :| k in t.kids && ChildInTree(k, p, m);
      var j :| 0 <= j < |t.kids| && t.kids[j] == k;
      x, i := LinkFromTree(ns, rank, ns[r].children[j], p, m);
    }
  }

  /** A link of the forest of `xs` is a link below its entries. */
  lemma LinkFromForest(ns: seq<Container>, rank: seq<nat>, xs: seq<nat>, p: EmailMessage, m: EmailMessage)
    requires Ranked(ns, rank) && Within(xs, |ns|) && ChildIn(ToForest(ns, rank, xs), p, m)
    ensures ParentBelow(ns, rank, xs, p, m)
  {
    var ts := ToForest(ns, rank, xs);
    var t :| t in ts && ChildInTree(t, p, m);
    var k :| 0 <= k < |ts| && ts[k] == t;
    var x, i := LinkFromTree(ns, rank, xs[k], p, m);
    assert BelowSome(ns, rank, xs, x);
  }

  /** What a member of a sibling list turns into is part of the pruned
      list. */
  lemma PruneMember(ts: seq<Tree>, t: Tree, top: bool)
    requires t in ts
    ensures forall u :: u in PruneOne(t, top) ==> u in PruneTrees(ts, top)
    decreases |ts|
  {
    if ts[0] != t {
      PruneMember(ts[1..], t, top);
    }
  }

  /** Pruning a tree keeps each link between two real nodes: a real node
      stays with its pruned children, and a real child stays a real
      child. */
  lemma {:induction false} PruneKeepsLinkOne(t: Tree, top: bool, p: EmailMessage, m: EmailMessage)
    requires ChildInTree(t, p, m)
    ensures ChildIn(PruneOne(t, top), p, m)
    decreases t
  {
    var kids := PruneTrees(t.kids, false);
    if t.message == Some(p) && exists k :: k in t.kids && k.message == Some(m) {
      var k :| k in t.kids && k.message == Some(m);
      PruneMember(t.kids, k, false);
      var n := Node(k.id, k.message, PruneTrees(k.kids, false));
      assert PruneOne(k, false) == [n];
      assert n in kids;
      var r := Node(t.id, t.message, kids);
      assert ChildInTree(r, p, m);
      assert PruneOne(t, top) == [r];
    } else {
      var k :| k in t.kids && ChildInTree(k, p, m);
      PruneKeepsLinkOne(k, false, p, m);
      var u :| u in PruneOne(k, false) && ChildInTree(u, p, m);
      PruneMember(t.kids, k, false);
      assert u in kids;
      var r := Node(t.id, t.message, kids);
      assert ChildInTree(r, p, m);
      if t.message.Some? {
        assert PruneOne(t, top) == [r];
      } else if !top || |kids| == 1 {
        assert PruneOne(t, top) == kids;
      } else {
        assert PruneOne(t, top) == [r];
      }
    }
  }

  /** Pruning a forest keeps each link between two real nodes. */
  lemma PruneKeepsLink(ts: seq<Tree>, top: bool, p: EmailMessage, m: EmailMessage)
    requires ChildIn(ts, p, m)
    ensures ChildIn(PruneTrees(ts, top), p, m)
  {
    var t :| t in ts && ChildInTree(t, p, m);
    PruneKeepsLinkOne(t, top, p, m);
    var u :| u in PruneOne(t, top) && ChildInTree(u, p, m);
    PruneMember(ts, t, top);
  }

  /** The lines of a forest are those of the trees before `ts[k]`, those of
      `ts[k]`, and those of the trees after it. */
  lemma FlattenAround(ts: seq<Tree>, k: nat, level: nat, parent: Option<string>)
    requires k < |ts|
    ensures Flatten(ts, level, parent) ==
      Flatten(ts[..k], level, parent) + Flatten([ts[k]], level, parent) + Flatten(ts[k + 1..], level, parent)
  {
    assert ts == ts[..k] + [ts[k]] + ts[k + 1..];
    FlattenAppend(ts[..k] + [ts[k]], ts[k + 1..], level, parent);
    FlattenAppend(ts[..k], [ts[k]], level, parent);
  }

  /** `OneDeeper` survives lines before and after. */
  lemma OneDeeperInside(pre: seq<Line>, lines: seq<Line>, post: seq<Line>, p: EmailMessage, m: EmailMessage)
    requires OneDeeper(lines, p, m)
    ensures OneDeeper(pre + lines + post, p, m)
  {
    var i, j :| 0 <= i < |lines| && 0 <= j < |lines| && lines[i].message == p && lines[j].message == m
      && lines[j].level == lines[i].level + 1;
    var all := pre + lines + post;
    assert all[|pre| + i] == lines[i] && all[|pre| + j] == lines[j];
  }

  /** A link of the tree shows its child message one level below its parent
      message. */
  lemma {:induction false} FlattenLinkOne(t: Tree, level: nat, parent: Option<string>, p: EmailMessage, m: EmailMessage)
    requires ChildInTree(t, p, m)
    ensures OneDeeper(Flatten([t], level, parent), p, m)
    decreases t
  {
    FlattenOne(t, level, parent);
    var below := if t.message.Some? then level + 1 else level;
    var under := if t.message.Some? then Some(t.message.value.subject) else parent;
    var head: seq<Line> := if t.message.Some? then [LineFor(t.message.value, level, parent)] else [];
    assert Flatten([t], level, parent) == head + Flatten(t.kids, below, under);
    if t.message == Some(p) && exists k :: k in t.kids && k.message == Some(m) {
      var k :| k in t.kids && k.message == Some(m);
      var j :| 0 <= j < |t.kids| && t.kids[j] == k;
      FlattenLinkHere(t, j, level, parent, p, m);
    } else {
      var k :| k in t.kids && ChildInTree(k, p, m);
      var j :| 0 <= j < |t.kids| && t.kids[j] == k;
      FlattenAround(t.kids, j, below, under);
      FlattenLinkOne(k, below, under, p, m);
      OneDeeperInside(Flatten(t.kids[..j], below, under), Flatten([k], below, under), Flatten(t.kids[j + 1..], below, under), p, m);
      OneDeeperInside(head, Flatten(t.kids, below, under), [], p, m);
      assert head + Flatten(t.kids, below, under) + [] == Flatten([t], level, parent);
    }
  }

  /** A message shown with a child message directly below it: the child's
      line is one level deeper. */
  lemma FlattenLinkHere(t: Tree, j: nat, level: nat, parent: Option<string>, p: EmailMessage, m: EmailMessage)
    requires t.message == Some(p) && j < |t.kids| && t.kids[j].message == Some(m)
    ensures OneDeeper(Flatten([t], level, parent), p, m)
  {
    var under := Some(p.subject);
    var kidLines := Flatten(t.kids, level + 1, under);
    FlattenOne(t, level, parent);
    FlattenAround(t.kids, j, level + 1, under);
    FlattenOne(t.kids[j], level + 1, under);
    var pre := Flatten(t.kids[..j], level + 1, under);
    assert kidLines[|pre|] == LineFor(m, level + 1, under);
    var lines := [LineFor(p, level, parent)] + kidLines;
    assert lines == Flatten([t], level, parent);
    assert lines[0].message == p && lines[0].level == level;
    assert lines[1 + |pre|] == kidLines[|pre|];
    assert lines[1 + |pre|].message == m && lines[1 + |pre|].level == level + 1;
  }


  /** A link of the forest shows its child message one level below its
      parent message. */
  lemma FlattenLink(ts: seq<Tree>, level: nat, parent: Option<string>, p: EmailMessage, m: EmailMessage)
    requires ChildIn(ts, p, m)
    ensures OneDeeper(Flatten(ts, level, parent), p, m)
  {
    var t :| t in ts && ChildInTree(t, p, m);
    var k :| 0 <= k < |ts| && ts[k] == t;
    FlattenAround(ts, k, level, parent);
    FlattenLinkOne(t, level, parent, p, m);
    OneDeeperInside(Flatten(ts[..k], level, parent), Flatten([t], level, parent), Flatten(ts[k + 1..], level, parent), p, m);
  }

  /** The first line of a forest is at the forest's own level: no message
      above it was shown. */
  lemma {:induction false} FlattenFirstLevel(ts: seq<Tree>, level: nat, parent: Option<string>)
    requires Flatten(ts, level, parent) != []
    ensures Flatten(ts, level, parent)[0].level == level
    decreases ts
  {
    var t := ts[0];
    FlattenAround(ts, 0, level, parent);
    assert ts[..0] == [] && ts[1..] == ts[0 + 1..];
    FlattenOne(t, level, parent);
    if t.message.None? {
      if Flatten(t.kids, level, parent) != [] {
        FlattenFirstLevel(t.kids, level, parent);
      } else {
        FlattenFirstLevel(ts[1..], level, parent);
      }
    }
  }
}
