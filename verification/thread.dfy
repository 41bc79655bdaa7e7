/** `thread` (jwz_threading.py:277-296): the phases of the threading
    algorithm run one after the other on a fresh arena, from the list of
    messages to the flattened list of lines. */
module Threading {
  import opened Wrappers
  import opened Mail
  import opened Containers
  import opened Pruning
  import Build
  import Merging
  import opened Sorting
  import opened Flattening
  import opened Text
  import opened Frames
  import opened Coverage
  import opened Nesting
  import BuildLinks
  import opened Grouping

  /** Every message held by a container of `ns` is one of `messages`. */
  ghost predicate MessagesIn(ns: seq<Container>, messages: seq<EmailMessage>) {
    forall y :: 0 <= y < |ns| && ns[y].message.Some? ==> ns[y].message.value in messages
  }

  /** The date a tree is sorted by: its message's, or 0 for a dummy
      (jwz_threading.py:126). */
  function TreeDate(t: Tree): int {
    if t.message.Some? then t.message.value.date else 0
  }

  /** Every sibling list of the tree, at every depth, is non-decreasing by
      date. */
  ghost predicate SortedTree(t: Tree)
    decreases t
  {
    && (forall i, j :: 0 <= i < j < |t.kids| ==> TreeDate(t.kids[i]) <= TreeDate(t.kids[j]))
    && (forall k :: k in t.kids ==> SortedTree(k))
  }

  /** The containers built from `messages` hold messages of that list
      only. */
  lemma BuiltMessages(ns: seq<Container>, table: map<string, nat>, messages: seq<EmailMessage>)
    requires Build.Bijective(ns, table) && Build.MessagesFrom(ns, table, messages)
    ensures MessagesIn(ns, messages)
  {
    forall y | 0 <= y < |ns| && ns[y].message.Some? ensures ns[y].message.value in messages {
      assert y in table.Values;
      var id :| id in table && table[id] == y;
    }
  }

  /** The messages of the real containers of the subtrees of `xs` are
      messages of the arena. */
  lemma {:induction false} ForestMessages(ns: seq<Container>, rank: seq<nat>, xs: seq<nat>, messages: seq<EmailMessage>, bound: nat)
    requires Ranked(ns, rank) && Within(xs, |ns|) && MessagesIn(ns, messages)
    requires forall i :: 0 <= i < |xs| ==> rank[xs[i]] < bound
    ensures forall m :: m in RealMessages(ToForest(ns, rank, xs)) ==> m in messages
    decreases bound, |xs|
  {
    if xs != [] {
      var x := xs[0];
      var ts := ToForest(ns, rank, xs);
      ToTreeKids(ns, rank, x);
      var kids := ns[x].children;
      assert forall j :: 0 <= j < |kids| ==> rank[kids[j]] < rank[x];
      ForestMessages(ns, rank, kids, messages, rank[x]);
      ForestMessages(ns, rank, xs[1..], messages, bound);
      assert ts[0] == Node(x, ns[x].message, ToForest(ns, rank, kids));
      assert ts[1..] == ToForest(ns, rank, xs[1..]);
    }
  }

  /** A subtree whose child lists are all sorted by date is a sorted
      tree. */
  lemma {:induction false} SortedToTree(ns: seq<Container>, rank: seq<nat>, x: nat)
    requires Ranked(ns, rank) && x < |ns|
    requires forall y :: 0 <= y < |ns| && Reaches(ns, rank, x, y) ==> SortedBy(ns[y].children, DateKeyOf(ns))
    ensures SortedTree(ToTree(ns, rank, x))
    decreases rank[x]
  {
    ToTreeKids(ns, rank, x);
    var cs := ns[x].children;
    var t := ToTree(ns, rank, x);
    assert Reaches(ns, rank, x, x);
    forall i | 0 <= i < |cs| ensures TreeDate(t.kids[i]) == DateKey(ns, cs[i]) {
    }
    forall k | k in t.kids ensures SortedTree(k) {
      var i :| 0 <= i < |cs| && t.kids[i] == k;
      forall y | 0 <= y < |ns| && Reaches(ns, rank, cs[i], y) ensures Reaches(ns, rank, x, y) {
        ReachesChild(ns, rank, x, x, i);
        ReachesTrans(ns, rank, x, cs[i], y);
      }
      SortedToTree(ns, rank, cs[i]);
    }
  }

  /** Below an entry of the grouped list, every child list is sorted once
      `sort_all_children` has run, giving `ns2`. */
  lemma SortedSubtree(ns: seq<Container>, ns2: seq<Container>, rank: seq<nat>, grouped: seq<nat>, x: nat)
    requires Ranked(ns, rank) && Within(grouped, |ns|) && x in grouped
    requires ns2 == SortedAt(ns, SubAll(ns, rank, grouped))
    ensures Ranked(ns2, rank) && x < |ns|
    ensures SortedTree(ToTree(ns2, rank, x))
  {
    var s := SubAll(ns, rank, grouped);
    SortedAtSameLinks(ns, s);
    SameLinksRanked(ns, ns2, rank);
    var k :| 0 <= k < |grouped| && grouped[k] == x;
    forall y | 0 <= y < |ns2| && Reaches(ns2, rank, x, y) ensures SortedBy(ns2[y].children, DateKeyOf(ns2)) {
      SameLinksReaches(ns, ns2, rank, x, y);
      assert BelowSome(ns, rank, grouped, y);
      assert y in s;
      assert ns2[y].children == SortByDate(ns, ns[y].children);
      SameLinksSortByDate(ns, ns2, ns[y].children);
      SortBySorted(ns[y].children, DateKeyOf(ns2));
    }
    SortedToTree(ns2, rank, x);
  }

  /** A tree of `ns2` is dated by its root's message in `ns`, when the two
      differ only in the order of child lists. */
  lemma ForestDates(ns: seq<Container>, ns2: seq<Container>, rank: seq<nat>, xs: seq<nat>)
    requires Ranked(ns2, rank) && Within(xs, |ns2|) && SameLinks(ns, ns2)
    ensures var forest := ToForest(ns2, rank, xs);
      forall i :: 0 <= i < |xs| ==> TreeDate(forest[i]) == DateKey(ns, xs[i])
  {
    var forest := ToForest(ns2, rank, xs);
    forall i | 0 <= i < |xs| ensures TreeDate(forest[i]) == DateKey(ns, xs[i]) {
      ToTreeKids(ns2, rank, xs[i]);
    }
  }

  /** After `sort_all_children` on the grouped list, which gives `ns2` and
      `sorted`, the list is sorted by date and so is every sibling list below
      it. */
  lemma SortedPhase(ns: seq<Container>, ns2: seq<Container>, rank: seq<nat>, grouped: seq<nat>, sorted: seq<nat>)
    requires Ranked(ns, rank) && Within(grouped, |ns|)
    requires ns2 == SortedAt(ns, SubAll(ns, rank, grouped)) && sorted == SortByDate(ns, grouped)
    ensures Within(sorted, |ns|) && Ranked(ns2, rank)
    ensures var forest := ToForest(ns2, rank, sorted);
      && (forall i, j :: 0 <= i < j < |forest| ==> TreeDate(forest[i]) <= TreeDate(forest[j]))
      && (forall t :: t in forest ==> SortedTree(t))
  {
    SortedAtSameLinks(ns, SubAll(ns, rank, grouped));
    SameLinksRanked(ns, ns2, rank);
    SortedWithin(ns, grouped);
    SortBySorted(grouped, DateKeyOf(ns));
    ForestDates(ns, ns2, rank, sorted);
    ForestOrdered(ns, ns2, rank, sorted);
    var forest := ToForest(ns2, rank, sorted);
    forall t | t in forest ensures SortedTree(t) {
      var i :| 0 <= i < |sorted| && forest[i] == t;
      SortedEntry(ns, ns2, rank, grouped, i);
    }
  }

  /** Sorting a sibling list keeps it within the arena. */
  lemma SortedWithin(ns: seq<Container>, xs: seq<nat>)
    requires Within(xs, |ns|)
    ensures Within(SortByDate(ns, xs), |ns|)
  {
    var ys := SortByDate(ns, xs);
    forall i | 0 <= i < |ys| ensures ys[i] < |ns| {
      assert ys[i] in multiset(xs);
    }
  }

  /** A list sorted by date in `ns` gives a forest of `ns2` in date order,
      when the two differ only in the order of child lists. */
  lemma ForestOrdered(ns: seq<Container>, ns2: seq<Container>, rank: seq<nat>, xs: seq<nat>)
    requires Ranked(ns2, rank) && Within(xs, |ns2|) && SortedBy(xs, DateKeyOf(ns))
    requires var forest := ToForest(ns2, rank, xs);
      forall i :: 0 <= i < |xs| ==> TreeDate(forest[i]) == DateKey(ns, xs[i])
    ensures var forest := ToForest(ns2, rank, xs);
      forall i, j :: 0 <= i < j < |forest| ==> TreeDate(forest[i]) <= TreeDate(forest[j])
  {
    var forest := ToForest(ns2, rank, xs);
    forall i, j | 0 <= i < j < |forest| ensures TreeDate(forest[i]) <= TreeDate(forest[j]) {
      assert DateKeyOf(ns)(xs[i]) <= DateKeyOf(ns)(xs[j]);
    }
  }

  /** The tree of entry `i` of the sorted list is a sorted tree. */
  lemma SortedEntry(ns: seq<Container>, ns2: seq<Container>, rank: seq<nat>, grouped: seq<nat>, i: nat)
    requires Ranked(ns, rank) && Within(grouped, |ns|)
    requires ns2 == SortedAt(ns, SubAll(ns, rank, grouped))
    requires Ranked(ns2, rank) && Within(SortByDate(ns, grouped), |ns2|) && i < |grouped|
    ensures SortedTree(ToForest(ns2, rank, SortByDate(ns, grouped))[i])
  {
    var sorted := SortByDate(ns, grouped);
    assert sorted[i] in multiset(grouped);
    SortedSubtree(ns, ns2, rank, grouped, sorted[i]);
  }

  /** The root set is a list of distinct parentless containers. */
  lemma RootSetFits(ns: seq<Container>)
    ensures Within(Build.RootSet(ns), |ns|) && NoDup(Build.RootSet(ns))
    ensures forall i :: 0 <= i < |Build.RootSet(ns)| ==> ns[Build.RootSet(ns)[i]].parent.None?
  {
    var roots := Build.RootSet(ns);
    assert forall i :: 0 <= i < |roots| ==> roots[i] in roots;
  }

  /** The pruned roots meet what the grouping phase asks of a root set. */
  lemma PrunedRootsFit(ns: seq<Container>, rank: seq<nat>, dead: set<nat>, roots: seq<nat>)
    requires Ranked(ns, rank) && Consistent(ns, dead) && Within(roots, |ns|) && NoDup(roots)
    requires forall i :: 0 <= i < |roots| ==> ns[roots[i]].parent.None?
    requires dead == Outside(ns, rank, roots)
    ensures Merging.RootSet(ns, rank, dead, roots)
  {
    forall i | 0 <= i < |roots| ensures roots[i] !in dead {
      assert Reaches(ns, rank, roots[i], roots[i]);
      assert BelowSome(ns, rank, roots, roots[i]);
    }
  }

  /** What the grouping phase guarantees that the later phases use. */
  lemma GroupedFacts(ns0: seq<Container>, rank0: seq<nat>, dead: set<nat>, roots: seq<nat>,
                     ns: seq<Container>, rank: seq<nat>, grouped: seq<nat>, dropped: set<nat>, messages: seq<EmailMessage>)
    requires Merging.Grouped(ns0, rank0, dead, roots, ns, rank, grouped, dropped)
    requires MessagesIn(ns0, messages)
    ensures Within(grouped, |ns|) && MessagesIn(ns, messages)
  {
  }

  /** From building to pruning: a message that is last with its id is
      held by a container below the pruned root set. */
  lemma PrunedHolder(ns1: seq<Container>, table: map<string, nat>, messages: seq<EmailMessage>, rank: seq<nat>,
                     ns2: seq<Container>, pruned: seq<nat>, m: EmailMessage) returns (y: nat)
    requires Build.Bijective(ns1, table) && Build.MessagesFrom(ns1, table, messages)
    requires forall k :: k in table <==> k in Build.Ids(messages)
    requires Ranked(ns1, rank) && Build.ParentsListed(ns1, {}) && Within(Build.RootSet(ns1), |ns1|)
    requires Ranked(ns2, rank) && |ns2| == |ns1| && Within(pruned, |ns2|)
    requires forall x :: 0 <= x < |ns2| ==> ns2[x].message == ns1[x].message
    requires ToForest(ns2, rank, pruned) == PruneTrees(ToForest(ns1, rank, Build.RootSet(ns1)), true)
    requires m in messages && Build.LastWithId(messages, m.messageId) == Some(m)
    ensures y < |ns2| && ns2[y].message == Some(m) && BelowSome(ns2, rank, pruned, y)
  {
    y := BuiltHolder(ns1, table, messages, m);
    var rs := Build.RootSet(ns1);
    RootSetFits(ns1);
    Build.RootSetCovers(ns1, rank, y);
    var x :| x in rs && Reaches(ns1, rank, x, y);
    var i :| 0 <= i < |rs| && rs[i] == x;
    ReachedInForest(ns1, rank, rs, y);
    PruneKeepsReals(ToForest(ns1, rank, rs), true);
    RealsInForest(ns2, rank, pruned, y);
  }

  /** From pruning to grouping: a real container below the pruned root set
      ends below an entry of the grouped list, or below a dropped reply. */
  lemma GroupedHolder(ns2: seq<Container>, rank: seq<nat>, dead: set<nat>, pruned: seq<nat>,
                      ns3: seq<Container>, rank3: seq<nat>, grouped: seq<nat>, dropped: set<nat>, droppedList: seq<nat>, y: nat)
    requires Merging.RootSet(ns2, rank, dead, pruned)
    requires Merging.Grouped(ns2, rank, dead, pruned, ns3, rank3, grouped, dropped)
    requires Merging.KeptBelowRoots(ns2, pruned, ns3)
    requires Within(droppedList, |ns2|) && forall d :: d in dropped ==> d in droppedList
    requires y < |ns2| && ns2[y].message.Some? && BelowSome(ns2, rank, pruned, y)
    ensures Within(grouped, |ns3|)
    ensures Shown(ns3, rank3, grouped, ns2[y].message.value) || ns2[y].message.value in RealMessages(ToForest(ns2, rank, droppedList))
  {
    var i :| 0 <= i < |pruned| && Reaches(ns2, rank, pruned[i], y);
    var r := pruned[i];
    if r in dropped {
      var j :| 0 <= j < |droppedList| && droppedList[j] == r;
      ReachedInForest(ns2, rank, droppedList, y);
      RealHeld(ns2, rank, droppedList, y);
    } else {
      assert BelowSome(ns3, rank3, grouped, r);
      Merging.KeptReaches(ns2, rank, dead, pruned, ns3, rank3, r, y);
      var g :| 0 <= g < |grouped| && Reaches(ns3, rank3, grouped[g], r);
      ReachesTrans(ns3, rank3, grouped[g], r, y);
      assert BelowSome(ns3, rank3, grouped, y);
    }
  }

  /** A message below a dropped reply is last with its id and is not below
      any entry of the grouped list. */
  lemma DroppedHeld(ns2: seq<Container>, rank: seq<nat>, dead: set<nat>, pruned: seq<nat>,
                    ns3: seq<Container>, rank3: seq<nat>, grouped: seq<nat>, dropped: set<nat>, droppedList: seq<nat>,
                    messages: seq<EmailMessage>, m: EmailMessage)
    requires Merging.RootSet(ns2, rank, dead, pruned)
    requires Merging.Grouped(ns2, rank, dead, pruned, ns3, rank3, grouped, dropped)
    requires Merging.KeptBelowRoots(ns2, pruned, ns3) && Consistent(ns3, dead)
    requires Unique(ns3) && LastHeld(ns2, messages)
    requires Within(droppedList, |ns2|) && forall i :: 0 <= i < |droppedList| ==> droppedList[i] in dropped
    requires m in RealMessages(ToForest(ns2, rank, droppedList))
    ensures Within(grouped, |ns3|)
    ensures Build.LastWithId(messages, m.messageId) == Some(m) && !Shown(ns3, rank3, grouped, m)
  {
    var y := HeldReal(ns2, rank, droppedList, m);
    RealsInForest(ns2, rank, droppedList, y);
    var j :| 0 <= j < |droppedList| && Reaches(ns2, rank, droppedList[j], y);
    var d := droppedList[j];
    var i :| 0 <= i < |pruned| && pruned[i] == d;
    Merging.KeptReaches(ns2, rank, dead, pruned, ns3, rank3, d, y);
    LiveLinked(ns3, rank3, dead, d);
    forall k | 0 <= k < |grouped| ensures !Reaches(ns3, rank3, grouped[k], y) {
      var g := grouped[k];
      assert Reaches(ns3, rank3, g, g);
      assert g != d;
      assert !Reaches(ns3, rank3, g, d);
      ParentlessUnreached(ns3, rank3, dead, d, g);
      LiveLinked(ns3, rank3, dead, g);
      CommonAncestry(ns3, rank3, g, d, y);
    }
  }

  /** Each dropped reply holds, somewhere in its subtree, a message of
      `messages` whose subject is a reply's. */
  lemma DroppedReply(ns2: seq<Container>, rank: seq<nat>, dead: set<nat>, pruned: seq<nat>,
                     ns3: seq<Container>, rank3: seq<nat>, grouped: seq<nat>, dropped: set<nat>,
                     messages: seq<EmailMessage>, d: nat) returns (m: EmailMessage)
    requires Merging.Grouped(ns2, rank, dead, pruned, ns3, rank3, grouped, dropped)
    requires LastHeld(ns2, messages) && d in dropped
    ensures d < |ns2| && Within([d], |ns2|)
    ensures m in messages && m in RealMessages(ToForest(ns2, rank, [d])) && IsReplySubject(m.subject)
  {
    GetSubjectFromSubtree(ns2, rank, d);
    var y :| 0 <= y < |ns2| && Reaches(ns2, rank, d, y) && ns2[y].message.Some?
      && ns2[y].message.value.subject == GetSubject(ns2, rank, d);
    assert [d][0] == d;
    ReachedInForest(ns2, rank, [d], y);
    RealHeld(ns2, rank, [d], y);
    m := ns2[y].message.value;
  }

  /** The arenas the phases of `thread` leave behind: the arena `pruned`
      after pruning, with the ranks `rank` of the built arena, its discarded
      containers `dead` and the pruned root set `roots`; then the arena
      `grouped` after grouping by subject, with ranks `groupedRank`, the
      grouped list `list` and the dropped replies `droppedSet`. */
  datatype Phases = Phases(pruned: seq<Container>, rank: seq<nat>, dead: set<nat>, roots: seq<nat>,
                           grouped: seq<Container>, groupedRank: seq<nat>, list: seq<nat>, droppedSet: set<nat>)

  /** `ph` records steps 1 to 4 of `thread` (jwz_threading.py:279-288) run
      on `messages`: the containers are those `Built` from the messages; the
      pruned arena keeps their messages and holds, under the pruned roots,
      `PruneTrees` of the forest of their root set; everything else is
      discarded; and grouping by subject over the pruned roots has outcome
      `Merging.Grouped`, touching only roots and new dummies, and drops only
      roots that `Merging.DroppedBehind` allows. */
  ghost predicate PhasesOf(messages: seq<EmailMessage>, ph: Phases) {
    var b := Build.Built(messages);
    RootSetFits(b.nodes);
    && ph.rank == b.rank && |ph.pruned| == |b.nodes|
    && Merging.RootSet(ph.pruned, ph.rank, ph.dead, ph.roots)
    && (forall y :: 0 <= y < |ph.pruned| ==> ph.pruned[y].message == b.nodes[y].message)
    && ToForest(ph.pruned, ph.rank, ph.roots) == PruneTrees(ToForest(b.nodes, b.rank, Build.RootSet(b.nodes)), true)
    && ph.dead == Outside(ph.pruned, ph.rank, ph.roots)
    && Merging.Grouped(ph.pruned, ph.rank, ph.dead, ph.roots, ph.grouped, ph.groupedRank, ph.list, ph.droppedSet)
    && Merging.DroppedBehind(ph.pruned, ph.rank, ph.roots, ph.list, ph.droppedSet)
    && Merging.KeptBelowRoots(ph.pruned, ph.roots, ph.grouped)
  }

  /** The subtrees of the dropped replies, in the order of the pruned root
      set. */
  ghost function Dropped(ph: Phases): (ts: seq<Tree>)
    requires Ranked(ph.pruned, ph.rank) && Within(ph.roots, |ph.pruned|)
  {
    ThoseWithin(ph.roots, ph.droppedSet, |ph.pruned|);
    ToForest(ph.pruned, ph.rank, Those(ph.roots, ph.droppedSet))
  }

  /** Step 5 of `thread` (jwz_threading.py:289-290) as trees:
      `sort_all_children` on the grouped list gives the forest of the list
      sorted by date, in the arena where every child list below it is sorted
      by date. */
  ghost function SortedTrees(ns: seq<Container>, rank: seq<nat>, list: seq<nat>): seq<Tree>
    requires Ranked(ns, rank) && Within(list, |ns|)
  {
    SameSubtrees(ns, SortedAt(ns, SubAll(ns, rank, list)), rank, list, SortByDate(ns, list));
    ToForest(SortedAt(ns, SubAll(ns, rank, list)), rank, SortByDate(ns, list))
  }

  /** Steps 1 to 4 of `thread` (jwz_threading.py:279-288): the containers
      built from `messages`, the parentless ones pruned and grouped by
      subject, recorded in `ph`. Every message that is last with its id
      ends below an entry of the grouped list, held by its own container, or
      in one of the `dropped` trees: the subtrees of the reply roots that
      grouping left out of the list. */
  method GroupedRoots(messages: seq<EmailMessage>) returns (a: Arena, grouped: seq<nat>, ghost ph: Phases, ghost dropped: seq<Tree>)
    ensures fresh(a) && a.Valid() && Within(grouped, |a.nodes|) && MessagesIn(a.nodes, messages)
    ensures PhasesOf(messages, ph) && ph.grouped == a.nodes && ph.groupedRank == a.rank && ph.list == grouped
    ensures Build.ParentsListed(Build.Built(messages).nodes, {})
    ensures dropped == Dropped(ph)
    ensures NoDup(grouped) && forall i :: 0 <= i < |grouped| ==> grouped[i] !in a.dead && a.nodes[grouped[i]].parent.None?
    ensures Unique(a.nodes) && LastHeld(a.nodes, messages)
    ensures forall m :: m in messages && Build.LastWithId(messages, m.messageId) == Some(m) ==>
      Shown(a.nodes, a.rank, grouped, m) || m in RealMessages(dropped)
    ensures forall m :: m in RealMessages(dropped) ==>
      Build.LastWithId(messages, m.messageId) == Some(m) && !Shown(a.nodes, a.rank, grouped, m)
    ensures forall t :: t in dropped ==> exists m :: m in messages && m in RealMessages([t]) && IsReplySubject(m.subject)
  {
    var table;
    a, table := Build.BuildContainers(messages);
    BuiltMessages(a.nodes, table, messages);
    BuiltHolds(a.nodes, table, messages);
    ghost var ns1, rank := a.nodes, a.rank;
    var roots := Build.RootSet(a.nodes);
    RootSetFits(a.nodes);
    roots := PruneRoots(a, roots);
    ghost var ns2, dead := a.nodes, a.dead;
    GrownHolds(ns1, ns2, messages);
    PrunedRootsFit(a.nodes, a.rank, a.dead, roots);
    ghost var droppedSet;
    grouped, droppedSet := Merging.GroupBySubject(a, roots);
    ghost var ns3, rank3 := a.nodes, a.rank;
    GroupedFacts(ns2, rank, a.dead, roots, ns3, rank3, grouped, droppedSet, messages);
    GrownHolds(ns2, ns3, messages);
    dropped := DroppedTrees(ns1, table, messages, rank, ns2, dead, roots, ns3, rank3, grouped, droppedSet);
    ph := Phases(ns2, rank, dead, roots, ns3, rank3, grouped, droppedSet);
  }

  /** The trees of the dropped replies of the grouping phase, and what the
      phases up to grouping guarantee about them and about the messages
      that are last with their ids. */
  lemma DroppedTrees(ns1: seq<Container>, table: map<string, nat>, messages: seq<EmailMessage>, rank: seq<nat>,
                     ns2: seq<Container>, dead: set<nat>, roots: seq<nat>,
                     ns3: seq<Container>, rank3: seq<nat>, grouped: seq<nat>, droppedSet: set<nat>)
    returns (dropped: seq<Tree>)
    requires Build.Bijective(ns1, table) && Build.MessagesFrom(ns1, table, messages)
    requires forall k :: k in table <==> k in Build.Ids(messages)
    requires Ranked(ns1, rank) && Build.ParentsListed(ns1, {}) && Within(Build.RootSet(ns1), |ns1|)
    requires Ranked(ns2, rank) && |ns2| == |ns1| && Within(roots, |ns2|)
    requires forall x :: 0 <= x < |ns2| ==> ns2[x].message == ns1[x].message
    requires ToForest(ns2, rank, roots) == PruneTrees(ToForest(ns1, rank, Build.RootSet(ns1)), true)
    requires Merging.RootSet(ns2, rank, dead, roots)
    requires Merging.Grouped(ns2, rank, dead, roots, ns3, rank3, grouped, droppedSet)
    requires Merging.KeptBelowRoots(ns2, roots, ns3) && Consistent(ns3, dead)
    requires Unique(ns3) && LastHeld(ns2, messages)
    ensures Within(grouped, |ns3|) && Within(Those(roots, droppedSet), |ns2|)
    ensures dropped == ToForest(ns2, rank, Those(roots, droppedSet))
    ensures forall m :: m in messages && Build.LastWithId(messages, m.messageId) == Some(m) ==>
      Shown(ns3, rank3, grouped, m) || m in RealMessages(dropped)
    ensures forall m :: m in RealMessages(dropped) ==>
      Build.LastWithId(messages, m.messageId) == Some(m) && !Shown(ns3, rank3, grouped, m)
    ensures forall t :: t in dropped ==> exists m :: m in messages && m in RealMessages([t]) && IsReplySubject(m.subject)
  {
    var droppedList := Those(roots, droppedSet);
    ThoseWithin(roots, droppedSet, |ns2|);
    dropped := ToForest(ns2, rank, droppedList);
    LastShownOrDropped(ns1, table, messages, rank, ns2, dead, roots, ns3, rank3, grouped, droppedSet, droppedList);
    forall m | m in RealMessages(dropped)
      ensures Build.LastWithId(messages, m.messageId) == Some(m) && !Shown(ns3, rank3, grouped, m)
    {
      DroppedHeld(ns2, rank, dead, roots, ns3, rank3, grouped, droppedSet, droppedList, messages, m);
    }
    DroppedReplies(ns2, rank, dead, roots, ns3, rank3, grouped, droppedSet, droppedList, messages);
  }

  /** Every message that is last with its id ends below the grouped list
      or below a dropped reply. */
  lemma LastShownOrDropped(ns1: seq<Container>, table: map<string, nat>, messages: seq<EmailMessage>, rank: seq<nat>,
                           ns2: seq<Container>, dead: set<nat>, roots: seq<nat>,
                           ns3: seq<Container>, rank3: seq<nat>, grouped: seq<nat>, droppedSet: set<nat>, droppedList: seq<nat>)
    requires Build.Bijective(ns1, table) && Build.MessagesFrom(ns1, table, messages)
    requires forall k :: k in table <==> k in Build.Ids(messages)
    requires Ranked(ns1, rank) && Build.ParentsListed(ns1, {}) && Within(Build.RootSet(ns1), |ns1|)
    requires Ranked(ns2, rank) && |ns2| == |ns1| && Within(roots, |ns2|)
    requires forall x :: 0 <= x < |ns2| ==> ns2[x].message == ns1[x].message
    requires ToForest(ns2, rank, roots) == PruneTrees(ToForest(ns1, rank, Build.RootSet(ns1)), true)
    requires Merging.RootSet(ns2, rank, dead, roots)
    requires Merging.Grouped(ns2, rank, dead, roots, ns3, rank3, grouped, droppedSet)
    requires Merging.KeptBelowRoots(ns2, roots, ns3)
    requires Within(droppedList, |ns2|) && forall d :: d in droppedSet ==> d in droppedList
    ensures Within(grouped, |ns3|)
    ensures forall m :: m in messages && Build.LastWithId(messages, m.messageId) == Some(m) ==>
      Shown(ns3, rank3, grouped, m) || m in RealMessages(ToForest(ns2, rank, droppedList))
  {
    forall m | m in messages && Build.LastWithId(messages, m.messageId) == Some(m)
      ensures Shown(ns3, rank3, grouped, m) || m in RealMessages(ToForest(ns2, rank, droppedList))
    {
      var y := PrunedHolder(ns1, table, messages, rank, ns2, roots, m);
      GroupedHolder(ns2, rank, dead, roots, ns3, rank3, grouped, droppedSet, droppedList, y);
    }
  }

  /** Every dropped tree holds a message of `messages` whose subject is a
      reply's. */
  lemma DroppedReplies(ns2: seq<Container>, rank: seq<nat>, dead: set<nat>, roots: seq<nat>,
                       ns3: seq<Container>, rank3: seq<nat>, grouped: seq<nat>, droppedSet: set<nat>, droppedList: seq<nat>,
                       messages: seq<EmailMessage>)
    requires Merging.Grouped(ns2, rank, dead, roots, ns3, rank3, grouped, droppedSet)
    requires LastHeld(ns2, messages)
    requires Within(droppedList, |ns2|) && forall i :: 0 <= i < |droppedList| ==> droppedList[i] in droppedSet
    ensures forall t :: t in ToForest(ns2, rank, droppedList) ==>
      exists m :: m in messages && m in RealMessages([t]) && IsReplySubject(m.subject)
  {
    var dropped := ToForest(ns2, rank, droppedList);
    forall t | t in dropped ensures exists m :: m in messages && m in RealMessages([t]) && IsReplySubject(m.subject) {
      var j :| 0 <= j < |dropped| && dropped[j] == t;
      var m := DroppedReply(ns2, rank, dead, roots, ns3, rank3, grouped, droppedSet, messages, droppedList[j]);
      assert ToForest(ns2, rank, [droppedList[j]]) == [t];
    }
  }

  /** `thread`: build the containers, take the parentless ones as the root
      set, prune, group by subject, sort by date and flatten. `ph` records
      the phases up to grouping; `forest` is the sorted forest of the
      grouped list and `dropped` the subtrees of the reply roots grouping
      leaves out. The lines are the intended flattening of the forest, whose
      every sibling list is sorted by date; the flattening as written fails
      exactly when a dummy container is left in that forest. Each line
      carries a message of `messages` that is the last with its id, no
      message twice, and every such message is shown on exactly one line
      unless it sits in a dropped tree, each of which holds a message whose
      subject is a reply's. With no reply subject among `messages`, nothing
      is dropped. When the built containers put `m` directly under `p`, and
      `p` is not dropped, `m`'s tree is a child of `p`'s tree and `m` is
      shown one level below `p`. */
  method Thread(messages: seq<EmailMessage>) returns (lines: seq<Line>, ghost forest: seq<Tree>, ghost dropped: seq<Tree>, ghost ph: Phases)
    ensures PhasesOf(messages, ph) && dropped == Dropped(ph)
    ensures forest == SortedTrees(ph.grouped, ph.groupedRank, ph.list)
    ensures lines == Flatten(forest, 0, None)
    ensures FlattenAsWritten(forest, 0, None) == if AllReal(forest) then Success(lines) else Failure(NoMessage)
    ensures forall i :: 0 <= i < |lines| ==>
      lines[i].message in messages && Build.LastWithId(messages, lines[i].message.messageId) == Some(lines[i].message)
    ensures NoDup(Messages(lines))
    ensures forall m :: m in messages && Build.LastWithId(messages, m.messageId) == Some(m) ==>
      multiset(Messages(lines))[m] == 1 || m in RealMessages(dropped)
    ensures forall m :: m in RealMessages(dropped) ==>
      m !in Messages(lines) && Build.LastWithId(messages, m.messageId) == Some(m)
    ensures forall t :: t in dropped ==> exists m :: m in messages && m in RealMessages([t]) && IsReplySubject(m.subject)
    ensures (forall m :: m in messages ==> !IsReplySubject(m.subject)) ==> dropped == []
    ensures forall p, m :: ParentOf(Build.Built(messages).nodes, p, m) && p !in RealMessages(dropped) ==>
      ChildIn(forest, p, m) && OneDeeper(lines, p, m)
    ensures forall i, j :: 0 <= i < j < |forest| ==> TreeDate(forest[i]) <= TreeDate(forest[j])
    ensures forall t :: t in forest ==> SortedTree(t)
  {
    var a, grouped;
    a, grouped, ph, dropped := GroupedRoots(messages);
    ghost var ns3, rank := a.nodes, a.rank;
    var bound := MaxRank(a.rank) + 1;
    var sorted := SortAllChildren(a, grouped, bound);
    SortedForest(ns3, a.nodes, a.rank, grouped, sorted, messages);
    lines := FlattenList(a, sorted, 0, None, bound);
    forest := ToForest(a.nodes, a.rank, sorted);
    FlattenAsWrittenAgrees(forest, 0, None);
    FlattenMessages(forest, 0, None);
    SortedUnique(ns3, a.nodes, rank, a.dead, grouped, sorted, messages);
    forall i | 0 <= i < |lines|
      ensures Build.LastWithId(messages, lines[i].message.messageId) == Some(lines[i].message)
    {
      assert lines[i].message == Messages(lines)[i];
    }
    LinesFrom(forest, messages);
    forall m | m in messages && Build.LastWithId(messages, m.messageId) == Some(m) && m !in RealMessages(dropped)
      ensures multiset(Messages(lines))[m] == 1
    {
      ShownAfterSort(ns3, a.nodes, rank, grouped, sorted, m);
      NoDupCountOne(Messages(lines), m);
    }
    forall m | m in RealMessages(dropped) ensures m !in Messages(lines) {
      ShownAfterSort(ns3, a.nodes, rank, grouped, sorted, m);
    }
    assert dropped != [] ==> dropped[0] in dropped;
    forall p, m | ParentOf(Build.Built(messages).nodes, p, m) && p !in RealMessages(dropped)
      ensures ChildIn(forest, p, m) && OneDeeper(lines, p, m)
    {
      ThreadKeepsLink(messages, ph, p, m);
      FlattenLink(forest, 0, None, p, m);
    }
  }

  /** `thread` on the three messages of `ChainLevels`: `a` at level 0, `b`
      at level 1 and `c` at level 2. */
  method ThreadOfChain(a: EmailMessage, b: EmailMessage, c: EmailMessage) returns (lines: seq<Line>)
    requires a.messageId == "a" && a.references == []
    requires b.messageId == "b" && b.references == ["a"]
    requires c.messageId == "c" && c.references == ["a", "b"]
    ensures |lines| == 3 && lines[0].message == a && lines[0].level == 0
    ensures b in Messages(lines) && c in Messages(lines)
    ensures forall i :: 0 <= i < |lines| && lines[i].message == b ==> lines[i].level == 1
    ensures forall i :: 0 <= i < |lines| && lines[i].message == c ==> lines[i].level == 2
  {
    ghost var forest, dropped, ph;
    lines, forest, dropped, ph := Thread([a, b, c]);
    ChainLevels(a, b, c, lines, forest, dropped, ph);
  }

  /** The example of three messages `a`, `b` and `c`, where `b` names `a`
      as its reference and `c` names `a` and `b`, whatever their subjects:
      whatever `Thread` returns for them, it shows three
      lines, `a` first at level 0, `b` at level 1 and `c` at level 2. */
  lemma ChainLevels(a: EmailMessage, b: EmailMessage, c: EmailMessage,
                    lines: seq<Line>, forest: seq<Tree>, dropped: seq<Tree>, ph: Phases)
    requires a.messageId == "a" && a.references == []
    requires b.messageId == "b" && b.references == ["a"]
    requires c.messageId == "c" && c.references == ["a", "b"]
    requires PhasesOf([a, b, c], ph) && dropped == Dropped(ph)
    requires lines == Flatten(forest, 0, None)
    requires forall i :: 0 <= i < |lines| ==> lines[i].message in [a, b, c]
    requires NoDup(Messages(lines))
    requires forall m :: m in [a, b, c] && Build.LastWithId([a, b, c], m.messageId) == Some(m) ==>
      multiset(Messages(lines))[m] == 1 || m in RealMessages(dropped)
    requires forall p, m :: ParentOf(Build.Built([a, b, c]).nodes, p, m) && p !in RealMessages(dropped) ==>
      OneDeeper(lines, p, m)
    ensures |lines| == 3 && lines[0].message == a && lines[0].level == 0
    ensures b in Messages(lines) && c in Messages(lines)
    ensures forall i :: 0 <= i < |lines| && lines[i].message == b ==> lines[i].level == 1
    ensures forall i :: 0 <= i < |lines| && lines[i].message == c ==> lines[i].level == 2
  {
    ChainNothingDropped(a, b, c, ph);
    assert RealMessages(dropped) == [];
    ChainShown(a, b, c, Messages(lines), dropped);
    ChainLinks(a, b, c);
    if lines != [] {
      FlattenFirstLevel(forest, 0, None);
    }
    ChainLines(a, b, c, lines);
  }

  /** In the three-message example each message is the last with its id,
      so each is shown when nothing is dropped. */
  lemma ChainShown(a: EmailMessage, b: EmailMessage, c: EmailMessage, shown: seq<EmailMessage>, dropped: seq<Tree>)
    requires a.messageId == "a" && b.messageId == "b" && c.messageId == "c"
    requires RealMessages(dropped) == []
    requires forall m :: m in [a, b, c] && Build.LastWithId([a, b, c], m.messageId) == Some(m) ==>
      multiset(shown)[m] == 1 || m in RealMessages(dropped)
    ensures a in shown && b in shown && c in shown
  {
    var ms := [a, b, c];
    assert ms[0] == a && ms[1] == b && ms[2] == c;
    Build.LastWithIdIsLast(ms, 0);
    Build.LastWithIdIsLast(ms, 1);
    Build.LastWithIdIsLast(ms, 2);
    assert a in ms && b in ms && c in ms;
    assert multiset(shown)[a] == 1 && multiset(shown)[b] == 1 && multiset(shown)[c] == 1;
  }

  /** Three distinct messages, shown with no message twice and nothing
      else, where `b` is one level below `a` and `c` one below `b`, in lines
      whose first line is at level 0: then `a` comes first, and `a`, `b`,
      `c` are at levels 0, 1, 2. */
  lemma ChainLines(a: EmailMessage, b: EmailMessage, c: EmailMessage, lines: seq<Line>)
    requires a != b && b != c && a != c
    requires lines != [] ==> lines[0].level == 0
    requires forall i :: 0 <= i < |lines| ==> lines[i].message in [a, b, c]
    requires NoDup(Messages(lines))
    requires a in Messages(lines) && b in Messages(lines) && c in Messages(lines)
    requires OneDeeper(lines, a, b) && OneDeeper(lines, b, c)
    ensures |lines| == 3 && lines[0].message == a && lines[0].level == 0
    ensures forall i :: 0 <= i < |lines| && lines[i].message == b ==> lines[i].level == 1
    ensures forall i :: 0 <= i < |lines| && lines[i].message == c ==> lines[i].level == 2
  {
    var ia, ib :| 0 <= ia < |lines| && 0 <= ib < |lines| && lines[ia].message == a && lines[ib].message == b
      && lines[ib].level == lines[ia].level + 1;
    var jb, ic :| 0 <= jb < |lines| && 0 <= ic < |lines| && lines[jb].message == b && lines[ic].message == c
      && lines[ic].level == lines[jb].level + 1;
    ChainCount(a, b, c, lines);
    LineOf(lines, ib, jb);
    LineOf(lines, 0, ia);
    LineOf(lines, 0, ib);
    LineOf(lines, 0, ic);
    forall i | 0 <= i < |lines| && lines[i].message == b ensures lines[i].level == 1 {
      LineOf(lines, i, ib);
    }
    forall i | 0 <= i < |lines| && lines[i].message == c ensures lines[i].level == 2 {
      LineOf(lines, i, ic);
    }
  }

  /** Lines showing each of three distinct messages once, and nothing
      else, are three. */
  lemma ChainCount(a: EmailMessage, b: EmailMessage, c: EmailMessage, lines: seq<Line>)
    requires a != b && b != c && a != c
    requires forall i :: 0 <= i < |lines| ==> lines[i].message in [a, b, c]
    requires NoDup(Messages(lines))
    requires a in Messages(lines) && b in Messages(lines) && c in Messages(lines)
    ensures |lines| == 3
  {
    var s := Messages(lines);
    forall i | 0 <= i < |s| ensures s[i] == a || s[i] == b || s[i] == c {
      assert s[i] == lines[i].message;
    }
    ThreeDistinct(s, a, b, c);
  }

  /** Two lines with the same message, among lines with distinct messages,
      are one line. */
  lemma LineOf(lines: seq<Line>, i: nat, j: nat)
    requires NoDup(Messages(lines)) && i < |lines| && j < |lines|
    ensures lines[i].message == lines[j].message ==> i == j
  {
    assert Messages(lines)[i] == lines[i].message && Messages(lines)[j] == lines[j].message;
  }

  /** A list of distinct values, each one of three distinct values that all
      occur in it, has length three. */
  lemma ThreeDistinct<T>(s: seq<T>, a: T, b: T, c: T)
    requires NoDup(s) && a in s && b in s && c in s && a != b && b != c && a != c
    requires forall i :: 0 <= i < |s| ==> s[i] == a || s[i] == b || s[i] == c
    ensures |s| == 3
  {
    NoDupCount(s);
    forall v ensures multiset(s)[v] == multiset([a, b, c])[v] {
      if v != a && v != b && v != c {
        assert v !in s;
      }
    }
    assert multiset(s) == multiset([a, b, c]);
    assert |multiset(s)| == |s|;
  }

  /** In the three-message example, the container of `a` lists that of `b`
      and the container of `b` lists that of `c`. */
  lemma ChainLinks(a: EmailMessage, b: EmailMessage, c: EmailMessage)
    requires a.messageId == "a" && a.references == []
    requires b.messageId == "b" && b.references == ["a"]
    requires c.messageId == "c" && c.references == ["a", "b"]
    ensures ParentOf(Build.Built([a, b, c]).nodes, a, b) && ParentOf(Build.Built([a, b, c]).nodes, b, c)
  {
    BuildLinks.ThreeMessageChain(a, b, c);
    var ns := Build.Built([a, b, c]).nodes;
    assert ns[0].message == Some(a) && ns[0].children[0] == 1 && ns[1].message == Some(b);
    assert ns[1].children[0] == 2 && ns[2].message == Some(c);
  }

  /** In the three-message example, pruning leaves one root, the container
      of `a`. */
  lemma ChainPruned(a: EmailMessage, b: EmailMessage, c: EmailMessage)
    requires a.messageId == "a" && a.references == []
    requires b.messageId == "b" && b.references == ["a"]
    requires c.messageId == "c" && c.references == ["a", "b"]
    ensures var bt := Build.Built([a, b, c]);
      && Within(Build.RootSet(bt.nodes), |bt.nodes|) && Ranked(bt.nodes, bt.rank)
      && var ts := PruneTrees(ToForest(bt.nodes, bt.rank, Build.RootSet(bt.nodes)), true);
         |ts| == 1 && ts[0].id == 0 && ts[0].message == Some(a)
  {
    var bt := Build.Built([a, b, c]);
    BuildLinks.ThreeMessageChain(a, b, c);
    ChainArenaPruned(bt.nodes, bt.rank, a, b, c);
  }

  /** Pruning the chain arena of `a`, `b`, `c` leaves one root, `a`'s. */
  lemma ChainArenaPruned(ns: seq<Container>, rank: seq<nat>, a: EmailMessage, b: EmailMessage, c: EmailMessage)
    requires ns == [Container(Some(a), None, [1]), Container(Some(b), Some(0), [2]), Container(Some(c), Some(1), [])]
    requires Ranked(ns, rank)
    ensures Within(Build.RootSet(ns), |ns|)
    ensures var ts := PruneTrees(ToForest(ns, rank, Build.RootSet(ns)), true);
      |ts| == 1 && ts[0].id == 0 && ts[0].message == Some(a)
  {
    assert Build.RootSet(ns) == [0] by {
      assert Build.RootsBelow(ns, 1) == [0];
      assert Build.RootsBelow(ns, 2) == [0];
    }
    var t0 := ToTree(ns, rank, 0);
    assert t0.id == 0 && t0.message == Some(a);
    assert ToForest(ns, rank, [0]) == [t0];
    var n0 := Node(0, Some(a), PruneTrees(t0.kids, false));
    assert PruneOne(t0, true) == [n0];
    assert PruneTrees([t0], true) == [n0] by {
      assert [t0][1..] == [];
    }
  }

  /** In the three-message example, whatever the subjects, the root set
      after pruning is `a`'s container alone, and grouping drops nothing. */
  lemma ChainNothingDropped(a: EmailMessage, b: EmailMessage, c: EmailMessage, ph: Phases)
    requires a.messageId == "a" && a.references == []
    requires b.messageId == "b" && b.references == ["a"]
    requires c.messageId == "c" && c.references == ["a", "b"]
    requires PhasesOf([a, b, c], ph)
    ensures Ranked(ph.pruned, ph.rank) && Within(ph.roots, |ph.pruned|)
    ensures ph.roots == [0] && RealMessages(Dropped(ph)) == []
  {
    ChainPruned(a, b, c);
    SingleRoot(ph.pruned, ph.rank, ph.roots, a);
    FirstRootKept(ph.pruned, ph.rank, ph.roots, ph.list, ph.droppedSet);
    NoneDropped(ph);
  }

  /** A single root that the grouping keeps leaves no dropped trees. */
  lemma NoneDropped(ph: Phases)
    requires Ranked(ph.pruned, ph.rank) && ph.roots == [0] && 0 < |ph.pruned| && 0 !in ph.droppedSet
    ensures RealMessages(Dropped(ph)) == []
  {
    assert Those(ph.roots, ph.droppedSet) == [] by {
      assert Those([0], ph.droppedSet) == [] + Those([0][1..], ph.droppedSet);
      assert [0][1..] == [];
    }
    assert Dropped(ph) == [];
  }

  /** The first root is never dropped: no earlier root shares its key. */
  lemma FirstRootKept(ns: seq<Container>, rank: seq<nat>, roots: seq<nat>, grouped: seq<nat>, dropped: set<nat>)
    requires Ranked(ns, rank) && Within(roots, |ns|) && 0 < |roots|
    requires Merging.DroppedBehind(ns, rank, roots, grouped, dropped)
    ensures roots[0] !in dropped
  {
  }

  /** A root list whose forest is one tree, with id 0 and message `m`, is
      `[0]`, and container 0 holds `m`. */
  lemma SingleRoot(ns: seq<Container>, rank: seq<nat>, roots: seq<nat>, m: EmailMessage)
    requires Ranked(ns, rank) && Within(roots, |ns|)
    requires var ts := ToForest(ns, rank, roots); |ts| == 1 && ts[0].id == 0 && ts[0].message == Some(m)
    ensures roots == [0] && ns[0].message == Some(m)
  {
    ToTreeKids(ns, rank, roots[0]);
  }


  /** From the built containers to the sorted forest: when the container of
      `p` lists that of `m` among its children and `p` is not in a dropped
      tree, the tree of `m` is a child of the tree of `p` in the sorted
      forest. Pruning removes dummies only, grouping links roots only and
      sorting reorders child lists only. */
  lemma ThreadKeepsLink(messages: seq<EmailMessage>, ph: Phases, p: EmailMessage, m: EmailMessage)
    requires PhasesOf(messages, ph) && Build.ParentsListed(Build.Built(messages).nodes, {})
    requires ParentOf(Build.Built(messages).nodes, p, m) && p !in RealMessages(Dropped(ph))
    ensures ChildIn(SortedTrees(ph.grouped, ph.groupedRank, ph.list), p, m)
  {
    var b := Build.Built(messages);
    RootSetFits(b.nodes);
    PrunedKeepsLink(b.nodes, b.rank, ph.pruned, ph.roots, p, m);
    GroupedKeepsLink(ph, p, m);
  }

  /** From the built containers to the pruned ones: a link in the built
      arena is a link below the pruned root set. */
  lemma PrunedKeepsLink(ns1: seq<Container>, rank: seq<nat>, ns2: seq<Container>, roots: seq<nat>, p: EmailMessage, m: EmailMessage)
    requires Ranked(ns1, rank) && Build.ParentsListed(ns1, {}) && Within(Build.RootSet(ns1), |ns1|)
    requires Ranked(ns2, rank) && Within(roots, |ns2|)
    requires ToForest(ns2, rank, roots) == PruneTrees(ToForest(ns1, rank, Build.RootSet(ns1)), true)
    requires ParentOf(ns1, p, m)
    ensures ParentBelow(ns2, rank, roots, p, m)
  {
    var x, i :| 0 <= x < |ns1| && ns1[x].message == Some(p) && 0 <= i < |ns1[x].children|
      && ns1[x].children[i] < |ns1| && ns1[ns1[x].children[i]].message == Some(m);
    var rs := Build.RootSet(ns1);
    Build.RootSetCovers(ns1, rank, x);
    var r0 :| r0 in rs && Reaches(ns1, rank, r0, x);
    var k0 :| 0 <= k0 < |rs| && rs[k0] == r0;
    assert BelowSome(ns1, rank, rs, x);
    LinkInForest(ns1, rank, rs, p, m);
    PruneKeepsLink(ToForest(ns1, rank, rs), true, p, m);
    LinkFromForest(ns2, rank, roots, p, m);
  }

  /** From the pruned containers to the sorted forest: a link below the
      pruned root set and outside the dropped trees is a link of the sorted
      forest of the grouped list. */
  lemma GroupedKeepsLink(ph: Phases, p: EmailMessage, m: EmailMessage)
    requires Merging.RootSet(ph.pruned, ph.rank, ph.dead, ph.roots)
    requires Merging.Grouped(ph.pruned, ph.rank, ph.dead, ph.roots, ph.grouped, ph.groupedRank, ph.list, ph.droppedSet)
    requires Merging.KeptBelowRoots(ph.pruned, ph.roots, ph.grouped)
    requires ParentBelow(ph.pruned, ph.rank, ph.roots, p, m) && p !in RealMessages(Dropped(ph))
    ensures Within(ph.list, |ph.grouped|) && ChildIn(SortedTrees(ph.grouped, ph.groupedRank, ph.list), p, m)
  {
    var x2, i2 :| 0 <= x2 < |ph.pruned| && BelowSome(ph.pruned, ph.rank, ph.roots, x2) && ph.pruned[x2].message == Some(p)
      && 0 <= i2 < |ph.pruned[x2].children| && ph.pruned[ph.pruned[x2].children[i2]].message == Some(m);
    var k :| 0 <= k < |ph.roots| && Reaches(ph.pruned, ph.rank, ph.roots[k], x2);
    DroppedHolds(ph, k, x2);
    GroupKeepsLink(ph.pruned, ph.rank, ph.dead, ph.roots, ph.grouped, ph.groupedRank, ph.list, ph.droppedSet,
                   ph.roots[k], x2, i2, p, m);
    var ns4 := SortedAt(ph.grouped, SubAll(ph.grouped, ph.groupedRank, ph.list));
    var sorted := SortByDate(ph.grouped, ph.list);
    SortKeepsLink(ph.grouped, ns4, ph.groupedRank, ph.list, sorted, p, m);
    LinkInForest(ns4, ph.groupedRank, sorted, p, m);
  }

  /** A real container in the subtree of a dropped root holds a message of
      a dropped tree. */
  lemma DroppedHolds(ph: Phases, k: nat, x: nat)
    requires Ranked(ph.pruned, ph.rank) && Within(ph.roots, |ph.pruned|) && k < |ph.roots|
    requires x < |ph.pruned| && Reaches(ph.pruned, ph.rank, ph.roots[k], x) && ph.pruned[x].message.Some?
    ensures ph.roots[k] in ph.droppedSet ==> ph.pruned[x].message.value in RealMessages(Dropped(ph))
  {
    var list := Those(ph.roots, ph.droppedSet);
    ThoseWithin(ph.roots, ph.droppedSet, |ph.pruned|);
    if ph.roots[k] in ph.droppedSet {
      var j :| 0 <= j < |list| && list[j] == ph.roots[k];
      assert BelowSome(ph.pruned, ph.rank, list, x);
      ReachedInForest(ph.pruned, ph.rank, list, x);
      RealHeld(ph.pruned, ph.rank, list, x);
    }
  }

  /** Grouping keeps every link below a root that is not dropped: the link
      is below an entry of the grouped list afterwards. */
  lemma GroupKeepsLink(ns0: seq<Container>, rank0: seq<nat>, dead: set<nat>, roots: seq<nat>,
                       ns: seq<Container>, rank: seq<nat>, grouped: seq<nat>, dropped: set<nat>,
                       r: nat, x: nat, i: nat, p: EmailMessage, m: EmailMessage)
    requires Merging.RootSet(ns0, rank0, dead, roots)
    requires Merging.Grouped(ns0, rank0, dead, roots, ns, rank, grouped, dropped)
    requires Merging.KeptBelowRoots(ns0, roots, ns)
    requires r in roots && r !in dropped && x < |ns0| && Reaches(ns0, rank0, r, x)
    requires ns0[x].message == Some(p) && i < |ns0[x].children| && ns0[ns0[x].children[i]].message == Some(m)
    ensures Within(grouped, |ns|) && ParentBelow(ns, rank, grouped, p, m)
  {
    var k :| 0 <= k < |roots| && roots[k] == r;
    assert BelowSome(ns, rank, grouped, r);
    var g :| 0 <= g < |grouped| && Reaches(ns, rank, grouped[g], r);
    Merging.KeptReaches(ns0, rank0, dead, roots, ns, rank, r, x);
    ReachesTrans(ns, rank, grouped[g], r, x);
    var y := ns0[x].children[i];
    assert y in ns[x].children by {
      if x !in roots {
        assert ns[x] == ns0[x];
      }
    }
    var j :| 0 <= j < |ns[x].children| && ns[x].children[j] == y;
    assert BelowSome(ns, rank, grouped, x);
  }

  /** Sorting keeps every link below the list it sorts. */
  lemma SortKeepsLink(ns: seq<Container>, ns2: seq<Container>, rank: seq<nat>, grouped: seq<nat>, sorted: seq<nat>,
                      p: EmailMessage, m: EmailMessage)
    requires Ranked(ns, rank) && Within(grouped, |ns|)
    requires ns2 == SortedAt(ns, SubAll(ns, rank, grouped)) && sorted == SortByDate(ns, grouped)
    requires ParentBelow(ns, rank, grouped, p, m)
    ensures Within(sorted, |ns2|) && Ranked(ns2, rank) && ParentBelow(ns2, rank, sorted, p, m)
  {
    SameSubtrees(ns, ns2, rank, grouped, sorted);
    SortedAtSameLinks(ns, SubAll(ns, rank, grouped));
    var x, i :| 0 <= x < |ns| && BelowSome(ns, rank, grouped, x) && ns[x].message == Some(p)
      && 0 <= i < |ns[x].children| && ns[ns[x].children[i]].message == Some(m);
    var y := ns[x].children[i];
    assert y in multiset(ns2[x].children) by {
      assert y in multiset(ns[x].children);
    }
    var j :| 0 <= j < |ns2[x].children| && ns2[x].children[j] == y;
    assert x in SubAll(ns, rank, grouped);
    assert BelowSome(ns2, rank, sorted, x);
  }

  /** After `sort_all_children`, the forest of the sorted list holds
      exactly the messages below the grouped list. */
  lemma ShownAfterSort(ns: seq<Container>, ns2: seq<Container>, rank: seq<nat>, grouped: seq<nat>, sorted: seq<nat>, m: EmailMessage)
    requires Ranked(ns, rank) && Within(grouped, |ns|)
    requires ns2 == SortedAt(ns, SubAll(ns, rank, grouped)) && sorted == SortByDate(ns, grouped)
    ensures Within(sorted, |ns2|) && Ranked(ns2, rank)
    ensures m in RealMessages(ToForest(ns2, rank, sorted)) <==> Shown(ns, rank, grouped, m)
  {
    SameSubtrees(ns, ns2, rank, grouped, sorted);
    if m in RealMessages(ToForest(ns2, rank, sorted)) {
      SortedShown(ns, ns2, rank, grouped, sorted, m);
    }
    if Shown(ns, rank, grouped, m) {
      ShownSorted(ns, ns2, rank, grouped, sorted, m);
    }
  }

  /** A message of the sorted forest was shown under the grouped roots. */
  lemma SortedShown(ns: seq<Container>, ns2: seq<Container>, rank: seq<nat>, grouped: seq<nat>, sorted: seq<nat>, m: EmailMessage)
    requires Ranked(ns, rank) && Within(grouped, |ns|) && Ranked(ns2, rank) && Within(sorted, |ns2|) && |ns2| == |ns|
    requires SubAll(ns2, rank, sorted) == SubAll(ns, rank, grouped)
    requires forall y :: 0 <= y < |ns| ==> ns2[y].message == ns[y].message
    requires m in RealMessages(ToForest(ns2, rank, sorted))
    ensures Shown(ns, rank, grouped, m)
  {
    var y := HeldReal(ns2, rank, sorted, m);
    RealsInForest(ns2, rank, sorted, y);
    assert y in SubAll(ns2, rank, sorted);
    assert BelowSome(ns, rank, grouped, y);
  }

  /** A message shown under the grouped roots is in the sorted forest. */
  lemma ShownSorted(ns: seq<Container>, ns2: seq<Container>, rank: seq<nat>, grouped: seq<nat>, sorted: seq<nat>, m: EmailMessage)
    requires Ranked(ns, rank) && Within(grouped, |ns|) && Ranked(ns2, rank) && Within(sorted, |ns2|) && |ns2| == |ns|
    requires SubAll(ns2, rank, sorted) == SubAll(ns, rank, grouped)
    requires forall y :: 0 <= y < |ns| ==> ns2[y].message == ns[y].message
    requires Shown(ns, rank, grouped, m)
    ensures m in RealMessages(ToForest(ns2, rank, sorted))
  {
    var y :| 0 <= y < |ns| && ns[y].message == Some(m) && BelowSome(ns, rank, grouped, y);
    assert y in SubAll(ns, rank, grouped);
    ReachedInForest(ns2, rank, sorted, y);
    RealHeld(ns2, rank, sorted, y);
  }

  /** The sorted list below the sorted arena covers the same containers,
      holding the same messages, as the grouped list before sorting. */
  lemma SameSubtrees(ns: seq<Container>, ns2: seq<Container>, rank: seq<nat>, grouped: seq<nat>, sorted: seq<nat>)
    requires Ranked(ns, rank) && Within(grouped, |ns|)
    requires ns2 == SortedAt(ns, SubAll(ns, rank, grouped)) && sorted == SortByDate(ns, grouped)
    ensures Within(sorted, |ns2|) && Ranked(ns2, rank) && |ns2| == |ns|
    ensures SubAll(ns2, rank, sorted) == SubAll(ns, rank, grouped)
    ensures forall y :: 0 <= y < |ns| ==> ns2[y].message == ns[y].message
  {
    SortedAtSameLinks(ns, SubAll(ns, rank, grouped));
    SameLinksRanked(ns, ns2, rank);
    SortedWithin(ns, grouped);
    SubAllPermutation(ns, rank, grouped, sorted);
    SubAllSameLinks(ns, ns2, rank, sorted);
  }

  /** After `sort_all_children` on a list of distinct, live, parentless
      containers, the forest of the sorted list holds no message twice, and
      each of its messages is the last with its id. */
  lemma SortedUnique(ns: seq<Container>, ns2: seq<Container>, rank: seq<nat>, dead: set<nat>, grouped: seq<nat>, sorted: seq<nat>,
                     messages: seq<EmailMessage>)
    requires Ranked(ns, rank) && Within(grouped, |ns|) && NoDup(grouped)
    requires forall i :: 0 <= i < |grouped| ==> grouped[i] !in dead && ns[grouped[i]].parent.None?
    requires ns2 == SortedAt(ns, SubAll(ns, rank, grouped)) && sorted == SortByDate(ns, grouped)
    requires Ranked(ns2, rank) && Consistent(ns2, dead)
    requires Unique(ns) && LastHeld(ns, messages)
    ensures Within(sorted, |ns2|)
    ensures NoDup(RealMessages(ToForest(ns2, rank, sorted)))
    ensures forall m :: m in RealMessages(ToForest(ns2, rank, sorted)) ==> Build.LastWithId(messages, m.messageId) == Some(m)
  {
    SortedAtSameLinks(ns, SubAll(ns, rank, grouped));
    SortedWithin(ns, grouped);
    NoDupPermutation(grouped, sorted);
    forall i | 0 <= i < |sorted| ensures sorted[i] !in dead && ns2[sorted[i]].parent.None? {
      assert sorted[i] in multiset(grouped);
    }
    LiveSiblings(ns2, rank, dead, sorted);
    ForestRealsNoDup(ns2, rank, sorted, None, MaxRank(rank) + 1);
    GrownHolds(ns, ns2, messages);
    ForestHolds(ns2, rank, sorted);
    NoDupHeld(ns2, Reals(ToForest(ns2, rank, sorted)), RealMessages(ToForest(ns2, rank, sorted)));
    forall m | m in RealMessages(ToForest(ns2, rank, sorted)) ensures Build.LastWithId(messages, m.messageId) == Some(m) {
      var y := HeldReal(ns2, rank, sorted, m);
    }
  }

  /** The forest left by `sort_all_children` on the grouped list holds
      messages of `messages` only, and every sibling list in it is sorted
      by date. */
  lemma SortedForest(ns: seq<Container>, ns2: seq<Container>, rank: seq<nat>, grouped: seq<nat>, sorted: seq<nat>,
                     messages: seq<EmailMessage>)
    requires Ranked(ns, rank) && Within(grouped, |ns|) && MessagesIn(ns, messages)
    requires ns2 == SortedAt(ns, SubAll(ns, rank, grouped)) && sorted == SortByDate(ns, grouped)
    ensures Within(sorted, |ns2|) && Ranked(ns2, rank)
    ensures var forest := ToForest(ns2, rank, sorted);
      && (forall m :: m in RealMessages(forest) ==> m in messages)
      && (forall i, j :: 0 <= i < j < |forest| ==> TreeDate(forest[i]) <= TreeDate(forest[j]))
      && (forall t :: t in forest ==> SortedTree(t))
  {
    SortedPhase(ns, ns2, rank, grouped, sorted);
    SortedAtSameLinks(ns, SubAll(ns, rank, grouped));
    ForestMessages(ns2, rank, sorted, messages, MaxRank(rank) + 1);
  }

  /** The lines of a forest whose messages all come from `messages` carry
      messages of that list. */
  lemma LinesFrom(forest: seq<Tree>, messages: seq<EmailMessage>)
    requires forall m :: m in RealMessages(forest) ==> m in messages
    ensures var lines := Flatten(forest, 0, None);
      forall i :: 0 <= i < |lines| ==> lines[i].message in messages
  {
    var lines := Flatten(forest, 0, None);
    FlattenMessages(forest, 0, None);
    forall i | 0 <= i < |lines| ensures lines[i].message in messages {
      assert lines[i].message == Messages(lines)[i];
    }
  }
}
