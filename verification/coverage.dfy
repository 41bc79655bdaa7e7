/** Which containers, and so which messages, a forest of the arena shows:
    the real containers of a forest are exactly those below its roots,
    each once when the roots are distinct siblings, and the messages the
    forest yields are theirs, in the same pre-order. The threading
    pipeline composes these facts into its promise about the lines it
    returns. */
module Coverage {
  import opened Wrappers
  import opened Mail
  import opened Containers
  import opened Pruning
  import opened Text
  import opened Flattening
  import opened Frames
  import opened Grouping
  import Build
  import Merging

  /** A real container below `x` is among the real containers of its
      tree. */
  lemma {:induction false} ReachedReal(ns: seq<Container>, rank: seq<nat>, x: nat, y: nat)
    requires Ranked(ns, rank) && x < |ns| && Reaches(ns, rank, x, y) && y < |ns| && ns[y].message.Some?
    ensures y in RealsOne(ToTree(ns, rank, x))
    decreases rank[x]
  {
    ToTreeKids(ns, rank, x);
    if x != y {
      var cs := ns[x].children;
      var i :| 0 <= i < |cs| && Reaches(ns, rank, cs[i], y);
      ReachedReal(ns, rank, cs[i], y);
      RealsAt(ToForest(ns, rank, cs), i);
    }
  }

  /** The real containers of one tree of a forest are among those of the
      forest. */
  lemma RealsAt(ts: seq<Tree>, i: nat)
    requires i < |ts|
    ensures forall y :: y in RealsOne(ts[i]) ==> y in Reals(ts)
  {
    assert ts == ts[..i] + ts[i..];
    RealsAppend(ts[..i], ts[i..]);
    assert ts[i..][1..] == ts[i + 1..];
  }

  /** A real container below an entry of `xs` is a real container of the
      forest of `xs`. */
  lemma ReachedInForest(ns: seq<Container>, rank: seq<nat>, xs: seq<nat>, y: nat)
    requires Ranked(ns, rank) && Within(xs, |ns|) && y < |ns| && ns[y].message.Some?
    requires BelowSome(ns, rank, xs, y)
    ensures y in Reals(ToForest(ns, rank, xs))
  {
    var i :| 0 <= i < |xs| && Reaches(ns, rank, xs[i], y);
    ReachedReal(ns, rank, xs[i], y);
    RealsAt(ToForest(ns, rank, xs), i);
  }

  /** Every real container of the tree of `x` is a real container below
      `x`. */
  lemma {:induction false} RealReached(ns: seq<Container>, rank: seq<nat>, x: nat, y: nat)
    requires Ranked(ns, rank) && x < |ns| && y in RealsOne(ToTree(ns, rank, x))
    ensures y < |ns| && Reaches(ns, rank, x, y) && ns[y].message.Some?
    decreases rank[x]
  {
    ToTreeKids(ns, rank, x);
    var cs := ns[x].children;
    if y != x || ns[x].message.None? {
      assert y in Reals(ToForest(ns, rank, cs));
      var i := RealsWhere(ToForest(ns, rank, cs), y);
      RealReached(ns, rank, cs[i], y);
      assert Reaches(ns, rank, cs[i], y);
    }
  }

  /** A real container of a forest is a real container of one of its
      trees. */
  lemma {:induction false} RealsWhere(ts: seq<Tree>, y: nat) returns (i: nat)
    requires y in Reals(ts)
    ensures i < |ts| && y in RealsOne(ts[i])
    decreases ts
  {
    if y in RealsOne(ts[0]) {
      i := 0;
    } else {
      var j := RealsWhere(ts[1..], y);
      i := j + 1;
    }
  }

  /** The real containers of the forest of `xs` all lie below its
      entries. */
  lemma RealsInForest(ns: seq<Container>, rank: seq<nat>, xs: seq<nat>, y: nat)
    requires Ranked(ns, rank) && Within(xs, |ns|) && y in Reals(ToForest(ns, rank, xs))
    ensures y < |ns| && BelowSome(ns, rank, xs, y) && ns[y].message.Some?
  {
    var i := RealsWhere(ToForest(ns, rank, xs), y);
    RealReached(ns, rank, xs[i], y);
  }

  /** In the forest of a list of distinct siblings, no real container
      occurs twice. */
  lemma {:induction false} ForestRealsNoDup(ns: seq<Container>, rank: seq<nat>, list: seq<nat>, owner: Option<nat>, bound: nat)
    requires SiblingList(ns, rank, list, owner, bound)
    ensures NoDup(Reals(ToForest(ns, rank, list)))
    decreases bound, |list|
  {
    if list != [] {
      var x, rest := list[0], list[1..];
      HeadAndRest(ns, rank, list, owner, bound);
      ForestRealsNoDup(ns, rank, ns[x].children, Some(x), rank[x]);
      ForestRealsNoDup(ns, rank, rest, owner, bound);
      TreeRealsNoDup(ns, rank, x);
      RealsWithin(ns, rank, [x]);
      RealsWithin(ns, rank, rest);
      var f := ToForest(ns, rank, list);
      assert f[0] == ToTree(ns, rank, x) && f[1..] == ToForest(ns, rank, rest);
      var one := ToForest(ns, rank, [x]);
      assert Reals(one) == RealsOne(ToTree(ns, rank, x)) by {
        assert one[1..] == [];
      }
      NoDupAppend(Reals(one), Reals(ToForest(ns, rank, rest)), SubAll(ns, rank, [x]), SubAll(ns, rank, rest));
    }
  }

  /** The first entry of a sibling list and the rest: the rest is a
      sibling list, the first entry's children form one, and the first
      subtree is disjoint from the others. */
  lemma HeadAndRest(ns: seq<Container>, rank: seq<nat>, list: seq<nat>, owner: Option<nat>, bound: nat)
    requires SiblingList(ns, rank, list, owner, bound) && list != []
    ensures SiblingList(ns, rank, list[1..], owner, bound)
    ensures SiblingList(ns, rank, ns[list[0]].children, Some(list[0]), rank[list[0]])
    ensures Within([list[0]], |ns|)
    ensures SubAll(ns, rank, [list[0]]) !! SubAll(ns, rank, list[1..])
    ensures list[0] !in SubAll(ns, rank, ns[list[0]].children)
  {
    var x, rest := list[0], list[1..];
    SplitSubAll(ns, rank, list);
    assert LinkedIn(ns, SubAll(ns, rank, rest));
    assert LinkedIn(ns, Sub(ns, rank, x));
    ChildrenAreSiblings(ns, rank, x);
    HeadDisjoint(ns, rank, list, owner, bound);
  }

  lemma SplitSubAll(ns: seq<Container>, rank: seq<nat>, list: seq<nat>)
    requires Ranked(ns, rank) && Within(list, |ns|) && list != []
    ensures Within([list[0]], |ns|) && Within(list[1..], |ns|)
    ensures SubAll(ns, rank, list) == Sub(ns, rank, list[0]) + SubAll(ns, rank, list[1..])
    ensures SubAll(ns, rank, [list[0]]) == Sub(ns, rank, list[0])
  {
    assert list == [list[0]] + list[1..];
    SubAllAppend(ns, rank, [list[0]], list[1..]);
    SubAllOne(ns, rank, list[0]);
  }

  lemma HeadDisjoint(ns: seq<Container>, rank: seq<nat>, list: seq<nat>, owner: Option<nat>, bound: nat)
    requires SiblingList(ns, rank, list, owner, bound) && list != []
    ensures Within(list[1..], |ns|) && Sub(ns, rank, list[0]) !! SubAll(ns, rank, list[1..])
  {
    var rest := list[1..];
    assert Within(rest, |ns|);
    forall y | y in SubAll(ns, rank, rest) ensures y !in Sub(ns, rank, list[0]) {
      var j :| 0 <= j < |rest| && Reaches(ns, rank, rest[j], y);
      SiblingsDisjoint(ns, rank, list, owner, bound, 0, j + 1);
      assert y in Sub(ns, rank, list[j + 1]);
    }
  }

  /** The real containers of one tree occur once each, given that those
      of its children's forest do. */
  lemma TreeRealsNoDup(ns: seq<Container>, rank: seq<nat>, x: nat)
    requires Ranked(ns, rank) && x < |ns|
    requires Within(ns[x].children, |ns|) && x !in SubAll(ns, rank, ns[x].children)
    requires NoDup(Reals(ToForest(ns, rank, ns[x].children)))
    ensures NoDup(RealsOne(ToTree(ns, rank, x)))
  {
    ToTreeKids(ns, rank, x);
    var cs := ns[x].children;
    RealsWithin(ns, rank, cs);
    var head: seq<nat> := if ns[x].message.Some? then [x] else [];
    NoDupAppend(head, Reals(ToForest(ns, rank, cs)), {x}, SubAll(ns, rank, cs));
  }

  /** The real containers of the forest of `xs` lie in the subtrees of
      its entries. */
  lemma RealsWithin(ns: seq<Container>, rank: seq<nat>, xs: seq<nat>)
    requires Ranked(ns, rank) && Within(xs, |ns|)
    ensures forall j :: 0 <= j < |Reals(ToForest(ns, rank, xs))| ==> Reals(ToForest(ns, rank, xs))[j] in SubAll(ns, rank, xs)
  {
    var rs := Reals(ToForest(ns, rank, xs));
    forall j | 0 <= j < |rs| ensures rs[j] in SubAll(ns, rank, xs) {
      RealsInForest(ns, rank, xs, rs[j]);
    }
  }

  /** Every tree of the forest carries the id and the message of its
      container. */
  ghost predicate Labelled(ts: seq<Tree>, ns: seq<Container>)
    decreases ts
  {
    forall i :: 0 <= i < |ts| ==>
      ts[i].id < |ns| && ts[i].message == ns[ts[i].id].message && Labelled(ts[i].kids, ns)
  }

  lemma {:induction false} ForestLabelled(ns: seq<Container>, rank: seq<nat>, xs: seq<nat>, bound: nat)
    requires Ranked(ns, rank) && Within(xs, |ns|) && forall i :: 0 <= i < |xs| ==> rank[xs[i]] < bound
    ensures Labelled(ToForest(ns, rank, xs), ns)
    decreases bound
  {
    var f := ToForest(ns, rank, xs);
    forall i | 0 <= i < |xs| ensures f[i].id < |ns| && f[i].message == ns[f[i].id].message && Labelled(f[i].kids, ns) {
      ToTreeKids(ns, rank, xs[i]);
      ForestLabelled(ns, rank, ns[xs[i]].children, rank[xs[i]]);
    }
  }

  /** Position `i` of `ids` names a container holding message `ms[i]`. */
  ghost predicate HoldsAt(ns: seq<Container>, ids: seq<nat>, ms: seq<EmailMessage>) {
    |ids| == |ms| && forall i :: 0 <= i < |ids| ==> ids[i] < |ns| && ns[ids[i]].message == Some(ms[i])
  }

  lemma HoldsAppend(ns: seq<Container>, ids1: seq<nat>, ms1: seq<EmailMessage>, ids2: seq<nat>, ms2: seq<EmailMessage>)
    requires HoldsAt(ns, ids1, ms1) && HoldsAt(ns, ids2, ms2)
    ensures HoldsAt(ns, ids1 + ids2, ms1 + ms2)
  {
  }

  /** The messages a labelled forest yields are those of its real
      containers, in the same order. */
  lemma {:induction false} RealsHold(ts: seq<Tree>, ns: seq<Container>)
    requires Labelled(ts, ns)
    ensures HoldsAt(ns, Reals(ts), RealMessages(ts))
    decreases ts
  {
    if ts != [] {
      var t := ts[0];
      RealsHold(t.kids, ns);
      RealsHold(ts[1..], ns);
      var ids0: seq<nat> := if t.message.Some? then [t.id] else [];
      var ms0 := if t.message.Some? then [t.message.value] else [];
      HoldsAppend(ns, ids0, ms0, Reals(t.kids), RealMessages(t.kids));
      HoldsAppend(ns, ids0 + Reals(t.kids), ms0 + RealMessages(t.kids), Reals(ts[1..]), RealMessages(ts[1..]));
    }
  }

  /** A value at exactly one position of a sequence occurs once in its
      multiset. */
  lemma CountOne<T>(s: seq<T>, i: nat, v: T)
    requires i < |s| && s[i] == v && forall j :: 0 <= j < |s| && s[j] == v ==> j == i
    ensures multiset(s)[v] == 1
  {
    assert s == s[..i] + [v] + s[i + 1..];
    forall x | x in s[..i] ensures x != v {
      var k :| 0 <= k < i && s[..i][k] == x;
      assert s[k] == x;
    }
    var tail := s[i + 1..];
    forall x | x in tail ensures x != v {
      var k :| 0 <= k < |tail| && tail[k] == x;
      assert s[i + 1 + k] == x;
    }
  }

  /** A value that occurs in a duplicate-free sequence occurs once in its
      multiset. */
  lemma NoDupCountOne<T>(s: seq<T>, v: T)
    requires NoDup(s) && v in s
    ensures multiset(s)[v] == 1
  {
    var i :| 0 <= i < |s| && s[i] == v;
    CountOne(s, i, v);
  }

  /** The real containers of a forest of the arena hold its messages, in
      the same order. */
  lemma ForestHolds(ns: seq<Container>, rank: seq<nat>, xs: seq<nat>)
    requires Ranked(ns, rank) && Within(xs, |ns|)
    ensures HoldsAt(ns, Reals(ToForest(ns, rank, xs)), RealMessages(ToForest(ns, rank, xs)))
  {
    ForestLabelled(ns, rank, xs, MaxRank(rank) + 1);
    RealsHold(ToForest(ns, rank, xs), ns);
  }

  /** The message of a real container of a forest is among the forest's
      messages. */
  lemma RealHeld(ns: seq<Container>, rank: seq<nat>, xs: seq<nat>, y: nat)
    requires Ranked(ns, rank) && Within(xs, |ns|) && y in Reals(ToForest(ns, rank, xs))
    ensures y < |ns| && ns[y].message.Some? && ns[y].message.value in RealMessages(ToForest(ns, rank, xs))
  {
    ForestHolds(ns, rank, xs);
    var ids := Reals(ToForest(ns, rank, xs));
    var k :| 0 <= k < |ids| && ids[k] == y;
  }

  /** Each message of a forest is held by one of its real containers. */
  lemma HeldReal(ns: seq<Container>, rank: seq<nat>, xs: seq<nat>, m: EmailMessage) returns (y: nat)
    requires Ranked(ns, rank) && Within(xs, |ns|) && m in RealMessages(ToForest(ns, rank, xs))
    ensures y < |ns| && ns[y].message == Some(m) && y in Reals(ToForest(ns, rank, xs))
  {
    ForestHolds(ns, rank, xs);
    var ms := RealMessages(ToForest(ns, rank, xs));
    var k :| 0 <= k < |ms| && ms[k] == m;
    y := Reals(ToForest(ns, rank, xs))[k];
  }

  /** Real containers holding equal messages are one container. */
  ghost predicate Unique(ns: seq<Container>) {
    forall x, y :: 0 <= x < |ns| && 0 <= y < |ns| && ns[x].message.Some? && ns[x].message == ns[y].message ==> x == y
  }

  /** Every real container holds the last message of `messages` with its
      id. */
  ghost predicate LastHeld(ns: seq<Container>, messages: seq<EmailMessage>) {
    forall y :: 0 <= y < |ns| && ns[y].message.Some? ==> Build.LastWithId(messages, ns[y].message.value.messageId) == ns[y].message
  }

  /** `m` is held by a container below an entry of `xs`. */
  ghost predicate Shown(ns: seq<Container>, rank: seq<nat>, xs: seq<nat>, m: EmailMessage)
    requires Ranked(ns, rank) && Within(xs, |ns|)
  {
    exists y :: 0 <= y < |ns| && ns[y].message == Some(m) && BelowSome(ns, rank, xs, y)
  }

  /** Distinct real containers of a forest hold distinct messages. */
  lemma NoDupHeld(ns: seq<Container>, ids: seq<nat>, ms: seq<EmailMessage>)
    requires HoldsAt(ns, ids, ms) && NoDup(ids) && Unique(ns)
    ensures NoDup(ms)
  {
    forall i, j | 0 <= i < j < |ms| ensures ms[i] != ms[j] {
      assert ns[ids[i]].message == Some(ms[i]) && ns[ids[j]].message == Some(ms[j]);
    }
  }

  /** The containers built from `messages` hold each message that is last
      with its id, in one container each, and nothing else. */
  lemma BuiltHolds(ns: seq<Container>, table: map<string, nat>, messages: seq<EmailMessage>)
    requires Build.Bijective(ns, table) && Build.MessagesFrom(ns, table, messages)
    requires forall k :: k in table <==> k in Build.Ids(messages)
    ensures Unique(ns) && LastHeld(ns, messages)
    ensures forall m :: m in messages && Build.LastWithId(messages, m.messageId) == Some(m) ==>
      exists y :: 0 <= y < |ns| && ns[y].message == Some(m)
  {
    forall m | m in messages && Build.LastWithId(messages, m.messageId) == Some(m)
      ensures exists y :: 0 <= y < |ns| && ns[y].message == Some(m)
    {
      var y := BuiltHolder(ns, table, messages, m);
    }
    forall y | 0 <= y < |ns| && ns[y].message.Some?
      ensures Build.LastWithId(messages, ns[y].message.value.messageId) == ns[y].message
    {
      assert y in table.Values;
      var id :| id in table && table[id] == y;
    }
    forall x, y | 0 <= x < |ns| && 0 <= y < |ns| && ns[x].message.Some? && ns[x].message == ns[y].message
      ensures x == y
    {
      assert x in table.Values && y in table.Values;
      var idx :| idx in table && table[idx] == x;
      var idy :| idy in table && table[idy] == y;
    }
  }

  /** A message that is last with its id has a container of its own. */
  lemma BuiltHolder(ns: seq<Container>, table: map<string, nat>, messages: seq<EmailMessage>, m: EmailMessage) returns (y: nat)
    requires Build.Bijective(ns, table) && Build.MessagesFrom(ns, table, messages)
    requires forall k :: k in table <==> k in Build.Ids(messages)
    requires m in messages && Build.LastWithId(messages, m.messageId) == Some(m)
    ensures y < |ns| && ns[y].message == Some(m)
  {
    y := table[m.messageId];
  }

  /** Adding dummy containers and keeping every message keeps both
      properties. */
  lemma GrownHolds(ns: seq<Container>, ns2: seq<Container>, messages: seq<EmailMessage>)
    requires Merging.Grown(ns, ns2) && Unique(ns) && LastHeld(ns, messages)
    ensures Unique(ns2) && LastHeld(ns2, messages)
  {
  }

  /** Below a live container every container is linked both ways. */
  lemma LiveLinked(ns: seq<Container>, rank: seq<nat>, dead: set<nat>, x: nat)
    requires Ranked(ns, rank) && Consistent(ns, dead) && x < |ns| && x !in dead
    ensures LinkedIn(ns, Sub(ns, rank, x))
  {
    forall y | y in Sub(ns, rank, x) && y < |ns| ensures LinkedAt(ns, {}, y) {
      ReachedHasParent(ns, rank, dead, x, y);
      assert LinkedAt(ns, dead, y);
    }
  }

  /** Distinct, live, parentless containers form a top-level sibling
      list. */
  lemma LiveSiblings(ns: seq<Container>, rank: seq<nat>, dead: set<nat>, xs: seq<nat>)
    requires Ranked(ns, rank) && Consistent(ns, dead) && Within(xs, |ns|) && NoDup(xs)
    requires forall i :: 0 <= i < |xs| ==> xs[i] !in dead && ns[xs[i]].parent.None?
    ensures SiblingList(ns, rank, xs, None, MaxRank(rank) + 1)
  {
    forall y | y in SubAll(ns, rank, xs) && y < |ns| ensures LinkedAt(ns, {}, y) {
      var i :| 0 <= i < |xs| && Reaches(ns, rank, xs[i], y);
      LiveLinked(ns, rank, dead, xs[i]);
      assert y in Sub(ns, rank, xs[i]);
    }
  }

  /** The entries of `xs` that are in `s`, in order. */
  ghost function Those(xs: seq<nat>, s: set<nat>): (r: seq<nat>)
    ensures forall i :: 0 <= i < |r| ==> r[i] in xs && r[i] in s
    ensures forall x :: x in xs && x in s ==> x in r
  {
    if xs == [] then []
    else (if xs[0] in s then [xs[0]] else []) + Those(xs[1..], s)
  }

  /** The entries kept from a list within the arena are within it. */
  lemma ThoseWithin(xs: seq<nat>, s: set<nat>, n: nat)
    requires Within(xs, n)
    ensures Within(Those(xs, s), n)
  {
    var r := Those(xs, s);
    forall i | 0 <= i < |r| ensures r[i] < n {
      assert r[i] in xs;
    }
  }
}
