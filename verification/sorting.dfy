/** `sort_all_children` (jwz_threading.py:124-129): every sibling list, at
    every level, sorted in place by message date, dummies keyed as 0.

    Python's `list.sort` is stable; `SortBy`, a stable insertion sort, is
    its specification here: the result is ordered by key, a permutation of
    the input, keeps the input order among equal keys, and sorting twice
    changes nothing. */
module Sorting {
  import opened Wrappers
  import opened Mail
  import opened Containers
  import opened Pruning

  /** `s` is non-decreasing by `key`. */
  ghost predicate SortedBy<T>(s: seq<T>, key: T -> int) {
    forall i, j :: 0 <= i < j < |s| ==> key(s[i]) <= key(s[j])
  }

  /** `x` placed into `s` after every element whose key is not larger. */
  function InsertBy<T>(x: T, s: seq<T>, key: T -> int): (r: seq<T>)
    ensures |r| == |s| + 1
  {
    if s == [] then [x]
    else if key(x) < key(s[0]) then [x] + s
    else [s[0]] + InsertBy(x, s[1..], key)
  }

  /** The stable sort of `xs` by `key`. */
  function SortBy<T>(xs: seq<T>, key: T -> int): (r: seq<T>)
    ensures |r| == |xs|
  {
    if xs == [] then []
    else InsertBy(xs[|xs| - 1], SortBy(xs[..|xs| - 1], key), key)
  }

  /** Insertion adds `x` and loses nothing. */
  lemma {:induction false} InsertByPermutes<T>(x: T, s: seq<T>, key: T -> int)
    ensures multiset(InsertBy(x, s, key)) == multiset(s) + multiset{x}
  {
    if s != [] && key(x) >= key(s[0]) {
      InsertByPermutes(x, s[1..], key);
      assert s == [s[0]] + s[1..];
    }
  }

  /** The sort is a permutation of its input. */
  lemma {:induction false} SortByPermutes<T>(xs: seq<T>, key: T -> int)
    ensures multiset(SortBy(xs, key)) == multiset(xs)
  {
    if xs != [] {
      var init := xs[..|xs| - 1];
      SortByPermutes(init, key);
      InsertByPermutes(xs[|xs| - 1], SortBy(init, key), key);
      assert xs == init + [xs[|xs| - 1]];
    }
  }

  /** Sorting keeps exactly the elements it is given. */
  lemma SortByMembers<T>(xs: seq<T>, key: T -> int)
    ensures forall x :: x in SortBy(xs, key) <==> x in xs
  {
    SortByPermutes(xs, key);
    forall x ensures x in SortBy(xs, key) <==> x in xs {
      assert x in SortBy(xs, key) <==> x in multiset(SortBy(xs, key));
    }
  }

  /** The elements of `s` whose key is `k`, in order. */
  function WithKey<T>(s: seq<T>, key: T -> int, k: int): (r: seq<T>)
  {
    if s == [] then []
    else (if key(s[0]) == k then [s[0]] else []) + WithKey(s[1..], key, k)
  }

  /** A bound below `x` and every element of `s` is a bound below every
      element after the insertion. */
  lemma {:induction false} InsertByBound<T>(x: T, s: seq<T>, key: T -> int, b: int)
    requires b <= key(x) && forall i :: 0 <= i < |s| ==> b <= key(s[i])
    ensures forall i :: 0 <= i < |InsertBy(x, s, key)| ==> b <= key(InsertBy(x, s, key)[i])
  {
    if s != [] && key(x) >= key(s[0]) {
      var rest := s[1..];
      forall i | 0 <= i < |rest| ensures b <= key(rest[i]) {
        assert rest[i] == s[i + 1];
      }
      InsertByBound(x, rest, key, b);
      var t := InsertBy(x, rest, key);
      assert InsertBy(x, s, key) == [s[0]] + t;
      forall i | 0 <= i < |t| + 1 ensures b <= key(([s[0]] + t)[i]) {
        if i > 0 {
          assert ([s[0]] + t)[i] == t[i - 1];
        }
      }
    }
  }

  lemma SortedTail<T>(s: seq<T>, key: T -> int)
    requires s != [] && SortedBy(s, key)
    ensures SortedBy(s[1..], key) && forall i :: 0 <= i < |s[1..]| ==> key(s[0]) <= key(s[1..][i])
  {
    var rest := s[1..];
    forall i, j | 0 <= i < j < |rest| ensures key(rest[i]) <= key(rest[j]) {
      assert rest[i] == s[i + 1] && rest[j] == s[j + 1];
    }
    forall i | 0 <= i < |rest| ensures key(s[0]) <= key(rest[i]) {
      assert rest[i] == s[i + 1];
    }
  }

  /** `h` before a sorted list whose keys are all at least `key(h)` gives a
      sorted list. */
  lemma SortedCons<T>(h: T, t: seq<T>, key: T -> int)
    requires SortedBy(t, key) && forall i :: 0 <= i < |t| ==> key(h) <= key(t[i])
    ensures SortedBy([h] + t, key)
  {
    var r := [h] + t;
    forall i, j | 0 <= i < j < |r| ensures key(r[i]) <= key(r[j]) {
      assert r[j] == t[j - 1];
      if i > 0 {
        assert r[i] == t[i - 1];
      }
    }
  }

  lemma {:induction false} InsertBySorted<T>(x: T, s: seq<T>, key: T -> int)
    requires SortedBy(s, key)
    ensures SortedBy(InsertBy(x, s, key), key)
  {
    if s == [] {
      assert InsertBy(x, s, key) == [x];
    } else if key(x) < key(s[0]) {
      forall i | 0 <= i < |s| ensures key(x) <= key(s[i]) {
        if i > 0 {
          assert key(s[0]) <= key(s[i]);
        }
      }
      SortedCons(x, s, key);
    } else {
      SortedTail(s, key);
      InsertBySorted(x, s[1..], key);
      InsertByBound(x, s[1..], key, key(s[0]));
      SortedCons(s[0], InsertBy(x, s[1..], key), key);
    }
  }

  /** The sort orders by key. */
  lemma {:induction false} SortBySorted<T>(xs: seq<T>, key: T -> int)
    ensures SortedBy(SortBy(xs, key), key)
  {
    if xs != [] {
      SortBySorted(xs[..|xs| - 1], key);
      InsertBySorted(xs[|xs| - 1], SortBy(xs[..|xs| - 1], key), key);
    }
  }

  lemma {:induction false} WithKeyAppend<T>(s: seq<T>, t: seq<T>, key: T -> int, k: int)
    ensures WithKey(s + t, key, k) == WithKey(s, key, k) + WithKey(t, key, k)
  {
    if s == [] {
      assert s + t == t;
    } else {
      var head := if key(s[0]) == k then [s[0]] else [];
      assert (s + t)[0] == s[0] && (s + t)[1..] == s[1..] + t;
      WithKeyAppend(s[1..], t, key, k);
      assert WithKey(s + t, key, k) == head + WithKey(s[1..] + t, key, k);
      assert WithKey(s, key, k) == head + WithKey(s[1..], key, k);
    }
  }

  lemma {:induction false} WithKeyAbove<T>(s: seq<T>, key: T -> int, k: int)
    requires forall i :: 0 <= i < |s| ==> key(s[i]) > k
    ensures WithKey(s, key, k) == []
  {
    if s != [] {
      WithKeyAbove(s[1..], key, k);
    }
  }

  /** Inserting into a sorted list puts `x` after every element with the
      same key. */
  lemma {:induction false} InsertByWithKey<T>(x: T, s: seq<T>, key: T -> int, k: int)
    requires SortedBy(s, key)
    ensures WithKey(InsertBy(x, s, key), key, k) == WithKey(s, key, k) + (if key(x) == k then [x] else [])
  {
    if s == [] {
    } else if key(x) < key(s[0]) {
      WithKeyAppend([x], s, key, k);
      if key(x) == k {
        WithKeyAbove(s, key, k);
      }
      assert [x][1..] == [];
    } else {
      InsertByWithKey(x, s[1..], key, k);
      WithKeyAppend([s[0]], InsertBy(x, s[1..], key), key, k);
      WithKeyAppend([s[0]], s[1..], key, k);
      assert [s[0]][1..] == [];
      assert [s[0]] + s[1..] == s;
    }
  }

  /** The sort is stable: for every key, the elements with that key keep
      their input order. */
  lemma {:induction false} SortByStable<T>(xs: seq<T>, key: T -> int, k: int)
    ensures WithKey(SortBy(xs, key), key, k) == WithKey(xs, key, k)
  {
    if xs != [] {
      var init, last := xs[..|xs| - 1], xs[|xs| - 1];
      var s := SortBy(init, key);
      assert SortBy(xs, key) == InsertBy(last, s, key);
      SortByStable(init, key, k);
      SortBySorted(init, key);
      InsertByWithKey(last, s, key, k);
      var tail := if key(last) == k then [last] else [];
      assert WithKey(InsertBy(last, s, key), key, k) == WithKey(init, key, k) + tail;
      assert xs == init + [last];
      WithKeyAppend(init, [last], key, k);
      assert WithKey([last], key, k) == tail by {
        assert [last][1..] == [];
      }
    }
  }

  /** Inserting an element whose key is not below any key of a sorted list
      appends it. */
  lemma {:induction false} InsertByLast<T>(x: T, s: seq<T>, key: T -> int)
    requires forall i :: 0 <= i < |s| ==> key(s[i]) <= key(x)
    ensures InsertBy(x, s, key) == s + [x]
  {
    if s != [] {
      InsertByLast(x, s[1..], key);
      assert [s[0]] + (s[1..] + [x]) == s + [x];
    }
  }

  /** A list already ordered by key is left as it is; in particular,
      sorting twice is sorting once. */
  lemma SortedInit<T>(xs: seq<T>, init: seq<T>, key: T -> int)
    requires xs != [] && SortedBy(xs, key) && init == xs[..|xs| - 1]
    ensures SortedBy(init, key)
    ensures forall i :: 0 <= i < |init| ==> key(init[i]) <= key(xs[|xs| - 1])
  {
    forall i, j | 0 <= i < j < |init| ensures key(init[i]) <= key(init[j]) {
      assert init[i] == xs[i] && init[j] == xs[j];
    }
    forall i | 0 <= i < |init| ensures key(init[i]) <= key(xs[|xs| - 1]) {
      assert init[i] == xs[i];
    }
  }

  lemma {:induction false} SortBySortedIdentity<T>(xs: seq<T>, key: T -> int)
    requires SortedBy(xs, key)
    ensures SortBy(xs, key) == xs
  {
    if xs != [] {
      var init, last := xs[..|xs| - 1], xs[|xs| - 1];
      assert SortBy(xs, key) == InsertBy(last, SortBy(init, key), key);
      SortedInit(xs, init, key);
      SortBySortedIdentity(init, key);
      assert SortBy(init, key) == init;
      InsertByLast(last, init, key);
      assert init + [last] == xs;
    }
  }

  lemma SortByIdempotent<T>(xs: seq<T>, key: T -> int)
    ensures SortBy(SortBy(xs, key), key) == SortBy(xs, key)
  {
    SortBySorted(xs, key);
    SortBySortedIdentity(SortBy(xs, key), key);
  }

  /** The sort depends on the keys of the elements only. */
  lemma {:induction false} SortBySameKeys<T>(xs: seq<T>, key1: T -> int, key2: T -> int)
    requires forall i :: 0 <= i < |xs| ==> key1(xs[i]) == key2(xs[i])
    ensures SortBy(xs, key1) == SortBy(xs, key2)
  {
    if xs != [] {
      var init, last := xs[..|xs| - 1], xs[|xs| - 1];
      assert SortBy(xs, key1) == InsertBy(last, SortBy(init, key1), key1);
      assert SortBy(xs, key2) == InsertBy(last, SortBy(init, key2), key2);
      SortBySameKeys(init, key1, key2);
      SortByPermutes(init, key1);
      forall y | y in SortBy(init, key1) ensures key1(y) == key2(y) {
        assert y in multiset(SortBy(init, key1));
        assert y in init;
      }
      SameKeysInsert(last, SortBy(init, key1), key1, key2);
    }
  }

  lemma {:induction false} SameKeysInsert<T>(x: T, s: seq<T>, key1: T -> int, key2: T -> int)
    requires key1(x) == key2(x)
    requires forall y :: y in s ==> key1(y) == key2(y)
    ensures InsertBy(x, s, key1) == InsertBy(x, s, key2)
  {
    if s != [] {
      assert s[0] in s;
      SameKeysInsert(x, s[1..], key1, key2);
    }
  }

  /** The sort key of `sort_all_children`: the message's date, 0 for a
      dummy. */
  function DateKey(ns: seq<Container>, x: nat): int {
    if x < |ns| && ns[x].message.Some? then ns[x].message.value.date else 0
  }

  function DateKeyOf(ns: seq<Container>): nat -> int {
    (x: nat) => DateKey(ns, x)
  }

  /** `containers.sort(key=...)` on a list of containers. */
  function SortByDate(ns: seq<Container>, xs: seq<nat>): (r: seq<nat>)
    ensures |r| == |xs| && multiset(r) == multiset(xs)
  {
    SortByPermutes(xs, DateKeyOf(ns));
    SortBy(xs, DateKeyOf(ns))
  }

  /** `ns` with the child list of every container of `s` sorted by date. */
  function SortedAt(ns: seq<Container>, s: set<nat>): (r: seq<Container>)
    ensures |r| == |ns|
  {
    seq(|ns|, y requires 0 <= y < |ns| =>
      if y in s then ns[y].(children := SortByDate(ns, ns[y].children)) else ns[y])
  }

  /** `ns2` differs from `ns1` at most in the order of child lists. */
  ghost predicate SameLinks(ns1: seq<Container>, ns2: seq<Container>) {
    && |ns2| == |ns1|
    && forall y :: 0 <= y < |ns1| ==>
         && ns2[y].message == ns1[y].message
         && ns2[y].parent == ns1[y].parent
         && multiset(ns2[y].children) == multiset(ns1[y].children)
  }

  lemma {:induction false} NoDupCount<T>(s: seq<T>)
    requires NoDup(s)
    ensures forall v :: multiset(s)[v] <= 1
  {
    if s != [] {
      var rest := s[1..];
      forall i, j | 0 <= i < j < |rest| ensures rest[i] != rest[j] {
        assert rest[i] == s[i + 1] && rest[j] == s[j + 1];
      }
      NoDupCount(rest);
      forall i | 0 <= i < |rest| ensures rest[i] != s[0] {
        assert rest[i] == s[i + 1];
      }
      assert s[0] !in rest;
      assert s == [s[0]] + rest;
      assert multiset(s) == multiset{s[0]} + multiset(rest);
    }
  }

  lemma TwiceCounted<T>(t: seq<T>, i: nat, j: nat)
    requires i < j < |t|
    ensures t[i] == t[j] ==> multiset(t)[t[i]] >= 2
  {
    assert t == t[..j] + t[j..];
    assert t[i] == t[..j][i] && t[j] == t[j..][0];
    assert multiset(t)[t[i]] == multiset(t[..j])[t[i]] + multiset(t[j..])[t[i]];
  }

  /** A permutation of a list without duplicates has none. */
  lemma NoDupPermutation<T>(s: seq<T>, t: seq<T>)
    requires multiset(s) == multiset(t) && NoDup(s)
    ensures NoDup(t)
  {
    NoDupCount(s);
    forall i, j | 0 <= i < j < |t| ensures t[i] != t[j] {
      TwiceCounted(t, i, j);
    }
  }

  /** Reordering child lists keeps the ranks valid. */
  lemma SameLinksRanked(ns1: seq<Container>, ns2: seq<Container>, rank: seq<nat>)
    requires SameLinks(ns1, ns2) && Ranked(ns1, rank)
    ensures Ranked(ns2, rank)
  {
    forall x, i | 0 <= x < |ns2| && 0 <= i < |ns2[x].children|
      ensures ns2[x].children[i] in ns1[x].children
    {
      assert ns2[x].children[i] in multiset(ns2[x].children);
    }
  }

  /** Reordering child lists keeps parents and children in agreement. */
  lemma SameLinksValid(ns1: seq<Container>, ns2: seq<Container>, rank: seq<nat>, dead: set<nat>)
    requires SameLinks(ns1, ns2) && Ranked(ns1, rank) && Consistent(ns1, dead)
    ensures Ranked(ns2, rank) && Consistent(ns2, dead)
  {
    SameLinksRanked(ns1, ns2, rank);
    forall x | 0 <= x < |ns2| && x !in dead ensures LinkedAt(ns2, dead, x) {
      assert LinkedAt(ns1, dead, x);
      NoDupPermutation(ns1[x].children, ns2[x].children);
      forall i | 0 <= i < |ns2[x].children| ensures ns2[x].children[i] in ns1[x].children {
        assert ns2[x].children[i] in multiset(ns2[x].children);
      }
    }
  }

  /** Reordering child lists does not change who descends from whom. */
  lemma {:induction false} SameLinksReaches(ns1: seq<Container>, ns2: seq<Container>, rank: seq<nat>, x: nat, y: nat)
    requires SameLinks(ns1, ns2) && Ranked(ns1, rank) && Ranked(ns2, rank) && x < |ns1|
    ensures Reaches(ns1, rank, x, y) <==> Reaches(ns2, rank, x, y)
    decreases rank[x]
  {
    if x != y {
      if Reaches(ns1, rank, x, y) {
        var i :| 0 <= i < |ns1[x].children| && Reaches(ns1, rank, ns1[x].children[i], y);
        var c := ns1[x].children[i];
        assert c in multiset(ns1[x].children);
        var j :| 0 <= j < |ns2[x].children| && ns2[x].children[j] == c;
        SameLinksReaches(ns1, ns2, rank, c, y);
      }
      if Reaches(ns2, rank, x, y) {
        var i :| 0 <= i < |ns2[x].children| && Reaches(ns2, rank, ns2[x].children[i], y);
        var c := ns2[x].children[i];
        assert c in multiset(ns2[x].children);
        var j :| 0 <= j < |ns1[x].children| && ns1[x].children[j] == c;
        SameLinksReaches(ns1, ns2, rank, c, y);
      }
    }
  }

  lemma SubAllSameLinks(ns1: seq<Container>, ns2: seq<Container>, rank: seq<nat>, xs: seq<nat>)
    requires SameLinks(ns1, ns2) && Ranked(ns1, rank) && Ranked(ns2, rank) && Within(xs, |ns1|)
    ensures SubAll(ns1, rank, xs) == SubAll(ns2, rank, xs)
  {
    forall y, i | 0 <= y < |ns1| && 0 <= i < |xs|
      ensures Reaches(ns1, rank, xs[i], y) <==> Reaches(ns2, rank, xs[i], y)
    {
      SameLinksReaches(ns1, ns2, rank, xs[i], y);
    }
  }

  /** The subtrees of a list depend on its members only, not their order. */
  lemma SubAllPermutation(ns: seq<Container>, rank: seq<nat>, xs: seq<nat>, ys: seq<nat>)
    requires Ranked(ns, rank) && Within(xs, |ns|) && multiset(xs) == multiset(ys)
    ensures Within(ys, |ns|) && SubAll(ns, rank, xs) == SubAll(ns, rank, ys)
  {
    forall i | 0 <= i < |ys| ensures ys[i] in xs {
      assert ys[i] in multiset(ys);
    }
    forall y | y in SubAll(ns, rank, xs) ensures y in SubAll(ns, rank, ys) {
      var i :| 0 <= i < |xs| && Reaches(ns, rank, xs[i], y);
      assert xs[i] in multiset(xs);
      var j :| 0 <= j < |ys| && ys[j] == xs[i];
    }
    forall y | y in SubAll(ns, rank, ys) ensures y in SubAll(ns, rank, xs) {
      var i :| 0 <= i < |ys| && Reaches(ns, rank, ys[i], y);
      var j :| 0 <= j < |xs| && xs[j] == ys[i];
    }
  }

  /** The keys depend on the messages only. */
  lemma SameLinksSortByDate(ns1: seq<Container>, ns2: seq<Container>, xs: seq<nat>)
    requires SameLinks(ns1, ns2)
    ensures SortByDate(ns1, xs) == SortByDate(ns2, xs)
  {
    SortBySameKeys(xs, DateKeyOf(ns1), DateKeyOf(ns2));
  }

  /** Parents and children agree in `ns1` when they do in a reordering of
      it. */
  lemma SameLinksBack(ns1: seq<Container>, ns2: seq<Container>, rank: seq<nat>, dead: set<nat>)
    requires SameLinks(ns1, ns2) && Ranked(ns2, rank) && Consistent(ns2, dead)
    ensures Ranked(ns1, rank) && Consistent(ns1, dead)
  {
    SameLinksValid(ns2, ns1, rank, dead);
  }

  lemma SortedAtSameLinks(ns: seq<Container>, s: set<nat>)
    ensures SameLinks(ns, SortedAt(ns, s))
  {
  }

  /** Sorting the child lists of `s`, then of `t`, sorts those of both:
      sorting a sorted list changes nothing. */
  lemma SortedAtTwice(ns: seq<Container>, s: set<nat>, t: set<nat>)
    ensures SortedAt(SortedAt(ns, s), t) == SortedAt(ns, s + t)
  {
    var m := SortedAt(ns, s);
    SortedAtSameLinks(ns, s);
    forall y | 0 <= y < |ns| && y in t
      ensures SortByDate(m, m[y].children) == SortByDate(ns, ns[y].children)
    {
      SameLinksSortByDate(m, ns, m[y].children);
      if y in s {
        SortByIdempotent(ns[y].children, DateKeyOf(ns));
      }
    }
  }

  lemma SortStepChildren(ns0: seq<Container>, rank: seq<nat>, s: set<nat>, x: nat)
    requires Ranked(ns0, rank) && x < |ns0|
    ensures Ranked(SortedAt(ns0, s), rank) && Within(ns0[x].children, |ns0|)
    ensures Within(SortedAt(ns0, s)[x].children, |ns0|)
    ensures SubAll(SortedAt(ns0, s), rank, SortedAt(ns0, s)[x].children) == SubAll(ns0, rank, ns0[x].children)
    ensures Sub(ns0, rank, x) == SubAll(ns0, rank, ns0[x].children) + {x}
    ensures x !in SubAll(ns0, rank, ns0[x].children)
  {
    var m := SortedAt(ns0, s);
    SortedAtSameLinks(ns0, s);
    SameLinksRanked(ns0, m, rank);
    SubOfChildren(ns0, rank, x);
    SubAllPermutation(ns0, rank, ns0[x].children, m[x].children);
    SubAllSameLinks(ns0, m, rank, m[x].children);
  }

  lemma SortStepKids(ns0: seq<Container>, s: set<nat>, x: nat)
    requires x < |ns0|
    ensures
      var m := SortedAt(ns0, s);
      SortByDate(m, m[x].children) == SortByDate(ns0, ns0[x].children)
  {
    var m := SortedAt(ns0, s);
    SortedAtSameLinks(ns0, s);
    SameLinksSortByDate(m, ns0, m[x].children);
    if x in s {
      SortByIdempotent(ns0[x].children, DateKeyOf(ns0));
    }
  }

  lemma SortedAtInsert(ns0: seq<Container>, t: set<nat>, x: nat)
    requires x < |ns0|
    ensures
      var m := SortedAt(ns0, t);
      m[x := m[x].(children := SortByDate(ns0, ns0[x].children))] == SortedAt(ns0, t + {x})
  {
  }

  /** One step of the loop of `sort_all_children`: the child lists below
      `x` sorted by the recursive call, then the one of `x` itself. */
  lemma SortStep(ns0: seq<Container>, rank: seq<nat>, s: set<nat>, x: nat)
    requires Ranked(ns0, rank) && x < |ns0|
    ensures Ranked(SortedAt(ns0, s), rank) && Within(SortedAt(ns0, s)[x].children, |ns0|)
    ensures
      var m := SortedAt(ns0, s);
      var m2 := SortedAt(m, SubAll(m, rank, m[x].children));
      m2[x := m2[x].(children := SortByDate(m, m[x].children))] == SortedAt(ns0, s + Sub(ns0, rank, x))
  {
    var m := SortedAt(ns0, s);
    SortStepChildren(ns0, rank, s, x);
    var c := SubAll(ns0, rank, ns0[x].children);
    SortedAtTwice(ns0, s, c);
    SortStepKids(ns0, s, x);
    SortedAtInsert(ns0, s + c, x);
    assert s + Sub(ns0, rank, x) == (s + c) + {x};
  }

  /** A container without children: sorting its (empty) child list changes
      nothing. */
  lemma SortStepEmpty(ns0: seq<Container>, rank: seq<nat>, s: set<nat>, x: nat)
    requires Ranked(ns0, rank) && x < |ns0| && SortedAt(ns0, s)[x].children == []
    ensures SortedAt(ns0, s + Sub(ns0, rank, x)) == SortedAt(ns0, s)
  {
    SortedAtSameLinks(ns0, s);
    assert ns0[x].children == [];
    SubOfChildren(ns0, rank, x);
    assert Sub(ns0, rank, x) == {x};
  }

  lemma SortedAtNone(ns: seq<Container>)
    ensures SortedAt(ns, {}) == ns
  {
  }

  /** `sort_all_children` (jwz_threading.py:124-129): the list is sorted by
      date, then the children of each of its containers, recursively. The
      result is the sorted list, and the child list of every container in
      the subtrees of its entries is sorted, nothing else changed. */
  method SortAllChildren(a: Arena, list: seq<nat>, ghost bound: nat) returns (sorted: seq<nat>)
    requires a.Valid() && Within(list, |a.nodes|)
    requires forall i :: 0 <= i < |list| ==> a.rank[list[i]] < bound
    modifies a
    decreases bound, 2
    ensures a.Valid() && a.rank == old(a.rank) && a.dead == old(a.dead)
    ensures sorted == SortByDate(old(a.nodes), list)
    ensures a.nodes == SortedAt(old(a.nodes), SubAll(old(a.nodes), a.rank, list))
  {
    sorted := SortByDate(a.nodes, list);
    SortedBelow(a.nodes, a.rank, list, bound);
    SortEach(a, sorted, a.nodes, bound);
  }

  /** The sorted list has the same entries, hence the same subtrees and
      the same bound on ranks. */
  lemma SortedBelow(ns: seq<Container>, rank: seq<nat>, list: seq<nat>, bound: nat)
    requires Ranked(ns, rank) && Within(list, |ns|)
    requires forall i :: 0 <= i < |list| ==> rank[list[i]] < bound
    ensures Within(SortByDate(ns, list), |ns|)
    ensures forall i :: 0 <= i < |SortByDate(ns, list)| ==> rank[SortByDate(ns, list)[i]] < bound
    ensures SubAll(ns, rank, SortByDate(ns, list)) == SubAll(ns, rank, list)
  {
    var sorted := SortByDate(ns, list);
    SubAllPermutation(ns, rank, list, sorted);
    forall i | 0 <= i < |sorted| ensures rank[sorted[i]] < bound {
      assert sorted[i] in multiset(list);
    }
  }

  /** The loop of `sort_all_children` over the sorted list. */
  method SortEach(a: Arena, xs: seq<nat>, ghost ns0: seq<Container>, ghost bound: nat)
    requires a.Valid() && a.nodes == ns0 && Within(xs, |ns0|)
    requires forall i :: 0 <= i < |xs| ==> a.rank[xs[i]] < bound
    modifies a
    decreases bound, 1
    ensures a.Valid() && a.rank == old(a.rank) && a.dead == old(a.dead)
    ensures a.nodes == SortedAt(ns0, SubAll(ns0, a.rank, xs))
  {
    ghost var rank, dead := a.rank, a.dead;
    SortedAtNone(ns0);
    for i := 0 to |xs|
      invariant a.Valid() && a.rank == rank && a.dead == dead && Ranked(ns0, rank)
      invariant a.nodes == SortedAt(ns0, SubAll(ns0, rank, xs[..i]))
    {
      SubAllSnoc(ns0, rank, xs, i);
      SortChildrenOf(a, xs[i], ns0, SubAll(ns0, rank, xs[..i]));
    }
    assert xs[..|xs|] == xs;
  }

  /** One turn of the loop of `sort_all_children`: the child list of `x`,
      unless empty, sorted together with every child list below it. */
  method SortChildrenOf(a: Arena, x: nat, ghost ns0: seq<Container>, ghost done: set<nat>)
    requires a.Valid() && Ranked(ns0, a.rank) && x < |ns0| && a.nodes == SortedAt(ns0, done)
    modifies a
    decreases a.rank[x] + 1, 0
    ensures a.Valid() && a.rank == old(a.rank) && a.dead == old(a.dead)
    ensures a.nodes == SortedAt(ns0, done + Sub(ns0, a.rank, x))
  {
    ghost var m, rank := a.nodes, a.rank;
    if a.nodes[x].children != [] {
      SortStep(ns0, rank, done, x);
      var kids := SortAllChildren(a, a.nodes[x].children, a.rank[x]);
      a.nodes := a.nodes[x := a.nodes[x].(children := kids)];
      SortedAtSameLinks(ns0, done + Sub(ns0, rank, x));
      SortedAtSameLinks(ns0, done);
      SameLinksBack(ns0, m, rank, a.dead);
      SameLinksValid(ns0, a.nodes, rank, a.dead);
    } else {
      SortStepEmpty(ns0, rank, done, x);
    }
  }
}
