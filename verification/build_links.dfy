/** What `build_containers_from_messages` (jwz_threading.py:132-171) leaves
    in the containers, stated about the value-level fold `Build.Built` that
    `Build.BuildContainers` is proved to compute: the message each container
    holds, the chain a message's new references form, and the link of the
    message under its last reference. */
module BuildLinks {
  import opened Wrappers
  import opened Mail
  import opened Containers
  import opened Build

  /** A run of references the table has not seen yet becomes a path of new
      empty containers, each the only child of the one before, appended
      after the existing containers, which stay as they were. */
  ghost predicate FreshPath(s: Links, r: Links, refs: seq<string>, n: nat)
    requires n <= |refs|
  {
    && |r.nodes| == |s.nodes| + n
    && (forall x :: 0 <= x < |s.nodes| ==> r.nodes[x] == s.nodes[x])
    && (forall k :: k in s.table ==> k in r.table && r.table[k] == s.table[k])
    && (forall i :: 0 <= i < n ==> refs[i] in r.table && r.table[refs[i]] == |s.nodes| + i)
    && (forall x :: |s.nodes| <= x < |r.nodes| ==> r.nodes[x].message.None?)
    && (n > 0 ==> r.nodes[|s.nodes|].parent.None?)
    && (forall x :: |s.nodes| < x < |r.nodes| ==> r.nodes[x].parent == Some(x - 1))
    && (forall x :: |s.nodes| <= x < |r.nodes| - 1 ==> r.nodes[x].children == [x + 1])
    && (n > 0 ==> r.nodes[|r.nodes| - 1].children == [])
  }

  lemma {:induction false} FreshChainIsPath(s: Links, refs: seq<string>, n: nat)
    requires Sound(s) && NoDup(refs) && n <= |refs|
    requires forall i :: 0 <= i < n ==> refs[i] !in s.table
    ensures FreshPath(s, Chained(s, refs, n), refs, n)
  {
    if n > 0 {
      FreshChainIsPath(s, refs, n - 1);
      ChainedUnfold(s, refs, n);
      var c1 := Chained(s, refs, n - 1);
      var id := refs[n - 1];
      assert id !in c1.table by {
        assert id !in refs[..n - 1];
      }
      if n == 1 {
        ChainStepFresh(c1, None, id);
      } else {
        ChainStepFresh(c1, Some(refs[n - 2]), id);
      }
      FreshPathStep(s, c1, Chained(s, refs, n), refs, n);
    }
  }

  /** One turn of the loop on a reference the table has not seen: a new
      empty container, linked under the previous reference's container when
      that one is the newest container and has no children. */
  lemma ChainStepFresh(s: Links, prev: Option<string>, id: string)
    requires Sound(s) && id !in s.table && (prev.Some? ==> prev.value in s.table && prev.value != id)
    requires prev.Some? ==> s.table[prev.value] == |s.nodes| - 1 && s.nodes[|s.nodes| - 1].children == []
    ensures var r, x := ChainStep(s, prev, id), |s.nodes|;
      && |r.nodes| == x + 1 && r.table == s.table[id := x]
      && (forall y :: 0 <= y < x - 1 ==> r.nodes[y] == s.nodes[y])
      && (prev.None? ==> r.nodes[..x] == s.nodes && r.nodes[x] == Container(None, None, []))
      && (prev.Some? ==> r.nodes[x] == Container(None, Some(x - 1), []) && r.nodes[x - 1] == s.nodes[x - 1].(children := [x]))
  {
    var s2 := Referenced(s, id);
    assert s2 == Created(s, id, None);
    var x := |s.nodes|;
    if prev.Some? {
      var p := s2.table[prev.value];
      assert !HasDescendant(s2.nodes, s2.rank, x, p);
      assert ChainStep(s, prev, id).nodes == Adopted(s2.nodes, p, x);
    }
  }

  lemma FreshPathStep(s: Links, c1: Links, r: Links, refs: seq<string>, n: nat)
    requires 0 < n <= |refs| && FreshPath(s, c1, refs, n - 1) && refs[n - 1] !in c1.table
    requires var x := |c1.nodes|;
      && |r.nodes| == x + 1 && r.table == c1.table[refs[n - 1] := x]
      && (forall y :: 0 <= y < x - 1 ==> r.nodes[y] == c1.nodes[y])
      && (n == 1 ==> r.nodes[..x] == c1.nodes && r.nodes[x] == Container(None, None, []))
      && (n > 1 ==> r.nodes[x] == Container(None, Some(x - 1), []) && r.nodes[x - 1] == c1.nodes[x - 1].(children := [x]))
    ensures FreshPath(s, r, refs, n)
  {
    var x := |c1.nodes|;
    if n > 1 {
      assert r.nodes[x - 1].parent == c1.nodes[x - 1].parent;
    } else {
      assert forall y :: 0 <= y < x ==> r.nodes[y] == c1.nodes[y];
    }
  }

  /** What one message does to the messages the containers hold: its own
      container holds it, the containers of ids seen before keep theirs, and
      a container made for a new reference holds none. */
  lemma AddStepMessages(s: Links, m: EmailMessage)
    requires Sound(s)
    ensures var r := AddStep(s, m);
      forall k :: k in r.table ==>
        r.nodes[r.table[k]].message ==
          if k == m.messageId then Some(m)
          else if k in s.table then s.nodes[s.table[k]].message
          else None
  {
    DedupProperties(m.references);
    var st := Stored(s, m);
    var u := Dedup(m.references);
    ChainedMessages(st, u, |u|);
    var pre := Prelinked(s, m);
    assert pre == Chained(st, u, |u|);
    var r := AddStep(s, m);
    assert KeepsMessages(pre, r);
    KeepsMessagesTrans(st, pre, r);
    StoredMessages(s, m);
  }

  /** Storing a message sets the message of its id's container only. */
  lemma StoredMessages(s: Links, m: EmailMessage)
    requires Sound(s)
    ensures var st := Stored(s, m);
      && |s.nodes| <= |st.nodes|
      && (forall k :: k in st.table && k != m.messageId ==> st.nodes[st.table[k]].message == s.nodes[s.table[k]].message)
      && (forall x :: 0 <= x < |s.nodes| && x != st.table[m.messageId] ==> st.nodes[x].message == s.nodes[x].message)
  {
  }

  /** `r` holds the messages of `s` in the same containers and none in the
      containers added after them. */
  ghost predicate KeepsMessages(s: Links, r: Links) {
    && |s.nodes| <= |r.nodes|
    && (forall x :: 0 <= x < |s.nodes| ==> r.nodes[x].message == s.nodes[x].message)
    && (forall x :: |s.nodes| <= x < |r.nodes| ==> r.nodes[x].message.None?)
    && (forall k :: k in s.table ==> k in r.table && r.table[k] == s.table[k])
    && (forall k :: k in r.table && k !in s.table ==> |s.nodes| <= r.table[k])
  }

  lemma KeepsMessagesTrans(s: Links, t: Links, r: Links)
    requires KeepsMessages(s, t) && KeepsMessages(t, r)
    ensures KeepsMessages(s, r)
  {
  }

  /** Following references changes no container's message, and the
      containers it makes are empty. */
  lemma {:induction false} ChainedMessages(s: Links, refs: seq<string>, n: nat)
    requires Sound(s) && NoDup(refs) && n <= |refs|
    ensures KeepsMessages(s, Chained(s, refs, n))
  {
    if n > 0 {
      ChainedMessages(s, refs, n - 1);
      ChainedUnfold(s, refs, n);
      var c1 := Chained(s, refs, n - 1);
      ChainStepMessages(c1, if n == 1 then None else Some(refs[n - 2]), refs[n - 1]);
      KeepsMessagesTrans(s, c1, Chained(s, refs, n));
    }
  }

  /** `Chained` after `n` turns is one turn after `n - 1`. */
  lemma ChainedUnfold(s: Links, refs: seq<string>, n: nat)
    requires Sound(s) && NoDup(refs) && 0 < n <= |refs|
    ensures n > 1 ==> refs[n - 2] in Chained(s, refs, n - 1).table && refs[n - 2] != refs[n - 1]
    ensures Chained(s, refs, n)
      == ChainStep(Chained(s, refs, n - 1), if n == 1 then None else Some(refs[n - 2]), refs[n - 1])
  {
    assert n > 1 ==> refs[n - 2] in refs[..n - 1];
  }

  /** One turn of the loop over the references keeps every message. */
  lemma ChainStepMessages(s: Links, prev: Option<string>, id: string)
    requires Sound(s) && (prev.Some? ==> prev.value in s.table && prev.value != id)
    ensures KeepsMessages(s, ChainStep(s, prev, id))
  {
    var s2 := Referenced(s, id);
    assert KeepsMessages(s, s2);
  }

  /** Every container of the built state holds the last message with its
      id, or none when the id only occurs as a reference. */
  lemma {:induction false} BuiltMessages(ms: seq<EmailMessage>)
    ensures var r := Built(ms);
      forall k :: k in r.table ==> r.nodes[r.table[k]].message == LastWithId(ms, k)
  {
    if ms != [] {
      var n := |ms| - 1;
      var init, m := ms[..n], ms[n];
      BuiltMessages(init);
      assert ms == init + [m];
      assert Built(ms) == AddStep(Built(init), m);
      AddStepMessages(Built(init), m);
      forall k | k in Built(ms).table
        ensures Built(ms).nodes[Built(ms).table[k]].message == LastWithId(ms, k)
      {
        LastWithIdAppend(init, m, k);
        if k != m.messageId && k !in Built(init).table {
          assert k !in Ids(init);
        }
      }
    }
  }

  /** The message's own link (jwz_threading.py:167-169): when its last
      distinct reference's container lies outside the message's subtree,
      the message's container gets that parent and ends that parent's child
      list; otherwise nothing changes. */
  lemma AddStepLinksMessage(s: Links, m: EmailMessage)
    requires Sound(s)
    ensures var pre, u, r := Prelinked(s, m), Dedup(m.references), AddStep(s, m);
      var c := pre.table[m.messageId];
      if u != [] && !Reaches(pre.nodes, pre.rank, c, pre.table[u[|u| - 1]]) then
        var p := pre.table[u[|u| - 1]];
        && r.nodes == Adopted(pre.nodes, p, c)
        && r.nodes[c].parent == Some(p)
        && |r.nodes[p].children| > 0 && r.nodes[p].children[|r.nodes[p].children| - 1] == c
        && (forall x :: 0 <= x < |r.nodes| && x != c ==> r.nodes[x].parent == pre.nodes[x].parent)
      else r == pre
  {
    DedupProperties(m.references);
  }

  /** The same when the names of the two containers are known. */
  lemma AddStepLinkedUnder(s: Links, m: EmailMessage, p: nat, c: nat)
    requires Sound(s) && m.references != []
    requires var pre, u := Prelinked(s, m), Dedup(m.references);
      u != [] && pre.table[m.messageId] == c && pre.table[u[|u| - 1]] == p && !Reaches(pre.nodes, pre.rank, c, p)
    ensures AddStep(s, m).nodes == Adopted(Prelinked(s, m).nodes, p, c)
  {
    AddStepLinksMessage(s, m);
  }

  /** The example of three messages: a first message `a`, a reply `b` naming
      it, and a reply `c` to the reply naming both ancestors. The three
      containers form the chain `a`, `b` under `a`, `c` under `b`. */
  lemma {:induction false} ThreeMessageChain(a: EmailMessage, b: EmailMessage, c: EmailMessage)
    requires a.messageId == "a" && a.references == []
    requires b.messageId == "b" && b.references == ["a"]
    requires c.messageId == "c" && c.references == ["a", "b"]
    ensures var r := Built([a, b, c]);
      && r.table == map["a" := 0, "b" := 1, "c" := 2]
      && r.nodes == [Container(Some(a), None, [1]), Container(Some(b), Some(0), [2]), Container(Some(c), Some(1), [])]
  {
    BuiltOfThree(a, b, c);
    FirstOfThree(Built([]), a);
    SecondOfThree(Built([a]), a, b);
    ThirdOfThree(Built([a, b]), a, b, c);
  }

  /** The table built from three messages, one message at a time. */
  lemma BuiltOfThree(a: EmailMessage, b: EmailMessage, c: EmailMessage)
    ensures Built([]) == Links([], [], map[])
    ensures Built([a]) == AddStep(Built([]), a)
    ensures Built([a, b]) == AddStep(Built([a]), b)
    ensures Built([a, b, c]) == AddStep(Built([a, b]), c)
  {
    assert [a][..0] == [];
    assert [a, b][..1] == [a];
    assert [a, b, c][..2] == [a, b];
  }

  /** The first message: a container of its own, and nothing to link. */
  lemma FirstOfThree(s: Links, a: EmailMessage)
    requires s == Links([], [], map[]) && a.messageId == "a" && a.references == []
    ensures AddStep(s, a).nodes == [Container(Some(a), None, [])] && AddStep(s, a).table == map["a" := 0]
  {
    assert Dedup([]) == [];
    assert Prelinked(s, a) == Stored(s, a);
  }

  /** The reply: a container of its own, linked under that of `a`. */
  lemma SecondOfThree(s: Links, a: EmailMessage, b: EmailMessage)
    requires Sound(s) && s.nodes == [Container(Some(a), None, [])] && s.table == map["a" := 0]
    requires b.messageId == "b" && b.references == ["a"]
    ensures AddStep(s, b).table == map["a" := 0, "b" := 1]
    ensures AddStep(s, b).nodes == [Container(Some(a), None, [1]), Container(Some(b), Some(0), [])]
  {
    DedupOfTwo();
    var pre := SecondPrelinked(s, a, b);
    LinkedAsLast(s, b, ["a"], 0, 1);
    assert pre.nodes[0] == Container(Some(a), None, []) && pre.nodes[1] == Container(Some(b), None, []);
    AdoptSecond(pre.nodes, a, b);
  }

  /** `a` adopts the new `b`. */
  lemma AdoptSecond(ns: seq<Container>, a: EmailMessage, b: EmailMessage)
    requires |ns| == 2 && ns[0] == Container(Some(a), None, []) && ns[1] == Container(Some(b), None, [])
    ensures InRange(ns) && Adopted(ns, 0, 1) == [Container(Some(a), None, [1]), Container(Some(b), Some(0), [])]
  {
    AdoptedParentless(ns, 0, 1);
    var r := Adopted(ns, 0, 1);
    assert |r| == 2 && r[0] == Container(Some(a), None, [1]) && r[1] == Container(Some(b), Some(0), []);
    ListOfTwo(r, Container(Some(a), None, [1]), Container(Some(b), Some(0), []));
  }

  /** Before its own link, the reply only has a container of its own: its
      reference is known. */
  lemma SecondPrelinked(s: Links, a: EmailMessage, b: EmailMessage) returns (pre: Links)
    requires Sound(s) && s.nodes == [Container(Some(a), None, [])] && s.table == map["a" := 0]
    requires b.messageId == "b" && b.references == ["a"]
    ensures pre == Prelinked(s, b) && pre.table == map["a" := 0, "b" := 1]
    ensures pre.nodes == [Container(Some(a), None, []), Container(Some(b), None, [])]
  {
    var st := Stored(s, b);
    StoredNew(s, b);
    assert st.nodes == [Container(Some(a), None, []), Container(Some(b), None, [])];
    DedupOfTwo();
    ChainedUnfold(st, ["a"], 1);
    ChainStepKnown(st, None, "a");
    pre := Prelinked(s, b);
  }

  /** The reply to the reply: `a` and `b` are known and already linked, and
      `c` gets a container of its own under that of `b`. */
  lemma ThirdOfThree(s: Links, a: EmailMessage, b: EmailMessage, c: EmailMessage)
    requires Sound(s) && s.table == map["a" := 0, "b" := 1]
    requires s.nodes == [Container(Some(a), None, [1]), Container(Some(b), Some(0), [])]
    requires c.messageId == "c" && c.references == ["a", "b"]
    ensures AddStep(s, c).table == map["a" := 0, "b" := 1, "c" := 2]
    ensures AddStep(s, c).nodes
      == [Container(Some(a), None, [1]), Container(Some(b), Some(0), [2]), Container(Some(c), Some(1), [])]
  {
    ThirdPrelinked(s, a, b, c);
    var pre := Prelinked(s, c);
    DedupOfTwo();
    LinkedAsLast(s, c, ["a", "b"], 1, 2);
    assert |pre.nodes| == 3 && pre.nodes[0] == Container(Some(a), None, [1]);
    assert pre.nodes[1] == Container(Some(b), Some(0), []) && pre.nodes[2] == Container(Some(c), None, []);
    AdoptThird(pre.nodes, a, b, c);
  }

  /** `b` adopts the new `c`. */
  lemma AdoptThird(ns: seq<Container>, a: EmailMessage, b: EmailMessage, c: EmailMessage)
    requires |ns| == 3 && ns[0] == Container(Some(a), None, [1]) && ns[1] == Container(Some(b), Some(0), [])
    requires ns[2] == Container(Some(c), None, [])
    ensures InRange(ns) && Adopted(ns, 1, 2)
      == [Container(Some(a), None, [1]), Container(Some(b), Some(0), [2]), Container(Some(c), Some(1), [])]
  {
    AdoptedParentless(ns, 1, 2);
    var r := Adopted(ns, 1, 2);
    assert |r| == 3 && r[0] == Container(Some(a), None, [1]) && r[1] == Container(Some(b), Some(0), [2]);
    assert r[2] == Container(Some(c), Some(1), []);
    ListOfThree(r, Container(Some(a), None, [1]), Container(Some(b), Some(0), [2]), Container(Some(c), Some(1), []));
  }

  /** A list of two elements, given element by element. */
  lemma ListOfTwo<T>(r: seq<T>, x: T, y: T)
    requires |r| == 2 && r[0] == x && r[1] == y
    ensures r == [x, y]
  {
  }

  /** A list of three elements, given element by element. */
  lemma ListOfThree<T>(r: seq<T>, x: T, y: T, z: T)
    requires |r| == 3 && r[0] == x && r[1] == y && r[2] == z
    ensures r == [x, y, z]
  {
  }

  /** A new message's container, still without children, is linked under
      the container of its last reference. */
  lemma LinkedAsLast(s: Links, m: EmailMessage, u: seq<string>, p: nat, c: nat)
    requires Sound(s) && m.references != [] && u == Dedup(m.references) && u != []
    requires var pre := Prelinked(s, m);
      && pre.table[m.messageId] == c && pre.table[u[|u| - 1]] == p && p != c
      && pre.nodes[c].children == []
    ensures AddStep(s, m).nodes == Adopted(Prelinked(s, m).nodes, p, c)
  {
    var pre := Prelinked(s, m);
    assert !Reaches(pre.nodes, pre.rank, c, p);
    AddStepLinkedUnder(s, m, p, c);
  }

  /** Before its own link, the reply to the reply only has a container of
      its own: its references are known and already linked. */
  lemma ThirdPrelinked(s: Links, a: EmailMessage, b: EmailMessage, c: EmailMessage)
    requires Sound(s) && s.table == map["a" := 0, "b" := 1]
    requires s.nodes == [Container(Some(a), None, [1]), Container(Some(b), Some(0), [])]
    requires c.messageId == "c" && c.references == ["a", "b"]
    ensures Prelinked(s, c).table == map["a" := 0, "b" := 1, "c" := 2]
    ensures Prelinked(s, c).nodes == s.nodes + [Container(Some(c), None, [])]
  {
    var st := Stored(s, c);
    StoredNew(s, c);
    DedupOfTwo();
    PrelinkedDeduped(s, c, ["a", "b"]);
    assert st.nodes[st.table["b"]] == s.nodes[1];
    ChainedTwoKnown(st);
  }

  /** The loop runs over the deduplicated references, all of them. */
  lemma PrelinkedDeduped(s: Links, m: EmailMessage, u: seq<string>)
    requires Sound(s) && u == Dedup(m.references)
    ensures NoDup(u) && Prelinked(s, m) == Chained(Stored(s, m), u, |u|)
  {
    DedupProperties(m.references);
  }

  /** The loop over the references `a` and `b`, both known and `b` already
      linked, changes nothing. */
  lemma ChainedTwoKnown(st: Links)
    requires Sound(st) && "a" in st.table && "b" in st.table && st.nodes[st.table["b"]].parent.Some?
    ensures NoDup(["a", "b"]) && Chained(st, ["a", "b"], 2) == st
  {
    assert NoDup(["a", "b"]);
    ChainedUnfold(st, ["a", "b"], 1);
    ChainStepKnown(st, None, "a");
    ChainedUnfold(st, ["a", "b"], 2);
    ChainStepKnown(st, Some("a"), "b");
  }

  /** A message with a new id is stored in a new container at the end of
      the arena. */
  lemma StoredNew(s: Links, m: EmailMessage)
    requires Sound(s) && m.messageId !in s.table
    ensures Stored(s, m).nodes == s.nodes + [Container(Some(m), None, [])]
    ensures Stored(s, m).table == s.table[m.messageId := |s.nodes|]
  {
    var r := Stored(s, m);
    assert r == Created(s, m.messageId, Some(m));
    assert r.nodes == s.nodes + [Container(Some(m), None, [])];
  }

  /** A turn of the loop over the references on a known id whose container
      is first in the list or already has a parent changes nothing. */
  lemma ChainStepKnown(s: Links, prev: Option<string>, id: string)
    requires Sound(s) && id in s.table && (prev.Some? ==> prev.value in s.table && prev.value != id)
    requires prev.None? || s.nodes[s.table[id]].parent.Some?
    ensures ChainStep(s, prev, id) == s
  {
  }

  lemma DedupOfTwo()
    ensures Dedup(["a"]) == ["a"] && Dedup(["a", "b"]) == ["a", "b"]
  {
    assert ["a", "b"][..1] == ["a"];
    assert ["a"][..0] == [];
  }

  /** `add_child` of a container without a parent only sets its parent and
      appends it to the new parent's children. */
  lemma AdoptedParentless(ns: seq<Container>, p: nat, c: nat)
    requires InRange(ns) && p < |ns| && c < |ns| && p != c && ns[c].parent.None?
    ensures Adopted(ns, p, c) == ns[c := ns[c].(parent := Some(p))][p := ns[p].(children := ns[p].children + [c])]
  {
  }
}
