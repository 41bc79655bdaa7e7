/** The first two steps of `thread`: the containers built from the messages
    and their reference chains (`build_containers_from_messages`,
    jwz_threading.py:132-171) and the parentless ones among them
    (jwz_threading.py:282). */
module Build {
  import opened Wrappers
  import opened Mail
  import opened Containers

  /** The references of one message without repeats, each kept at its first
      occurrence. */
  function Dedup(refs: seq<string>): (u: seq<string>)
    ensures forall r :: r in u ==> r in refs
    ensures u == [] <==> refs == []
  {
    if refs == [] then []
    else
      var u := Dedup(refs[..|refs| - 1]);
      if refs[|refs| - 1] in refs[..|refs| - 1] then u else u + [refs[|refs| - 1]]
  }

  /** Position of the first occurrence of `v` in `s`. */
  function IndexOf(s: seq<string>, v: string): (k: nat)
    requires v in s
    ensures k < |s| && s[k] == v && v !in s[..k]
  {
    if s[0] == v then 0
    else
      var k := IndexOf(s[1..], v);
      assert s[..k + 1] == [s[0]] + s[1..][..k];
      k + 1
  }

  lemma IndexOfPrefix(s: seq<string>, n: nat, v: string)
    requires n <= |s| && v in s[..n]
    ensures IndexOf(s, v) == IndexOf(s[..n], v)
  {
    var k, k' := IndexOf(s, v), IndexOf(s[..n], v);
    assert s[..n][k'] == s[k'];
    assert forall t :: 0 <= t < k ==> s[..k][t] == s[t];
    assert forall t :: 0 <= t < k' ==> s[..n][..k'][t] == s[t];
  }

  /** The deduplicated references: no repeats, the same references, and in
      the order of their first occurrences. */
  lemma {:induction false} DedupProperties(refs: seq<string>)
    ensures NoDup(Dedup(refs))
    ensures forall r :: r in Dedup(refs) <==> r in refs
    ensures forall i, j :: 0 <= i < j < |Dedup(refs)| ==>
      IndexOf(refs, Dedup(refs)[i]) < IndexOf(refs, Dedup(refs)[j])
  {
    if refs != [] {
      var n := |refs| - 1;
      var init, last := refs[..n], refs[n];
      DedupProperties(init);
      assert refs == init + [last];
      var u := Dedup(init);
      forall r ensures r in init ==> r in refs {
        if r in init {
          var k :| 0 <= k < |init| && init[k] == r;
          assert refs[k] == r;
        }
      }
      forall i | 0 <= i < |u| ensures IndexOf(refs, u[i]) == IndexOf(init, u[i]) {
        assert u[i] in u;
        IndexOfPrefix(refs, n, u[i]);
      }
      if last !in init {
        assert IndexOf(refs, last) == n by {
          assert forall t :: 0 <= t < n ==> refs[t] == init[t];
        }
      }
    }
  }

  /** `unique_refs` (jwz_threading.py:146-152). */
  method UniqueRefs(refs: seq<string>) returns (unique: seq<string>)
    ensures unique == Dedup(refs)
    ensures NoDup(unique) && forall r :: r in unique <==> r in refs
  {
    unique := [];
    var seen: set<string> := {};
    for i := 0 to |refs|
      invariant unique == Dedup(refs[..i])
      invariant seen == set r | r in refs[..i]
    {
      assert refs[..i + 1][..i] == refs[..i];
      if refs[i] !in seen {
        unique := unique + [refs[i]];
        seen := seen + {refs[i]};
      }
    }
    assert refs[..|refs|] == refs;
    DedupProperties(refs);
  }

  /** Every message id and every reference id of `ms`: the keys of the id
      table once `ms` has been processed. */
  function Ids(ms: seq<EmailMessage>): (ids: set<string>)
    ensures forall m :: m in ms ==> m.messageId in ids
  {
    if ms == [] then {}
    else
      var last := ms[|ms| - 1];
      var init := ms[..|ms| - 1];
      assert ms == init + [last];
      Ids(init) + {last.messageId} + (set r | r in last.references)
  }

  /** The last message of `ms` whose id is `id`, if any. */
  function LastWithId(ms: seq<EmailMessage>, id: string): (r: Option<EmailMessage>)
    ensures r.None? <==> forall m :: m in ms ==> m.messageId != id
    ensures r.Some? ==> r.value in ms && r.value.messageId == id
  {
    if ms == [] then None
    else if ms[|ms| - 1].messageId == id then Some(ms[|ms| - 1])
    else
      var init := ms[..|ms| - 1];
      assert ms == init + [ms[|ms| - 1]];
      LastWithId(init, id)
  }

  /** A later message with the same id replaces the stored one. */
  lemma LastWithIdIsLast(ms: seq<EmailMessage>, i: nat)
    requires i < |ms|
    requires forall j :: i < j < |ms| ==> ms[j].messageId != ms[i].messageId
    ensures LastWithId(ms, ms[i].messageId) == Some(ms[i])
  {
    if i < |ms| - 1 {
      var init := ms[..|ms| - 1];
      assert init[i] == ms[i];
      LastWithIdIsLast(init, i);
    }
  }

  /** The id table maps ids one-to-one onto the containers of the arena. */
  ghost predicate Bijective(ns: seq<Container>, table: map<string, nat>) {
    && (forall id :: id in table ==> table[id] < |ns|)
    && (forall id1, id2 :: id1 in table && id2 in table && table[id1] == table[id2] ==> id1 == id2)
    && (forall x :: 0 <= x < |ns| ==> x in table.Values)
  }

  /** Every live container that names a parent is in that parent's list. */
  ghost predicate ParentsListed(ns: seq<Container>, dead: set<nat>)
    requires InRange(ns)
  {
    forall x :: 0 <= x < |ns| && x !in dead && ns[x].parent.Some? ==> x in ns[ns[x].parent.value].children
  }

  lemma AdoptedParentsListed(ns: seq<Container>, dead: set<nat>, p: nat, c: nat)
    requires InRange(ns) && p < |ns| && c < |ns| && Consistent(ns, dead) && ParentsListed(ns, dead)
    requires p !in dead && c !in dead && p != c
    ensures InRange(Adopted(ns, p, c)) && ParentsListed(Adopted(ns, p, c), dead)
  {
    var r := Adopted(ns, p, c);
    AdoptedConsistent(ns, dead, p, c);
    forall x | 0 <= x < |r| && x !in dead && r[x].parent.Some?
      ensures x in r[r[x].parent.value].children
    {
      if x != c {
        var q := r[x].parent.value;
        assert x in ns[q].children;
        RemoveFirstKeeps(ns[q].children, c, x);
      }
    }
  }

  /** The stored messages are, id by id, the last message of `ms` with that
      id; a container made for a reference alone holds no message. */
  ghost predicate MessagesFrom(ns: seq<Container>, table: map<string, nat>, ms: seq<EmailMessage>) {
    forall id :: id in table && table[id] < |ns| ==> ns[table[id]].message == LastWithId(ms, id)
  }

  /** The link of a reference under the previous one (jwz_threading.py:
      161-163): made only when the previous container exists, the reference's
      container has no parent yet, and the previous container is not already
      below it. */
  method LinkReference(a: Arena, prev: Option<nat>, rc: nat)
    requires a.Valid() && rc < |a.nodes| && rc !in a.dead
    requires prev.Some? ==> prev.value < |a.nodes| && prev.value !in a.dead && prev.value != rc
    modifies a
    ensures a.Valid() && a.dead == old(a.dead)
    ensures a.nodes == if prev.Some? && old(a.nodes)[rc].parent.None? && !Below(old(a.nodes), old(a.rank), rc, prev.value)
                       then Adopted(old(a.nodes), prev.value, rc) else old(a.nodes)
    ensures a.rank == if prev.Some? && old(a.nodes)[rc].parent.None? && !Below(old(a.nodes), old(a.rank), rc, prev.value)
                      then Bumped(old(a.nodes), old(a.rank), rc) else old(a.rank)
    ensures ParentsListed(old(a.nodes), a.dead) ==> ParentsListed(a.nodes, a.dead)
  {
    if prev.Some? && a.nodes[rc].parent.None? && !HasDescendant(a.nodes, a.rank, rc, prev.value) {
      if ParentsListed(a.nodes, a.dead) {
        AdoptedParentsListed(a.nodes, a.dead, prev.value, rc);
      }
      a.AddChild(prev.value, rc);
    }
  }

  /** The guard of the message's own link (jwz_threading.py:168) as written:
      it does not rule out that the last reference is the message itself. */
  function ParentGuardAsWritten(ns: seq<Container>, ghost rank: seq<nat>, prev: Option<nat>, c: nat): bool
    requires Ranked(ns, rank) && c < |ns|
  {
    prev.Some? && !HasDescendant(ns, rank, c, prev.value)
  }

  /** The guard as evidently intended: the last reference's container is
      neither the message's container nor one of its descendants. */
  function ParentGuard(ns: seq<Container>, ghost rank: seq<nat>, prev: Option<nat>, c: nat): (ok: bool)
    requires Ranked(ns, rank) && c < |ns|
    ensures ok <==> prev.Some? && !Reaches(ns, rank, c, prev.value)
  {
    prev.Some? && prev.value != c && !HasDescendant(ns, rank, c, prev.value)
  }

  /** With the guard as written, a message whose last distinct reference is
      its own id is linked under itself: its container becomes its own child,
      no ranking of the child lists exists any more, and the container is in
      no other container's child list and has a parent, so it is reachable
      from no root. */
  lemma SelfReferenceLoop(ns: seq<Container>, rank: seq<nat>, dead: set<nat>, c: nat)
    requires Ranked(ns, rank) && Consistent(ns, dead) && c < |ns| && c !in dead
    ensures ParentGuardAsWritten(ns, rank, Some(c), c)
    ensures c in Adopted(ns, c, c)[c].children && Adopted(ns, c, c)[c].parent == Some(c)
    ensures forall rk :: !Ranked(Adopted(ns, c, c), rk)
    ensures forall x :: 0 <= x < |ns| && x != c && x !in dead ==> c !in Adopted(ns, c, c)[x].children
  {
    NotOwnDescendant(ns, rank, c);
    var r := Adopted(ns, c, c);
    var k := |r[c].children| - 1;
    assert r[c].children[k] == c;
    forall rk ensures !Ranked(r, rk) {
    }
    OrphanedConsistent(ns, dead, c);
  }

  /** The evidently intended guard keeps the child lists acyclic. */
  lemma ParentGuardKeepsRanked(ns: seq<Container>, rank: seq<nat>, prev: Option<nat>, c: nat)
    requires Ranked(ns, rank) && c < |ns|
    requires ParentGuard(ns, rank, prev, c) && prev.value < |ns|
    ensures Ranked(Adopted(ns, prev.value, c), Bumped(ns, rank, c))
  {
    AdoptedRanked(ns, rank, prev.value, c);
  }

  /** The state `build_containers_from_messages` works on, as values: the
      container records, their ghost ranks and the id table. The functions
      below give, step by step, what the loops of
      jwz_threading.py:136-169 do to it; the methods further down are proved
      to do the same to the arena. */
  datatype Links = Links(nodes: seq<Container>, rank: seq<nat>, table: map<string, nat>)

  /** Acyclic child lists, and an id table mapping distinct ids to distinct
      containers of the arena. */
  ghost predicate Sound(s: Links) {
    && Ranked(s.nodes, s.rank)
    && (forall id :: id in s.table ==> s.table[id] < |s.nodes|)
    && (forall id1, id2 :: id1 in s.table && id2 in s.table && s.table[id1] == s.table[id2] ==> id1 == id2)
  }

  /** A new container for `id` holding `m`, with no parent and no
      children (jwz_threading.py:142-143 and 158-159). */
  ghost function Created(s: Links, id: string, m: Option<EmailMessage>): (r: Links)
    requires Sound(s) && id !in s.table
    ensures Sound(r) && r.table == s.table[id := |s.nodes|]
    ensures |r.nodes| == |s.nodes| + 1 && r.nodes[|s.nodes|] == Container(m, None, [])
    ensures forall x :: 0 <= x < |s.nodes| ==> r.nodes[x] == s.nodes[x]
  {
    AppendedRanked(s.nodes, s.rank, m);
    Links(s.nodes + [Container(m, None, [])], s.rank + [0], s.table[id := |s.nodes|])
  }

  /** A new container has no links. */
  lemma AppendedRanked(ns: seq<Container>, rank: seq<nat>, m: Option<EmailMessage>)
    requires Ranked(ns, rank)
    ensures Ranked(ns + [Container(m, None, [])], rank + [0])
  {
    var ns' := ns + [Container(m, None, [])];
    assert forall y :: 0 <= y < |ns| ==> ns'[y] == ns[y];
  }

  /** The message stored in the container of its id, the existing one or a
      new one (jwz_threading.py:137-143). */
  ghost function Stored(s: Links, m: EmailMessage): (r: Links)
    requires Sound(s)
    ensures Sound(r) && m.messageId in r.table
    ensures r.table.Keys == s.table.Keys + {m.messageId} && forall k :: k in s.table ==> r.table[k] == s.table[k]
    ensures r.nodes[r.table[m.messageId]].message == Some(m)
  {
    if m.messageId in s.table then
      var x := s.table[m.messageId];
      MessageSetRanked(s.nodes, s.rank, x, m);
      Links(s.nodes[x := s.nodes[x].(message := Some(m))], s.rank, s.table)
    else Created(s, m.messageId, Some(m))
  }

  /** Setting a message changes no link. */
  lemma MessageSetRanked(ns: seq<Container>, rank: seq<nat>, x: nat, m: EmailMessage)
    requires Ranked(ns, rank) && x < |ns|
    ensures Ranked(ns[x := ns[x].(message := Some(m))], rank)
  {
    var ns' := ns[x := ns[x].(message := Some(m))];
    assert forall y :: 0 <= y < |ns| ==> ns'[y].parent == ns[y].parent && ns'[y].children == ns[y].children;
  }

  /** The container of a reference, the existing one or a new empty one
      (jwz_threading.py:157-160). */
  ghost function Referenced(s: Links, id: string): (r: Links)
    requires Sound(s)
    ensures Sound(r) && id in r.table && |s.nodes| <= |r.nodes|
    ensures r.table.Keys == s.table.Keys + {id} && forall k :: k in s.table ==> r.table[k] == s.table[k]
  {
    if id in s.table then s else Created(s, id, None)
  }

  /** `p.add_child(c)` for a `p` outside the subtree of `c`. */
  ghost function Adoption(s: Links, p: nat, c: nat): (r: Links)
    requires Sound(s) && p < |s.nodes| && c < |s.nodes| && !Reaches(s.nodes, s.rank, c, p)
    ensures Sound(r) && r.table == s.table
    ensures r.nodes == Adopted(s.nodes, p, c)
  {
    AdoptedRanked(s.nodes, s.rank, p, c);
    Links(Adopted(s.nodes, p, c), Bumped(s.nodes, s.rank, c), s.table)
  }

  /** The link of a reference's container under the previous one
      (jwz_threading.py:161-163). */
  ghost function LinkedRef(s: Links, prev: Option<nat>, rc: nat): (r: Links)
    requires Sound(s) && rc < |s.nodes|
    requires prev.Some? ==> prev.value < |s.nodes| && prev.value != rc
    ensures Sound(r) && r.table == s.table && |r.nodes| == |s.nodes|
  {
    if prev.Some? && s.nodes[rc].parent.None? && !HasDescendant(s.nodes, s.rank, rc, prev.value)
    then Adoption(s, prev.value, rc) else s
  }

  /** The loop over the distinct references `refs` (jwz_threading.py:
      154-165), after its first `n` turns: each reference's container is
      found or made and linked under the previous one's. */
  ghost function Chained(s: Links, refs: seq<string>, n: nat): (r: Links)
    requires Sound(s) && NoDup(refs) && n <= |refs|
    ensures Sound(r) && |s.nodes| <= |r.nodes|
    ensures forall k :: k in r.table <==> k in s.table || k in refs[..n]
    ensures forall k :: k in s.table ==> r.table[k] == s.table[k]
  {
    if n == 0 then s
    else
      assert refs[..n] == refs[..n - 1] + [refs[n - 1]];
      assert n > 1 ==> refs[n - 2] in refs[..n - 1];
      ChainStep(Chained(s, refs, n - 1), if n == 1 then None else Some(refs[n - 2]), refs[n - 1])
  }

  /** One turn of that loop: `id`'s container is found or made, then linked
      under the container of the previous reference `prev`, if any. */
  ghost function ChainStep(s: Links, prev: Option<string>, id: string): (r: Links)
    requires Sound(s) && (prev.Some? ==> prev.value in s.table && prev.value != id)
    ensures Sound(r) && |s.nodes| <= |r.nodes|
    ensures r.table.Keys == s.table.Keys + {id} && forall k :: k in s.table ==> r.table[k] == s.table[k]
  {
    var s2 := Referenced(s, id);
    LinkedRef(s2, if prev.None? then None else Some(s2.table[prev.value]), s2.table[id])
  }

  /** The container the loop over the references leaves in
      `prev_container`: that of the last distinct reference, if any. */
  ghost function LastRef(s: Links, refs: seq<string>): (prev: Option<nat>)
    requires forall k :: k in refs ==> k in s.table
  {
    if refs == [] then None else Some(s.table[refs[|refs| - 1]])
  }

  /** The message's own link under the last distinct reference
      (jwz_threading.py:167-169), with the corrected guard `ParentGuard`. */
  ghost function LinkedMsg(s: Links, prev: Option<nat>, c: nat): (r: Links)
    requires Sound(s) && c < |s.nodes| && (prev.Some? ==> prev.value < |s.nodes|)
    ensures Sound(r) && r.table == s.table && |r.nodes| == |s.nodes|
  {
    if ParentGuard(s.nodes, s.rank, prev, c) then Adoption(s, prev.value, c) else s
  }

  /** The state after the message is stored and its references are linked,
      before its own link. */
  ghost function Prelinked(s: Links, m: EmailMessage): (r: Links)
    requires Sound(s)
    ensures Sound(r) && m.messageId in r.table && forall k :: k in m.references ==> k in r.table
    ensures forall k :: k in r.table <==> k in s.table || k == m.messageId || k in m.references
    ensures forall k :: k in s.table ==> r.table[k] == s.table[k]
  {
    DedupProperties(m.references);
    Chained(Stored(s, m), Dedup(m.references), |Dedup(m.references)|)
  }

  /** One turn of the loop over the messages (jwz_threading.py:136-169). */
  ghost function AddStep(s: Links, m: EmailMessage): (r: Links)
    requires Sound(s)
    ensures Sound(r) && r.table == Prelinked(s, m).table && |r.nodes| == |Prelinked(s, m).nodes|
  {
    DedupProperties(m.references);
    var pre := Prelinked(s, m);
    LinkedMsg(pre, LastRef(pre, Dedup(m.references)), pre.table[m.messageId])
  }

  /** `build_containers_from_messages` (jwz_threading.py:132-171) on values:
      the loop over the messages from an empty arena and an empty table. */
  ghost function Built(ms: seq<EmailMessage>): (r: Links)
    ensures Sound(r) && forall k :: k in r.table <==> k in Ids(ms)
  {
    if ms == [] then Links([], [], map[])
    else
      var n := |ms| - 1;
      assert ms == ms[..n] + [ms[n]];
      IdsAppend(ms[..n], ms[n]);
      AddStep(Built(ms[..n]), ms[n])
  }

  /** One more message of the loop is one more step of `Built`. */
  lemma BuiltNext(ms: seq<EmailMessage>, i: nat)
    requires i < |ms|
    ensures Built(ms[..i + 1]) == AddStep(Built(ms[..i]), ms[i])
  {
    var ps := ms[..i + 1];
    assert ps[..|ps| - 1] == ms[..i] && ps[|ps| - 1] == ms[i];
  }

  lemma PrefixSnoc<T>(s: seq<T>, i: nat)
    requires i < |s|
    ensures s[..i + 1] == s[..i] + [s[i]]
  {
  }

  /** The message's own link (jwz_threading.py:167-169), under its last
      distinct reference, with the evidently intended guard. */
  method LinkMessage(a: Arena, prev: Option<nat>, c: nat)
    requires a.Valid() && c < |a.nodes| && c !in a.dead
    requires prev.Some? ==> prev.value < |a.nodes| && prev.value !in a.dead
    modifies a
    ensures a.Valid() && a.dead == old(a.dead)
    ensures a.nodes == if prev.Some? && !Reaches(old(a.nodes), old(a.rank), c, prev.value)
                       then Adopted(old(a.nodes), prev.value, c) else old(a.nodes)
    ensures a.rank == if prev.Some? && !Reaches(old(a.nodes), old(a.rank), c, prev.value)
                      then Bumped(old(a.nodes), old(a.rank), c) else old(a.rank)
    ensures ParentsListed(old(a.nodes), a.dead) ==> ParentsListed(a.nodes, a.dead)
  {
    if ParentGuard(a.nodes, a.rank, prev, c) {
      if ParentsListed(a.nodes, a.dead) {
        AdoptedParentsListed(a.nodes, a.dead, prev.value, c);
      }
      a.AddChild(prev.value, c);
    }
  }

  lemma AdoptedKeepsMessages(ns: seq<Container>, table: map<string, nat>, ms: seq<EmailMessage>, p: nat, c: nat)
    requires InRange(ns) && p < |ns| && c < |ns| && MessagesFrom(ns, table, ms)
    ensures MessagesFrom(Adopted(ns, p, c), table, ms)
  {
  }

  /** A container made for a reference that no message carries holds no
      message, as `MessagesFrom` requires. */
  lemma NewReferenceKeepsMessages(ns: seq<Container>, table: map<string, nat>, ms: seq<EmailMessage>, id: string)
    requires MessagesFrom(ns, table, ms) && id !in table
    requires forall m :: m in ms ==> m.messageId in table
    requires forall k :: k in table ==> table[k] < |ns|
    ensures MessagesFrom(ns + [Container(None, None, [])], table[id := |ns|], ms)
  {
    assert LastWithId(ms, id).None?;
    var ns', t' := ns + [Container(None, None, [])], table[id := |ns|];
    forall k | k in t' && t'[k] < |ns'| ensures ns'[t'[k]].message == LastWithId(ms, k) {
      if k != id {
        assert ns'[t'[k]] == ns[table[k]];
      }
    }
  }

  /** A container for `id`: the existing one, or a new one holding `m`. */
  method FindOrCreate(a: Arena, table: map<string, nat>, id: string, m: Option<EmailMessage>)
    returns (t2: map<string, nat>, x: nat)
    requires a.Valid() && a.dead == {} && ParentsListed(a.nodes, a.dead) && Bijective(a.nodes, table)
    modifies a
    ensures a.Valid() && a.dead == {} && ParentsListed(a.nodes, a.dead) && Bijective(a.nodes, t2)
    ensures id in t2 && x == t2[id] && t2.Keys == table.Keys + {id}
    ensures forall k :: k in table ==> k in t2 && t2[k] == table[k]
    ensures id in table ==> a.nodes == old(a.nodes) && a.rank == old(a.rank) && t2 == table
    ensures id !in table ==> x == |old(a.nodes)| && a.nodes == old(a.nodes) + [Container(m, None, [])]
    ensures id !in table ==> a.rank == old(a.rank) + [0] && t2 == table[id := x]
  {
    if id in table {
      t2, x := table, table[id];
    } else {
      x := a.NewContainer(m);
      t2 := table[id := x];
      assert forall k :: k in table ==> table[k] < x;
      forall y | 0 <= y < |a.nodes| ensures y in t2.Values {
        if y < x {
          assert y in table.Values;
          var k :| k in table && table[k] == y;
          assert t2[k] == y;
        } else {
          assert t2[id] == y;
        }
      }
      assert ParentsListed(old(a.nodes), a.dead);
      forall y | 0 <= y < |a.nodes| && a.nodes[y].parent.Some? ensures y in a.nodes[a.nodes[y].parent.value].children {
        assert a.nodes[y] == old(a.nodes)[y];
      }
    }
  }

  /** One step of the loop over the distinct references
      (jwz_threading.py:155-165): find or make the reference's container and
      link it under the previous reference's container as `LinkReference`
      says. */
  method LinkNext(a: Arena, table: map<string, nat>, id: string, prev: Option<nat>,
                  ghost prevId: string, ghost ms: seq<EmailMessage>)
    returns (t2: map<string, nat>, rc: nat)
    requires a.Valid() && a.dead == {} && ParentsListed(a.nodes, a.dead) && Bijective(a.nodes, table)
    requires MessagesFrom(a.nodes, table, ms) && (forall m :: m in ms ==> m.messageId in table)
    requires prev.Some? ==> prevId in table && table[prevId] == prev.value && prevId != id
    modifies a
    ensures a.Valid() && a.dead == {} && ParentsListed(a.nodes, a.dead) && Bijective(a.nodes, t2)
    ensures MessagesFrom(a.nodes, t2, ms)
    ensures t2.Keys == table.Keys + {id} && rc == t2[id]
    ensures forall k :: k in table ==> t2[k] == table[k]
    ensures Links(a.nodes, a.rank, t2)
      == ChainStep(Links(old(a.nodes), old(a.rank), table), if prev.None? then None else Some(prevId), id)
  {
    ghost var nodesBefore := a.nodes;
    ghost var s0 := Links(a.nodes, a.rank, table);
    t2, rc := FindOrCreate(a, table, id, None);
    if id !in table {
      NewReferenceKeepsMessages(nodesBefore, table, ms, id);
    }
    assert MessagesFrom(a.nodes, t2, ms);
    ghost var s1 := Links(a.nodes, a.rank, t2);
    assert s1 == Referenced(s0, id);
    ghost var nodesMid := a.nodes;
    LinkReference(a, prev, rc);
    if prev.Some? {
      AdoptedKeepsMessages(nodesMid, t2, ms, prev.value, rc);
    }
    LinkedRefIs(s1, prev, rc, a.nodes, a.rank);
  }

  /** What `LinkReference` does to the arena is `LinkedRef`. */
  lemma LinkedRefIs(s: Links, prev: Option<nat>, rc: nat, ns: seq<Container>, rank: seq<nat>)
    requires Sound(s) && rc < |s.nodes| && (prev.Some? ==> prev.value < |s.nodes| && prev.value != rc)
    requires ns == if prev.Some? && s.nodes[rc].parent.None? && !Below(s.nodes, s.rank, rc, prev.value)
                   then Adopted(s.nodes, prev.value, rc) else s.nodes
    requires rank == if prev.Some? && s.nodes[rc].parent.None? && !Below(s.nodes, s.rank, rc, prev.value)
                     then Bumped(s.nodes, s.rank, rc) else s.rank
    ensures Links(ns, rank, s.table) == LinkedRef(s, prev, rc)
  {
  }

  /** The id table after one more reference of the loop. */
  lemma LinkedKeys(table: map<string, nat>, t1: map<string, nat>, t2: map<string, nat>, unique: seq<string>, j: nat,
                   ms: seq<EmailMessage>)
    requires j < |unique|
    requires forall k :: k in t1 <==> k in table || k in unique[..j]
    requires forall k :: k in table ==> t1[k] == table[k]
    requires t2.Keys == t1.Keys + {unique[j]} && forall k :: k in t1 ==> t2[k] == t1[k]
    requires forall m :: m in ms ==> m.messageId in t1
    ensures forall k :: k in t2 <==> k in table || k in unique[..j + 1]
    ensures forall k :: k in table ==> t2[k] == table[k]
    ensures forall m :: m in ms ==> m.messageId in t2
  {
    assert unique[..j + 1] == unique[..j] + [unique[j]];
  }

  /** One turn of the loop over the distinct references
      (jwz_threading.py:155-165), with what the loop keeps before and after. */
  method LinkTurn(a: Arena, table: map<string, nat>, unique: seq<string>, j: nat, t1: map<string, nat>,
                  prev: Option<nat>, ghost s0: Links, ghost ms: seq<EmailMessage>)
    returns (t2: map<string, nat>, rc: nat)
    requires NoDup(unique) && j < |unique| && Sound(s0) && s0.table == table
    requires a.Valid() && a.dead == {} && ParentsListed(a.nodes, a.dead) && Bijective(a.nodes, t1)
    requires MessagesFrom(a.nodes, t1, ms) && (forall m :: m in ms ==> m.messageId in t1)
    requires forall k :: k in t1 <==> k in table || k in unique[..j]
    requires forall k :: k in table ==> t1[k] == table[k]
    requires prev == if j == 0 then None else Some(t1[unique[j - 1]])
    requires Links(a.nodes, a.rank, t1) == Chained(s0, unique, j)
    modifies a
    ensures a.Valid() && a.dead == {} && ParentsListed(a.nodes, a.dead) && Bijective(a.nodes, t2)
    ensures MessagesFrom(a.nodes, t2, ms) && (forall m :: m in ms ==> m.messageId in t2)
    ensures forall k :: k in t2 <==> k in table || k in unique[..j + 1]
    ensures forall k :: k in table ==> t2[k] == table[k]
    ensures rc == t2[unique[j]]
    ensures Links(a.nodes, a.rank, t2) == Chained(s0, unique, j + 1)
  {
    ghost var prevId := if j == 0 then "" else unique[j - 1];
    if j > 0 {
      assert unique[j - 1] in unique[..j] && unique[j - 1] != unique[j];
    }
    ghost var l1 := Links(a.nodes, a.rank, t1);
    t2, rc := LinkNext(a, t1, unique[j], prev, prevId, ms);
    ChainedNext(s0, unique, j, l1, prev, prevId, Links(a.nodes, a.rank, t2));
    LinkedKeys(table, t1, t2, unique, j, ms);
  }

  /** The loop over the distinct references (jwz_threading.py:154-165).
      `prev` ends as the container of the last reference. */
  method LinkReferences(a: Arena, table: map<string, nat>, unique: seq<string>, ghost ms: seq<EmailMessage>)
    returns (t2: map<string, nat>, prev: Option<nat>)
    requires a.Valid() && a.dead == {} && ParentsListed(a.nodes, a.dead) && Bijective(a.nodes, table)
    requires MessagesFrom(a.nodes, table, ms) && (forall m :: m in ms ==> m.messageId in table)
    requires NoDup(unique)
    modifies a
    ensures a.Valid() && a.dead == {} && ParentsListed(a.nodes, a.dead) && Bijective(a.nodes, t2)
    ensures MessagesFrom(a.nodes, t2, ms)
    ensures forall k :: k in t2 <==> k in table || k in unique
    ensures forall k :: k in table ==> t2[k] == table[k]
    ensures prev == if unique == [] then None else Some(t2[unique[|unique| - 1]])
    ensures Links(a.nodes, a.rank, t2) == Chained(Links(old(a.nodes), old(a.rank), table), unique, |unique|)
  {
    t2, prev := table, None;
    ghost var s0 := Links(a.nodes, a.rank, table);
    for j := 0 to |unique|
      invariant a.Valid() && a.dead == {} && ParentsListed(a.nodes, a.dead) && Bijective(a.nodes, t2)
      invariant MessagesFrom(a.nodes, t2, ms) && (forall m :: m in ms ==> m.messageId in t2)
      invariant forall k :: k in t2 <==> k in table || k in unique[..j]
      invariant forall k :: k in table ==> t2[k] == table[k]
      invariant prev == if j == 0 then None else Some(t2[unique[j - 1]])
      invariant Sound(s0) && Links(a.nodes, a.rank, t2) == Chained(s0, unique, j)
    {
      var rc;
      t2, rc := LinkTurn(a, table, unique, j, t2, prev, s0, ms);
      prev := Some(rc);
    }
    assert unique[..|unique|] == unique;
  }

  /** One more turn of the loop over the references is one more step of
      `Chained`. */
  lemma ChainedNext(s: Links, refs: seq<string>, j: nat, r0: Links, prev: Option<nat>, prevId: string, r: Links)
    requires Sound(s) && NoDup(refs) && j < |refs| && r0 == Chained(s, refs, j)
    requires prev.None? <==> j == 0
    requires j > 0 ==> prevId == refs[j - 1]
    requires prev.Some? ==> prevId in r0.table && prevId != refs[j]
    requires r == ChainStep(r0, if prev.None? then None else Some(prevId), refs[j])
    ensures r == Chained(s, refs, j + 1)
  {
  }

  /** The last message with a given id is the newest one, or else the last
      among the earlier messages. */
  lemma LastWithIdAppend(ms: seq<EmailMessage>, m: EmailMessage, id: string)
    ensures LastWithId(ms + [m], id) == if m.messageId == id then Some(m) else LastWithId(ms, id)
  {
    assert (ms + [m])[..|ms|] == ms;
  }

  /** The ids after one more message: its own id and its references. */
  lemma IdsAppend(ms: seq<EmailMessage>, m: EmailMessage)
    ensures Ids(ms + [m]) == Ids(ms) + {m.messageId} + (set r | r in m.references)
  {
    assert (ms + [m])[..|ms|] == ms;
  }

  /** Storing the newest message in its id's container keeps every
      container's message the last one with its id. */
  lemma StoreMessageKeepsMessages(ns: seq<Container>, table: map<string, nat>, ms: seq<EmailMessage>, m: EmailMessage)
    requires Bijective(ns, table) && MessagesFrom(ns, table, ms) && m.messageId in table
    ensures MessagesFrom(ns[table[m.messageId] := ns[table[m.messageId]].(message := Some(m))], table, ms + [m])
  {
    var x := table[m.messageId];
    var ns' := ns[x := ns[x].(message := Some(m))];
    forall k | k in table && table[k] < |ns'| ensures ns'[table[k]].message == LastWithId(ms + [m], k) {
      LastWithIdAppend(ms, m, k);
    }
  }

  /** The same when the newest message's id is new: its container is made
      with the message in it. */
  lemma NewMessageKeepsMessages(ns: seq<Container>, table: map<string, nat>, ms: seq<EmailMessage>, m: EmailMessage)
    requires MessagesFrom(ns, table, ms) && m.messageId !in table
    requires forall k :: k in table ==> table[k] < |ns|
    ensures MessagesFrom(ns + [Container(Some(m), None, [])], table[m.messageId := |ns|], ms + [m])
  {
    var ns', t' := ns + [Container(Some(m), None, [])], table[m.messageId := |ns|];
    forall k | k in t' && t'[k] < |ns'| ensures ns'[t'[k]].message == LastWithId(ms + [m], k) {
      LastWithIdAppend(ms, m, k);
      if k != m.messageId {
        assert ns'[t'[k]] == ns[table[k]];
      }
    }
  }

  /** Storing a message changes no link. */
  lemma StoredParentsListed(ns: seq<Container>, dead: set<nat>, x: nat, m: EmailMessage)
    requires InRange(ns) && x < |ns| && ParentsListed(ns, dead)
    ensures InRange(ns[x := ns[x].(message := Some(m))]) && ParentsListed(ns[x := ns[x].(message := Some(m))], dead)
  {
    var ns' := ns[x := ns[x].(message := Some(m))];
    assert forall y :: 0 <= y < |ns| ==> ns'[y].parent == ns[y].parent && ns'[y].children == ns[y].children;
  }

  /** The container of one message (jwz_threading.py:137-143): the one
      already made for its id, now holding the message, or a new one. */
  method StoreMessage(a: Arena, table: map<string, nat>, m: EmailMessage, ghost done: seq<EmailMessage>)
    returns (t2: map<string, nat>, c: nat)
    requires a.Valid() && a.dead == {} && ParentsListed(a.nodes, a.dead) && Bijective(a.nodes, table)
    requires MessagesFrom(a.nodes, table, done) && (forall mm :: mm in done ==> mm.messageId in table)
    modifies a
    ensures a.Valid() && a.dead == {} && ParentsListed(a.nodes, a.dead) && Bijective(a.nodes, t2)
    ensures MessagesFrom(a.nodes, t2, done + [m]) && (forall mm :: mm in done + [m] ==> mm.messageId in t2)
    ensures t2.Keys == table.Keys + {m.messageId} && c == t2[m.messageId]
    ensures forall k :: k in table ==> t2[k] == table[k]
    ensures Links(a.nodes, a.rank, t2) == Stored(Links(old(a.nodes), old(a.rank), table), m)
  {
    ghost var ns0 := a.nodes;
    t2, c := FindOrCreate(a, table, m.messageId, Some(m));
    if m.messageId in table {
      StoreMessageKeepsMessages(a.nodes, table, done, m);
      StoredParentsListed(a.nodes, a.dead, c, m);
      a.SetMessage(c, m);
    } else {
      NewMessageKeepsMessages(ns0, table, done, m);
    }
  }

  /** The state the loop over the messages keeps once the messages `ms`
      are processed: the id table is a bijection onto the containers, it
      has exactly the ids of `ms`, every container holds the last message
      with its id, and every container naming a parent is in its list. */
  ghost predicate Indexed(ns: seq<Container>, table: map<string, nat>, ms: seq<EmailMessage>) {
    // Named, so that the loop passes it on as one fact.
    var holds := InRange(ns) && ParentsListed(ns, {}) && Bijective(ns, table) && MessagesFrom(ns, table, ms)
                 && (forall k :: k in table <==> k in Ids(ms));
    holds
  }

  lemma IndexedFacts(ns: seq<Container>, table: map<string, nat>, ms: seq<EmailMessage>)
    requires Indexed(ns, table, ms)
    ensures InRange(ns) && ParentsListed(ns, {}) && Bijective(ns, table) && MessagesFrom(ns, table, ms)
    ensures forall k :: k in table <==> k in Ids(ms)
  {
  }

  lemma IndexedIntro(ns: seq<Container>, table: map<string, nat>, ms: seq<EmailMessage>)
    requires InRange(ns) && ParentsListed(ns, {}) && Bijective(ns, table) && MessagesFrom(ns, table, ms)
    requires forall k :: k in table <==> k in Ids(ms)
    ensures Indexed(ns, table, ms)
  {
  }

  /** The id table after one more message holds the ids of the messages
      so far. */
  lemma AddedIds(table: map<string, nat>, t1: map<string, nat>, t2: map<string, nat>, unique: seq<string>,
                 done: seq<EmailMessage>, m: EmailMessage)
    requires forall k :: k in table <==> k in Ids(done)
    requires t1.Keys == table.Keys + {m.messageId}
    requires forall k :: k in t2 <==> k in t1 || k in unique
    requires forall r :: r in unique <==> r in m.references
    ensures forall k :: k in t2 <==> k in Ids(done + [m])
  {
    IdsAppend(done, m);
  }

  /** One iteration of the loop over the messages (jwz_threading.py:136-169):
      the message's container, its distinct references linked in a chain,
      and the message linked under the last of them. */
  method AddMessage(a: Arena, table: map<string, nat>, m: EmailMessage, ghost done: seq<EmailMessage>)
    returns (t2: map<string, nat>)
    requires a.Valid() && a.dead == {} && Indexed(a.nodes, table, done)
    modifies a
    ensures a.Valid() && a.dead == {} && Indexed(a.nodes, t2, done + [m])
    ensures forall k :: k in table ==> t2[k] == table[k]
    ensures Links(a.nodes, a.rank, t2) == AddStep(Links(old(a.nodes), old(a.rank), table), m)
  {
    var t1, c := StoreMessage(a, table, m, done);
    var unique := UniqueRefs(m.references);
    var prev;
    t2, prev := LinkReferences(a, t1, unique, done + [m]);
    ghost var ns1 := a.nodes;
    LinkMessage(a, prev, c);
    if prev.Some? {
      AdoptedKeepsMessages(ns1, t2, done + [m], prev.value, c);
    }
    AddedIds(table, t1, t2, unique, done, m);
    IndexedIntro(a.nodes, t2, done + [m]);
  }

  /** The arena and table after the messages `ms`: indexed by them, with
      the links `Built(ms)`. */
  ghost predicate BuiltFrom(ns: seq<Container>, rank: seq<nat>, table: map<string, nat>, ms: seq<EmailMessage>) {
    // Named, so that the loop passes it on as one fact.
    var holds := Indexed(ns, table, ms) && Links(ns, rank, table) == Built(ms);
    holds
  }

  lemma BuiltFromIndexed(ns: seq<Container>, rank: seq<nat>, table: map<string, nat>, ms: seq<EmailMessage>)
    requires BuiltFrom(ns, rank, table, ms)
    ensures Indexed(ns, table, ms) && Links(ns, rank, table) == Built(ms)
  {
  }

  /** One more message keeps `BuiltFrom`. */
  lemma BuiltFromNext(ns0: seq<Container>, rank0: seq<nat>, t0: map<string, nat>,
                      ns: seq<Container>, rank: seq<nat>, t: map<string, nat>, ms: seq<EmailMessage>, i: nat)
    requires i < |ms| && BuiltFrom(ns0, rank0, t0, ms[..i])
    requires Indexed(ns, t, ms[..i] + [ms[i]]) && Links(ns, rank, t) == AddStep(Links(ns0, rank0, t0), ms[i])
    ensures BuiltFrom(ns, rank, t, ms[..i + 1])
  {
    BuiltNext(ms, i);
    PrefixSnoc(ms, i);
  }

  /** `build_containers_from_messages` (jwz_threading.py:132-171) on a fresh
      arena: one container per id that occurs as a message id or a
      reference, each holding the last message with that id or none, the
      child lists acyclic, and parents and children in agreement. */
  method BuildContainers(messages: seq<EmailMessage>) returns (a: Arena, table: map<string, nat>)
    ensures fresh(a) && a.Valid() && a.dead == {} && ParentsListed(a.nodes, a.dead)
    ensures Bijective(a.nodes, table)
    ensures forall k :: k in table <==> k in Ids(messages)
    ensures MessagesFrom(a.nodes, table, messages)
    ensures Links(a.nodes, a.rank, table) == Built(messages)
  {
    a := new Arena();
    table := map[];
    assert BuiltFrom(a.nodes, a.rank, table, messages[..0]);
    for i := 0 to |messages|
      invariant fresh(a) && a.Valid() && a.dead == {} && BuiltFrom(a.nodes, a.rank, table, messages[..i])
    {
      ghost var ns0, rank0, t0 := a.nodes, a.rank, table;
      BuiltFromIndexed(ns0, rank0, t0, messages[..i]);
      table := AddMessage(a, table, messages[i], messages[..i]);
      BuiltFromNext(ns0, rank0, t0, a.nodes, a.rank, table, messages, i);
    }
    assert messages[..|messages|] == messages;
    BuiltFromIndexed(a.nodes, a.rank, table, messages);
    IndexedFacts(a.nodes, table, messages);
  }

  /** The root set (jwz_threading.py:282): the parentless containers, in
      the order the id table received their ids, which is the order in which
      the containers were made. */
  function RootSet(ns: seq<Container>): (roots: seq<nat>)
    ensures forall x :: x in roots <==> 0 <= x < |ns| && ns[x].parent.None?
    ensures forall i, j :: 0 <= i < j < |roots| ==> roots[i] < roots[j]
  {
    RootsBelow(ns, |ns|)
  }

  function RootsBelow(ns: seq<Container>, n: nat): (roots: seq<nat>)
    requires n <= |ns|
    ensures forall x :: x in roots <==> 0 <= x < n && ns[x].parent.None?
    ensures forall i, j :: 0 <= i < j < |roots| ==> roots[i] < roots[j]
  {
    if n == 0 then []
    else
      var rest := RootsBelow(ns, n - 1);
      assert forall i :: 0 <= i < |rest| ==> rest[i] in rest;
      if ns[n - 1].parent.None? then rest + [n - 1] else rest
  }

  /** Every container is in the subtree of some root: following parents
      from any container ends at a parentless one, and each step goes to a
      container whose child list holds the previous one. */
  lemma {:induction false} RootSetCovers(ns: seq<Container>, rank: seq<nat>, y: nat)
    requires Ranked(ns, rank) && ParentsListed(ns, {}) && y < |ns|
    ensures exists x :: x in RootSet(ns) && Reaches(ns, rank, x, y)
    decreases MaxRank(rank) - rank[y]
  {
    if ns[y].parent.None? {
      assert y in RootSet(ns) && Reaches(ns, rank, y, y);
    } else {
      var p := ns[y].parent.value;
      var i := FirstIndex(ns[p].children, y);
      assert rank[y] < rank[p] <= MaxRank(rank);
      RootSetCovers(ns, rank, p);
      var x :| x in RootSet(ns) && Reaches(ns, rank, x, p);
      ReachesChild(ns, rank, x, p, i);
    }
  }

  /** No root is anyone's child. */
  lemma RootsAreNoChildren(ns: seq<Container>, dead: set<nat>, x: nat, y: nat)
    requires InRange(ns) && Consistent(ns, dead) && x in RootSet(ns)
    requires y < |ns| && y !in dead
    ensures x !in ns[y].children
  {
    assert LinkedAt(ns, dead, y);
    forall i | 0 <= i < |ns[y].children| ensures ns[y].children[i] != x {
      assert ns[ns[y].children[i]].parent == Some(y);
    }
  }
}
