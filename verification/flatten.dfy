/** `_flatten` (jwz_threading.py:261-275, repeated line for line at
    mbox_handler.py:34-47): the threaded forest turned into a list of
    messages in pre-order, each with the depth at which it is shown and the
    subject it is shown with.

    The source sets `display_subject` and `level` as attributes of the
    message objects it yields; here each yielded message becomes a `Line`
    carrying those two values.

    As written, every `Container` has a `message` attribute, so the branch
    meant for dummy containers (jwz_threading.py:272-275) is never taken
    and a dummy's missing message is dereferenced: `FlattenAsWritten` fails
    on any forest holding a dummy. `Flatten` is the evidently intended
    function, in which a dummy is transparent: its children are flattened
    at its own level under the inherited parent subject. */
module Flattening {
  import opened Wrappers
  import opened Mail
  import opened Text
  import opened Subjects
  import opened Containers
  import opened Pruning

  /** A message as `_flatten` yields it, with `level` and
      `display_subject` set. */
  datatype Line = Line(message: EmailMessage, level: nat, displaySubject: string)

  /** The error the dereference of a dummy's message raises. */
  const NoMessage := "'NoneType' object has no attribute 'subject'"

  /** A forest without dummy containers. */
  predicate AllReal(ts: seq<Tree>) {
    forall t :: t in ts ==> RealTree(t)
  }

  /** The line for message `m` at depth `level` under a parent with subject
      `parent` (`None` at the top). */
  function LineFor(m: EmailMessage, level: nat, parent: Option<string>): (l: Line)
    ensures l.message == m && l.level == level
    ensures l.displaySubject == m.subject || l.displaySubject == []
    ensures l.displaySubject == [] <==> m.subject == [] || RepeatsParent(m.subject, parent, level)
  {
    Line(m, level, DisplaySubject(m.subject, parent, level))
  }

  /** `_flatten` as written: a dummy container fails. */
  function FlattenAsWritten(ts: seq<Tree>, level: nat, parent: Option<string>): (r: Result<seq<Line>>)
    ensures r.Failure? ==> r.error == NoMessage
    decreases ts
  {
    if ts == [] then Success([])
    else if ts[0].message.None? then Failure(NoMessage)
    else
      var m := ts[0].message.value;
      var below := FlattenAsWritten(ts[0].kids, level + 1, Some(m.subject));
      var rest := FlattenAsWritten(ts[1..], level, parent);
      if below.Failure? then below
      else if rest.Failure? then rest
      else Success([LineFor(m, level, parent)] + below.value + rest.value)
  }

  /** `_flatten` as intended: the lines of the real containers in
      pre-order; a message's children one level deeper, under its subject; a
      dummy's children at the dummy's level, under the inherited subject.
      Every line is at `level` or deeper and shows its message's subject or
      nothing. */
  function Flatten(ts: seq<Tree>, level: nat, parent: Option<string>): (r: seq<Line>)
    ensures forall i :: 0 <= i < |r| ==> r[i].level >= level
    ensures forall i :: 0 <= i < |r| ==> r[i].displaySubject == r[i].message.subject || r[i].displaySubject == []
    decreases ts
  {
    if ts == [] then []
    else
      var t := ts[0];
      var first :=
        if t.message.Some? then
          [LineFor(t.message.value, level, parent)] + Flatten(t.kids, level + 1, Some(t.message.value.subject))
        else Flatten(t.kids, level, parent);
      first + Flatten(ts[1..], level, parent)
  }

  /** The messages of the real containers of a forest, in pre-order. */
  function RealMessages(ts: seq<Tree>): (ms: seq<EmailMessage>)
    decreases ts
  {
    if ts == [] then []
    else
      var t := ts[0];
      (if t.message.Some? then [t.message.value] else []) + RealMessages(t.kids) + RealMessages(ts[1..])
  }

  /** The messages of a list of lines. */
  function Messages(lines: seq<Line>): (ms: seq<EmailMessage>)
  {
    seq(|lines|, i requires 0 <= i < |lines| => lines[i].message)
  }

  lemma MessagesAppend(a: seq<Line>, b: seq<Line>)
    ensures Messages(a + b) == Messages(a) + Messages(b)
  {
  }

  /** One real container in front of a sibling list. */
  lemma FlattenMessagesReal(ts: seq<Tree>, level: nat, parent: Option<string>)
    requires ts != [] && ts[0].message.Some?
    requires Messages(Flatten(ts[0].kids, level + 1, Some(ts[0].message.value.subject))) == RealMessages(ts[0].kids)
    requires Messages(Flatten(ts[1..], level, parent)) == RealMessages(ts[1..])
    ensures Messages(Flatten(ts, level, parent)) == RealMessages(ts)
  {
    var m := ts[0].message.value;
    var line := LineFor(m, level, parent);
    var below := Flatten(ts[0].kids, level + 1, Some(m.subject));
    var rest := Flatten(ts[1..], level, parent);
    assert Flatten(ts, level, parent) == [line] + below + rest;
    assert Messages([line] + below + rest) == [m] + Messages(below) + Messages(rest) by {
      MessagesAppend([line] + below, rest);
      MessagesAppend([line], below);
      assert Messages([line]) == [m];
    }
    assert RealMessages(ts) == [m] + RealMessages(ts[0].kids) + RealMessages(ts[1..]);
  }

  /** One dummy container in front of a sibling list. */
  lemma FlattenMessagesDummy(ts: seq<Tree>, level: nat, parent: Option<string>)
    requires ts != [] && ts[0].message.None?
    requires Messages(Flatten(ts[0].kids, level, parent)) == RealMessages(ts[0].kids)
    requires Messages(Flatten(ts[1..], level, parent)) == RealMessages(ts[1..])
    ensures Messages(Flatten(ts, level, parent)) == RealMessages(ts)
  {
    var below := Flatten(ts[0].kids, level, parent);
    var rest := Flatten(ts[1..], level, parent);
    MessagesAppend(below, rest);
    calc {
      Messages(Flatten(ts, level, parent));
      Messages(below + rest);
      Messages(below) + Messages(rest);
      RealMessages(ts[0].kids) + RealMessages(ts[1..]);
      { assert ([] + RealMessages(ts[0].kids)) == RealMessages(ts[0].kids); }
      RealMessages(ts);
    }
  }

  /** The flattened forest holds exactly the messages of the real
      containers, in pre-order: each once, dummies contributing nothing. */
  lemma {:induction false} FlattenMessages(ts: seq<Tree>, level: nat, parent: Option<string>)
    ensures Messages(Flatten(ts, level, parent)) == RealMessages(ts)
    decreases ts
  {
    if ts != [] {
      var t := ts[0];
      FlattenMessages(ts[1..], level, parent);
      if t.message.Some? {
        FlattenMessages(t.kids, level + 1, Some(t.message.value.subject));
        FlattenMessagesReal(ts, level, parent);
      } else {
        FlattenMessages(t.kids, level, parent);
        FlattenMessagesDummy(ts, level, parent);
      }
    }
  }

  /** As written, flattening succeeds exactly on forests without dummies,
      and then yields what the intended function yields. */
  lemma {:induction false} FlattenAsWrittenAgrees(ts: seq<Tree>, level: nat, parent: Option<string>)
    ensures FlattenAsWritten(ts, level, parent).Success? <==> AllReal(ts)
    ensures AllReal(ts) ==> FlattenAsWritten(ts, level, parent) == Success(Flatten(ts, level, parent))
    decreases ts
  {
    if ts != [] {
      var t := ts[0];
      FlattenAsWrittenAgrees(ts[1..], level, parent);
      assert AllReal(ts) <==> RealTree(t) && AllReal(ts[1..]) by {
        assert forall u :: u in ts <==> u == t || u in ts[1..];
      }
      if t.message.Some? {
        FlattenAsWrittenAgrees(t.kids, level + 1, Some(t.message.value.subject));
        assert RealTree(t) <==> AllReal(t.kids);
      } else {
        assert !RealTree(t);
      }
    }
  }

  /** The discrepancy: a dummy grouping two replies, which pruning keeps at
      the top level, makes the flattening fail, although the intended
      flattening shows both messages. */
  lemma DummyRootFails(m1: EmailMessage, m2: EmailMessage)
    ensures var ts := [Node(0, None, [Node(1, Some(m1), []), Node(2, Some(m2), [])])]; PruneTrees(ts, true) == ts
    ensures FlattenAsWritten([Node(0, None, [Node(1, Some(m1), []), Node(2, Some(m2), [])])], 0, None) == Failure(NoMessage)
    ensures Messages(Flatten([Node(0, None, [Node(1, Some(m1), []), Node(2, Some(m2), [])])], 0, None)) == [m1, m2]
  {
    var ts := [Node(0, None, [Node(1, Some(m1), []), Node(2, Some(m2), [])])];
    FlattenMessages(ts, 0, None);
    assert PruneTrees(ts, true) == ts by {
      var kids := ts[0].kids;
      assert PruneTrees(kids, false) == kids by {
        assert PruneOne(kids[0], false) == [kids[0]] by {
          assert PruneTrees(kids[0].kids, false) == [];
        }
        assert PruneOne(kids[1], false) == [kids[1]] by {
          assert PruneTrees(kids[1].kids, false) == [];
        }
        assert PruneTrees(kids[1..], false) == [kids[1]] + PruneTrees(kids[2..], false);
      }
      assert PruneTrees(ts[1..], true) == [];
    }
    assert RealMessages(ts) == [m1, m2] by {
      var kids := ts[0].kids;
      assert RealMessages(kids[1..]) == [m2] + RealMessages(kids[2..]);
    }
  }

  /** Flattening distributes over the concatenation of sibling lists. */
  lemma {:induction false} FlattenAppend(ts: seq<Tree>, us: seq<Tree>, level: nat, parent: Option<string>)
    ensures Flatten(ts + us, level, parent) == Flatten(ts, level, parent) + Flatten(us, level, parent)
    decreases |ts|
  {
    if ts == [] {
      assert ts + us == us;
    } else {
      assert (ts + us)[0] == ts[0] && (ts + us)[1..] == ts[1..] + us;
      FlattenAppend(ts[1..], us, level, parent);
    }
  }

  /** A real container is yielded at its own level, with its display
      subject, before the lines of its children, which follow one level
      deeper under its subject (mbox_handler.py:35-43). */
  lemma FlattenReal(id: nat, m: EmailMessage, kids: seq<Tree>, rest: seq<Tree>, level: nat, parent: Option<string>)
    ensures Flatten([Node(id, Some(m), kids)] + rest, level, parent) ==
      [Line(m, level, DisplaySubject(m.subject, parent, level))] + Flatten(kids, level + 1, Some(m.subject)) + Flatten(rest, level, parent)
  {
    FlattenAppend([Node(id, Some(m), kids)], rest, level, parent);
    assert [Node(id, Some(m), kids)][1..] == [];
  }

  /** A dummy container yields nothing itself; its children are flattened
      at its level under the inherited parent subject (mbox_handler.py:
      44-47). */
  lemma FlattenDummy(id: nat, kids: seq<Tree>, rest: seq<Tree>, level: nat, parent: Option<string>)
    ensures Flatten([Node(id, None, kids)] + rest, level, parent) == Flatten(kids, level, parent) + Flatten(rest, level, parent)
  {
    FlattenAppend([Node(id, None, kids)], rest, level, parent);
    assert [Node(id, None, kids)][1..] == [];
  }

  /** A real container at the top shows its own subject, at level 0. */
  lemma TopLevelShowsSubject(id: nat, m: EmailMessage, kids: seq<Tree>, rest: seq<Tree>)
    ensures Flatten([Node(id, Some(m), kids)] + rest, 0, None)[0] == Line(m, 0, m.subject)
  {
    FlattenReal(id, m, kids, rest, 0, None);
  }

  /** One turn of the loop of `_flatten` over the sibling list `xs` of
      the arena: the lines of the first `i + 1` subtrees are those of the
      first `i`, followed by the message of `xs[i]`, if any, and the lines of
      its children. */
  lemma FlattenStep(ns: seq<Container>, rank: seq<nat>, xs: seq<nat>, i: nat, level: nat, parent: Option<string>)
    requires Ranked(ns, rank) && Within(xs, |ns|) && i < |xs|
    ensures Within(xs[..i], |ns|) && Within(xs[..i + 1], |ns|) && Within(ns[xs[i]].children, |ns|)
    ensures var c := xs[i];
      var kids := ToForest(ns, rank, ns[c].children);
      Flatten(ToForest(ns, rank, xs[..i + 1]), level, parent) ==
        Flatten(ToForest(ns, rank, xs[..i]), level, parent) +
        if ns[c].message.Some? then
          [LineFor(ns[c].message.value, level, parent)] + Flatten(kids, level + 1, Some(ns[c].message.value.subject))
        else Flatten(kids, level, parent)
  {
    var c := xs[i];
    var t := ToTree(ns, rank, c);
    assert ToForest(ns, rank, xs[..i + 1]) == ToForest(ns, rank, xs[..i]) + [t] by {
      ToForestAppend(ns, rank, xs[..i], [c]);
      assert xs[..i + 1] == xs[..i] + [c];
    }
    FlattenAppend(ToForest(ns, rank, xs[..i]), [t], level, parent);
    ToTreeKids(ns, rank, c);
    FlattenOne(t, level, parent);
  }

  /** The lines of a single tree: its message, if any, then its
      children's. */
  lemma FlattenOne(t: Tree, level: nat, parent: Option<string>)
    ensures Flatten([t], level, parent) ==
      if t.message.Some? then
        [LineFor(t.message.value, level, parent)] + Flatten(t.kids, level + 1, Some(t.message.value.subject))
      else Flatten(t.kids, level, parent)
  {
    assert [t] == [Node(t.id, t.message, t.kids)] + [];
    if t.message.Some? {
      FlattenReal(t.id, t.message.value, t.kids, [], level, parent);
    } else {
      FlattenDummy(t.id, t.kids, [], level, parent);
    }
  }

  /** The loop of `_flatten` over a sibling list of the arena, recursing
      into the children of each message; the result is the intended
      flattening of the subtrees of the list. */
  method FlattenList(a: Arena, xs: seq<nat>, level: nat, parent: Option<string>, ghost bound: nat) returns (lines: seq<Line>)
    requires a.Valid() && Within(xs, |a.nodes|)
    requires forall i :: 0 <= i < |xs| ==> a.rank[xs[i]] < bound
    decreases bound
    ensures lines == Flatten(ToForest(a.nodes, a.rank, xs), level, parent)
  {
    ghost var ns, rank := a.nodes, a.rank;
    lines := [];
    for i := 0 to |xs|
      invariant lines == Flatten(ToForest(ns, rank, xs[..i]), level, parent)
    {
      var c := xs[i];
      FlattenStep(ns, rank, xs, i, level, parent);
      var kids := a.nodes[c].children;
      assert forall j :: 0 <= j < |kids| ==> rank[kids[j]] < rank[c];
      var below: seq<Line> := [];
      if a.nodes[c].message.Some? {
        var m := a.nodes[c].message.value;
        if kids != [] {
          below := FlattenList(a, kids, level + 1, Some(m.subject), rank[c]);
        }
        lines := lines + ([LineFor(m, level, parent)] + below);
      } else {
        if kids != [] {
          below := FlattenList(a, kids, level, parent, rank[c]);
        }
        lines := lines + below;
      }
    }
    assert xs[..|xs|] == xs;
  }
}
