/** Grouping of the root set by subject (jwz_threading.py:99-121 and
    174-245): root containers whose normalised subjects agree are put under
    one another, or side by side under a new dummy container. */
module Grouping {
  import opened Wrappers
  import opened Mail
  import opened Text
  import opened Subjects
  import opened Containers
  import opened Pruning

  /** The grouping key of a container: the normalised subject of
      `get_subject`. */
  function Key(ns: seq<Container>, ghost rank: seq<nat>, x: nat): string
    requires Ranked(ns, rank) && x < |ns|
  {
    NormalizeSubject(GetSubject(ns, rank, x))
  }

  /** `get_subject().lower().startswith('re:')`. */
  predicate IsReply(ns: seq<Container>, ghost rank: seq<nat>, x: nat)
    requires Ranked(ns, rank) && x < |ns|
  {
    IsReplySubject(GetSubject(ns, rank, x))
  }

  /** The preference of jwz_threading.py:110-117: `r` takes the table slot
      of `e` when `e` is a dummy and `r` is not, or else when `e`'s subject
      is a reply and `r`'s is not. */
  predicate Preferred(ns: seq<Container>, ghost rank: seq<nat>, e: nat, r: nat)
    requires Ranked(ns, rank) && e < |ns| && r < |ns|
  {
    (IsDummy(ns[e]) && !IsDummy(ns[r])) || (IsReply(ns, rank, e) && !IsReply(ns, rank, r))
  }

  /** The grouping keys of the entries of `roots`. */
  function RootKeys(ns: seq<Container>, ghost rank: seq<nat>, roots: seq<nat>): (keys: seq<string>)
    requires Ranked(ns, rank) && Within(roots, |ns|)
    ensures |keys| == |roots|
  {
    seq(|roots|, j requires 0 <= j < |roots| => Key(ns, rank, roots[j]))
  }

  /** One turn of the loop of `build_subject_table`: container `c`, whose
      key is `k`, meets table `t`. */
  function TableStep(ns: seq<Container>, ghost rank: seq<nat>, t: map<string, nat>, k: string, c: nat): (t': map<string, nat>)
    requires Ranked(ns, rank) && c < |ns| && forall k :: k in t ==> t[k] < |ns|
    ensures forall k :: k in t' ==> t'[k] < |ns|
  {
    if k == [] then t
    else if k !in t then t[k := c]
    else if Preferred(ns, rank, t[k], c) then t[k := c]
    else t
  }

  /** The subject table after the containers of `roots`, whose keys are
      `keys`. */
  function SubjectTable(ns: seq<Container>, ghost rank: seq<nat>, roots: seq<nat>, keys: seq<string>): (t: map<string, nat>)
    requires Ranked(ns, rank) && Within(roots, |ns|) && |keys| == |roots|
    ensures forall k :: k in t ==> t[k] < |ns|
  {
    if roots == [] then map[]
    else
      var n := |roots| - 1;
      TableStep(ns, rank, SubjectTable(ns, rank, roots[..n], keys[..n]), keys[n], roots[n])
  }

  lemma SubjectTablePrefix(ns: seq<Container>, rank: seq<nat>, roots: seq<nat>, keys: seq<string>, i: nat)
    requires Ranked(ns, rank) && Within(roots, |ns|) && |keys| == |roots| && i < |roots|
    ensures Within(roots[..i], |ns|) && Within(roots[..i + 1], |ns|)
    ensures SubjectTable(ns, rank, roots[..i + 1], keys[..i + 1]) ==
      TableStep(ns, rank, SubjectTable(ns, rank, roots[..i], keys[..i]), keys[i], roots[i])
  {
    assert roots[..i + 1][..i] == roots[..i] && keys[..i + 1][..i] == keys[..i];
  }

  /** The table has a slot for exactly the non-empty keys of the root set,
      and each slot holds a container of the root set with that key. */
  lemma {:induction false} SubjectTableSlots(ns: seq<Container>, rank: seq<nat>, roots: seq<nat>, keys: seq<string>)
    requires Ranked(ns, rank) && Within(roots, |ns|) && |keys| == |roots|
    ensures forall k :: k in SubjectTable(ns, rank, roots, keys) <==> k != [] && k in keys
    ensures forall k :: k in SubjectTable(ns, rank, roots, keys) ==>
      exists i :: 0 <= i < |roots| && roots[i] == SubjectTable(ns, rank, roots, keys)[k] && keys[i] == k
  {
    if roots != [] {
      var n := |roots| - 1;
      SubjectTableSlots(ns, rank, roots[..n], keys[..n]);
      assert keys == keys[..n] + [keys[n]];
      var t0, t := SubjectTable(ns, rank, roots[..n], keys[..n]), SubjectTable(ns, rank, roots, keys);
      forall k | k in t ensures exists i :: 0 <= i < |roots| && roots[i] == t[k] && keys[i] == k {
        if t[k] == roots[n] && keys[n] == k {
        } else {
          var i :| 0 <= i < n && roots[..n][i] == t0[k] && keys[..n][i] == k;
          assert roots[i] == t[k] && keys[i] == k;
        }
      }
    }
  }

  /** A slot that a step does not fill with `c` under its own key was
      there before and is unchanged; if `c` has that key and it is not
      empty, `c` did not beat the holder. */
  lemma TableStepKept(ns: seq<Container>, rank: seq<nat>, t0: map<string, nat>, key: string, c: nat, k: string)
    requires Ranked(ns, rank) && c < |ns| && forall k :: k in t0 ==> t0[k] < |ns|
    requires k in TableStep(ns, rank, t0, key, c) && !(TableStep(ns, rank, t0, key, c)[k] == c && key == k)
    ensures k in t0 && TableStep(ns, rank, t0, key, c)[k] == t0[k]
    ensures key == k && k != [] ==> !Preferred(ns, rank, t0[k], c)
  {
  }

  /** The container in a slot is not beaten by any container after it with
      the same key: once there, only a preferred container displaces it. */
  lemma {:induction false} SubjectTableFinal(ns: seq<Container>, rank: seq<nat>, roots: seq<nat>, keys: seq<string>, k: string)
    requires Ranked(ns, rank) && Within(roots, |ns|) && |keys| == |roots|
    requires k in SubjectTable(ns, rank, roots, keys)
    ensures exists i ::
              && 0 <= i < |roots| && roots[i] == SubjectTable(ns, rank, roots, keys)[k] && keys[i] == k
              && forall j :: i < j < |roots| && keys[j] == k ==> !Preferred(ns, rank, roots[i], roots[j])
  {
    var n := |roots| - 1;
    var t := SubjectTable(ns, rank, roots, keys);
    if t[k] == roots[n] && keys[n] == k {
    } else {
      var t0 := SubjectTable(ns, rank, roots[..n], keys[..n]);
      assert t == TableStep(ns, rank, t0, keys[n], roots[n]);
      assert k in t0 && t[k] == t0[k] && (keys[n] == k ==> !Preferred(ns, rank, t0[k], roots[n])) by {
        SubjectTableSlots(ns, rank, roots[..n], keys[..n]);
        TableStepKept(ns, rank, t0, keys[n], roots[n], k);
      }
      SubjectTableFinal(ns, rank, roots[..n], keys[..n], k);
      var i :| && 0 <= i < n && roots[..n][i] == t0[k] && keys[..n][i] == k
               && forall j :: i < j < n && keys[..n][j] == k ==> !Preferred(ns, rank, roots[..n][i], roots[..n][j]);
      forall j | i < j < |roots| && keys[j] == k
        ensures !Preferred(ns, rank, roots[i], roots[j])
      {
        if j < n {
          assert roots[..n][j] == roots[j] && keys[..n][j] == keys[j];
        } else {
          assert roots[i] == roots[..n][i] == t0[k];
          assert !Preferred(ns, rank, t0[k], roots[n]);
        }
      }
    }
  }

  /** `build_subject_table` (jwz_threading.py:99-121). */
  method BuildSubjectTable(a: Arena, roots: seq<nat>) returns (table: map<string, nat>)
    requires a.Valid() && Within(roots, |a.nodes|)
    ensures table == SubjectTable(a.nodes, a.rank, roots, RootKeys(a.nodes, a.rank, roots))
  {
    var ns := a.nodes;
    ghost var rank := a.rank;
    ghost var keys := RootKeys(ns, rank, roots);
    table := map[];
    for i := 0 to |roots|
      invariant table == SubjectTable(ns, rank, roots[..i], keys[..i])
    {
      var c := roots[i];
      SubjectTablePrefix(ns, rank, roots, keys, i);
      var subject := NormalizeSubject(GetSubject(ns, rank, c));
      if subject != [] {
        if subject !in table {
          table := table[subject := c];
        } else {
          var existing := table[subject];
          if Preferred(ns, rank, existing, c) {
            table := table[subject := c];
          }
        }
      }
    }
    assert roots[..|roots|] == roots && keys[..|roots|] == keys;
  }
}
