/** The message index of emailindex.py: one record per message id, each
    carrying the id of the thread's root as a single-hop lookup in the map
    of roots built during the current run (`_add_message_to_db`,
    emailindex.py:139-180), the walk of the history that feeds it
    (`index_git_repo`, 117-137), and the selection of a thread's records
    (`find_thread`, 182-193).

    The SQLite table is a map from message id to record; the repository is
    a sequence of commits, each a sequence of tree entries; a blob carries
    its raw bytes and the message that `EmailMessage.from_oid` decodes from
    them. */
module Indexer {
  import opened Wrappers
  import opened Mail
  import opened Containers
  import opened Sorting

  newtype Byte = x: int | 0 <= x < 256

  /** The bytes of an ASCII string. */
  function Ascii(s: string): (b: seq<Byte>)
    requires forall i :: 0 <= i < |s| ==> s[i] as int < 128
    ensures |b| == |s| && forall i :: 0 <= i < |s| ==> b[i] as int == s[i] as int
  {
    seq(|s|, i requires 0 <= i < |s| => s[i] as int as Byte)
  }

  /** `pat` occurs in `raw` at position `i`. */
  predicate BytesAt(raw: seq<Byte>, pat: seq<Byte>, i: int) {
    0 <= i <= |raw| - |pat| && raw[i..i + |pat|] == pat
  }

  /** `pat in raw` on bytes. */
  predicate OccursIn(raw: seq<Byte>, pat: seq<Byte>) {
    exists i :: 0 <= i <= |raw| && BytesAt(raw, pat, i)
  }

  const MessageIdMarker: seq<Byte> := Ascii("Message-ID:")
  const FromMarker: seq<Byte> := Ascii("From:")

  /** A blob of a commit's tree: its object id, its bytes, and the message
      decoded from them. */
  datatype Blob = Blob(oid: string, raw: seq<Byte>, message: EmailMessage)

  /** An entry of a commit's tree; only blobs are indexed. */
  datatype Entry = BlobEntry(blob: Blob) | OtherEntry

  /** A row of the `messages` table (emailindex.py:101-109). */
  datatype Record = Record(
    messageId: string,
    subject: string,
    fromAddr: string,
    fromName: string,
    dateSent: int,
    gitOid: string,
    rootMessageId: string)

  type Store = map<string, Record>

  /** `msg_root_mapping`: message id to root message id. */
  type RootMap = map<string, string>

  datatype IndexState = IndexState(mapping: RootMap, store: Store)

  /** The test of emailindex.py:141: the raw bytes contain `Message-ID:` or
      `From:`. */
  predicate IsMail(raw: seq<Byte>) {
    OccursIn(raw, MessageIdMarker) || OccursIn(raw, FromMarker)
  }

  /** A blob `_add_message_to_db` stores: mail with a non-empty id. */
  predicate Indexable(b: Blob) {
    IsMail(b.raw) && b.message.messageId != []
  }

  /** The root of a message (emailindex.py:149-160): its own id when it has
      no references; otherwise the root recorded for its first reference in
      this run, or else that first reference itself. Only the map of the
      current run is consulted, and only once. */
  function RootOf(mapping: RootMap, m: EmailMessage): (root: string)
    ensures root == m.messageId || (m.references != [] && (root == m.references[0] || root in mapping.Values))
    ensures m.references != [] && m.references[0] !in mapping ==> root == m.references[0]
  {
    if m.references == [] then m.messageId
    else
      var firstRef := m.references[0];
      if firstRef in mapping then mapping[firstRef] else firstRef
  }

  /** The root depends on the map only at the first reference, and on the
      message only through its id and that reference: the later references
      are never consulted. */
  lemma RootOfLocal(mp: RootMap, mp': RootMap, m: EmailMessage, m': EmailMessage)
    requires m.references == [] <==> m'.references == []
    requires m.references == [] ==> m.messageId == m'.messageId
    requires m.references != [] ==> m.references[0] == m'.references[0]
    requires m.references != [] ==> (m.references[0] in mp <==> m.references[0] in mp')
    requires m.references != [] && m.references[0] in mp ==> mp[m.references[0]] == mp'[m.references[0]]
    ensures RootOf(mp, m) == RootOf(mp', m')
  {
  }

  /** One hop only: when the first reference is recorded with root `x` and
      `x` is itself recorded with another root `y`, the message still gets
      `x`, not `y`. */
  lemma RootOfOneHop(mp: RootMap, m: EmailMessage, x: string, y: string)
    requires m.references != [] && m.references[0] in mp && mp[m.references[0]] == x
    requires x in mp && mp[x] == y && y != x
    ensures RootOf(mp, m) == x && RootOf(mp, m) != y
  {
  }

  /** The row written for message `m` of blob `oid` with root `root`. */
  function RecordOf(m: EmailMessage, oid: string, root: string): (r: Record)
    ensures r.messageId == m.messageId && r.rootMessageId == root && r.gitOid == oid
  {
    Record(m.messageId, m.subject, m.fromAddr, m.fromName, m.date, oid, root)
  }

  /** `_add_message_to_db` on values: the map of roots and the table after
      one blob. */
  function Step(s: IndexState, b: Blob): (s': IndexState)
  {
    if !Indexable(b) then s
    else
      var m := b.message;
      var root := RootOf(s.mapping, m);
      IndexState(s.mapping[m.messageId := root], s.store[m.messageId := RecordOf(m, b.oid, root)])
  }

  /** The blobs `_add_message_to_db` is called on, in order. */
  function Run(s: IndexState, blobs: seq<Blob>): (s': IndexState)
    decreases |blobs|
  {
    if blobs == [] then s
    else Step(Run(s, blobs[..|blobs| - 1]), blobs[|blobs| - 1])
  }

  /** The blobs of one tree, in entry order. */
  function TreeBlobs(tree: seq<Entry>): (bs: seq<Blob>)
    ensures |bs| <= |tree|
  {
    if tree == [] then []
    else
      var n := |tree| - 1;
      TreeBlobs(tree[..n]) + (if tree[n].BlobEntry? then [tree[n].blob] else [])
  }

  /** The blobs of every commit, oldest commit first. */
  function HistoryBlobs(commits: seq<seq<Entry>>): (bs: seq<Blob>)
  {
    if commits == [] then []
    else
      var n := |commits| - 1;
      HistoryBlobs(commits[..n]) + TreeBlobs(commits[n])
  }

  /** A blob without the mail markers, or whose message has an empty id,
      changes neither the map of roots nor the table (emailindex.py:
      141-146). */
  lemma SkippedBlob(s: IndexState, b: Blob)
    requires !IsMail(b.raw) || b.message.messageId == []
    ensures Step(s, b) == s
  {
  }

  /** A stored message: its row holds its fields, the blob's id and the root
      that the map now records for it (emailindex.py:163, 165-180). */
  lemma StoredBlob(s: IndexState, b: Blob)
    requires Indexable(b)
    ensures var id := b.message.messageId; var s' := Step(s, b);
      && id in s'.mapping && id in s'.store
      && s'.store[id].rootMessageId == s'.mapping[id] == RootOf(s.mapping, b.message)
      && s'.store[id] == RecordOf(b.message, b.oid, s'.mapping[id])
  {
  }

  /** The write is an upsert keyed by the message id: it replaces the row
      with that id, if any, and leaves every other row and every other
      entry of the map as it was. */
  lemma StepFrame(s: IndexState, b: Blob, k: string)
    requires k != b.message.messageId
    ensures k in Step(s, b).store <==> k in s.store
    ensures k in s.store ==> Step(s, b).store[k] == s.store[k]
    ensures k in Step(s, b).mapping <==> k in s.mapping
    ensures k in s.mapping ==> Step(s, b).mapping[k] == s.mapping[k]
    ensures Step(s, b).store.Keys <= s.store.Keys + {b.message.messageId}
  {
  }

  /** Processing the same blob twice in a row is processing it once, even
      when the message names itself as its first reference. */
  lemma StepIdempotent(s: IndexState, b: Blob)
    ensures Step(Step(s, b), b) == Step(s, b)
  {
    if Indexable(b) {
      var m := b.message;
      var s1 := Step(s, b);
      assert RootOf(s1.mapping, m) == RootOf(s.mapping, m);
    }
  }

  /** Every id of the map of roots has a row whose root is the one the map
      records. */
  ghost predicate Agrees(s: IndexState) {
    forall k :: k in s.mapping ==> k in s.store && s.store[k].rootMessageId == s.mapping[k]
  }

  /** The agreement holds throughout a run that starts with it, in
      particular one that starts from an empty map as `index_git_repo`
      does. */
  lemma {:induction false} RunAgrees(s: IndexState, blobs: seq<Blob>)
    requires Agrees(s)
    ensures Agrees(Run(s, blobs))
    decreases |blobs|
  {
    if blobs != [] {
      RunAgrees(s, blobs[..|blobs| - 1]);
    }
  }

  /** The blobs of `a` then `b`. */
  lemma {:induction false} RunAppend(s: IndexState, a: seq<Blob>, b: seq<Blob>)
    ensures Run(s, a + b) == Run(Run(s, a), b)
    decreases |b|
  {
    if b == [] {
      assert a + b == a;
    } else {
      var n := |b| - 1;
      assert (a + b)[..|a + b| - 1] == a + b[..n];
      RunAppend(s, a, b[..n]);
    }
  }

  /** The roots of a run do not depend on the table it writes to: the table
      is never consulted. The table afterwards is the old one overwritten
      by the rows the run writes. */
  lemma {:induction false} RunOverwrites(m: RootMap, store: Store, blobs: seq<Blob>)
    ensures Run(IndexState(m, store), blobs).mapping == Run(IndexState(m, map[]), blobs).mapping
    ensures Run(IndexState(m, store), blobs).store == store + Run(IndexState(m, map[]), blobs).store
    decreases |blobs|
  {
    if blobs != [] {
      var n := |blobs| - 1;
      RunOverwrites(m, store, blobs[..n]);
    }
  }

  /** Walking the whole history again, as every call of `index_git_repo`
      does (emailindex.py:121-122), leaves the table as the first walk
      left it. */
  lemma Reindex(store: Store, blobs: seq<Blob>)
    ensures var once := Run(IndexState(map[], store), blobs).store;
      Run(IndexState(map[], once), blobs).store == once
  {
    var u := Run(IndexState(map[], map[]), blobs).store;
    RunOverwrites(map[], store, blobs);
    var once := store + u;
    RunOverwrites(map[], once, blobs);
    assert once + u == once;
  }

  /** Three blobs in a row. */
  lemma RunThree(s: IndexState, b1: Blob, b2: Blob, b3: Blob)
    ensures Run(s, [b1, b2, b3]) == Step(Step(Step(s, b1), b2), b3)
  {
    assert [b1, b2, b3][..2] == [b1, b2] && [b1, b2][..1] == [b1] && [b1][..0] == [];
    assert Run(s, [b1]) == Step(s, b1);
    assert Run(s, [b1, b2]) == Step(Step(s, b1), b2);
  }

  /** `b1` starts a thread, `b2` answers it and `b3` answers `b2`; the
      three ids are distinct and each blob is stored. */
  predicate ReplyChain(b1: Blob, b2: Blob, b3: Blob) {
    var id1, id2, id3 := b1.message.messageId, b2.message.messageId, b3.message.messageId;
    && Indexable(b1) && Indexable(b2) && Indexable(b3)
    && id1 != id2 && id2 != id3 && id1 != id3
    && b1.message.references == []
    && b2.message.references != [] && b2.message.references[0] == id1
    && b3.message.references != [] && b3.message.references[0] == id2
  }

  /** A thread whose messages arrive in order gets one root: the starter,
      the reply and the reply to the reply all record the starter's id. */
  lemma InOrderThread(b1: Blob, b2: Blob, b3: Blob)
    requires ReplyChain(b1, b2, b3)
    ensures var s := Run(IndexState(map[], map[]), [b1, b2, b3]).store;
      && b1.message.messageId in s && b2.message.messageId in s && b3.message.messageId in s
      && s[b1.message.messageId].rootMessageId == b1.message.messageId
      && s[b2.message.messageId].rootMessageId == b1.message.messageId
      && s[b3.message.messageId].rootMessageId == b1.message.messageId
  {
    RunThree(IndexState(map[], map[]), b1, b2, b3);
  }

  /** The lookup is a single hop: a reply to a reply that arrives before the
      message it answers records that message, not the thread's starter, as
      its root, and so ends up in a thread of its own. */
  lemma OutOfOrderThread(b1: Blob, b2: Blob, b3: Blob)
    requires ReplyChain(b1, b2, b3)
    ensures var s := Run(IndexState(map[], map[]), [b1, b3, b2]).store;
      && b2.message.messageId in s && b3.message.messageId in s
      && s[b2.message.messageId].rootMessageId == b1.message.messageId
      && s[b3.message.messageId].rootMessageId == b2.message.messageId
  {
    RunThree(IndexState(map[], map[]), b1, b3, b2);
  }

  lemma {:induction false} HistoryBlobsAppend(commits: seq<seq<Entry>>, c: nat)
    requires c < |commits|
    ensures HistoryBlobs(commits[..c + 1]) == HistoryBlobs(commits[..c]) + TreeBlobs(commits[c])
  {
    assert commits[..c + 1][..c] == commits[..c];
  }

  lemma TreeBlobsAppend(tree: seq<Entry>, e: nat)
    requires e < |tree|
    ensures TreeBlobs(tree[..e + 1]) == TreeBlobs(tree[..e]) + (if tree[e].BlobEntry? then [tree[e].blob] else [])
  {
    assert tree[..e + 1][..e] == tree[..e];
  }

  /** The records whose root is the stored root of `target`. */
  ghost function ThreadKeys(store: Store, target: string): (ks: set<string>)
    ensures target in store ==> target in ks
    ensures forall k :: k in ks ==> k in store
  {
    if target !in store then {}
    else set k | k in store && store[k].rootMessageId == store[target].rootMessageId
  }

  /** The ids of a finite set, in some order, each once. */
  ghost function Listed(ks: set<string>): (s: seq<string>)
    ensures |s| == |ks| && NoDup(s) && forall k :: k in s <==> k in ks
    decreases ks
  {
    if ks == {} then []
    else
      var k :| k in ks;
      var rest := Listed(ks - {k});
      assert forall i :: 0 <= i < |rest| ==> rest[i] in rest;
      [k] + rest
  }

  function DateSent(r: Record): int {
    r.dateSent
  }

  /** The rows of the table with the ids `ks`, in that order. */
  function Rows(store: Store, ks: seq<string>): (rows: seq<Record>)
    requires forall k :: k in ks ==> k in store
    ensures |rows| == |ks|
    ensures forall r :: r in rows <==> exists k :: k in ks && store[k] == r
  {
    if ks == [] then [] else [store[ks[0]]] + Rows(store, ks[1..])
  }

  /** `find_thread`'s query (emailindex.py:183-193): the rows whose root is
      the root stored for `target`, by non-decreasing date; none when
      `target` is not in the table. The order of rows with equal dates is
      not fixed by the query; here it is one of the possible orders. */
  ghost function FindThread(store: Store, target: string): (rows: seq<Record>)
    ensures target !in store ==> rows == []
    ensures |rows| == |ThreadKeys(store, target)|
    ensures forall r :: r in rows <==> exists k :: k in ThreadKeys(store, target) && store[k] == r
    ensures SortedBy(rows, DateSent)
  {
    var ks := Listed(ThreadKeys(store, target));
    var selected := Rows(store, ks);
    SortByMembers(selected, DateSent);
    SortBySorted(selected, DateSent);
    SortBy(selected, DateSent)
  }

  /** The SQLite database of an `EmailIndex`: the `messages` table. */
  class EmailIndex {
    var store: Store

    /** A fresh index with an empty table. */
    constructor ()
      ensures store == map[]
    {
      store := map[];
    }

    /** `_add_message_to_db` (emailindex.py:139-180): the map of roots of
        the current run is updated and returned, the table is written. */
    method AddMessageToDb(b: Blob, mapping: RootMap) returns (mapping': RootMap)
      modifies this
      ensures IndexState(mapping', store) == Step(IndexState(mapping, old(store)), b)
    {
      mapping' := mapping;
      if !(OccursIn(b.raw, MessageIdMarker) || OccursIn(b.raw, FromMarker)) {
        return;
      }
      var msg := b.message;
      if msg.messageId == [] {
        return;
      }
      var root: string;
      if msg.references == [] {
        root := msg.messageId;
      } else {
        var firstRef := msg.references[0];
        if firstRef in mapping' {
          root := mapping'[firstRef];
        } else {
          root := firstRef;
        }
      }
      mapping' := mapping'[msg.messageId := root];
      store := store[msg.messageId := Record(msg.messageId, msg.subject, msg.fromAddr, msg.fromName, msg.date, b.oid, root)];
    }

    /** `index_git_repo` (emailindex.py:117-137): every blob of every
        commit, oldest commit first, with a map of roots that starts empty
        on every call. */
    method IndexGitRepo(commits: seq<seq<Entry>>)
      modifies this
      ensures store == Run(IndexState(map[], old(store)), HistoryBlobs(commits)).store
    {
      var mapping: RootMap := map[];
      ghost var s0 := IndexState(map[], store);
      for c := 0 to |commits|
        invariant IndexState(mapping, store) == Run(s0, HistoryBlobs(commits[..c]))
      {
        var tree := commits[c];
        ghost var before := HistoryBlobs(commits[..c]);
        assert before + TreeBlobs(tree[..0]) == before;
        for e := 0 to |tree|
          invariant IndexState(mapping, store) == Run(s0, before + TreeBlobs(tree[..e]))
        {
          TreeBlobsAppend(tree, e);
          if tree[e].BlobEntry? {
            mapping := AddMessageToDb(tree[e].blob, mapping);
            assert before + TreeBlobs(tree[..e + 1]) == (before + TreeBlobs(tree[..e])) + [tree[e].blob];
          } else {
            assert TreeBlobs(tree[..e + 1]) == TreeBlobs(tree[..e]);
          }
        }
        assert tree[..|tree|] == tree;
        HistoryBlobsAppend(commits, c);
      }
      assert commits[..|commits|] == commits;
    }
  }
}
