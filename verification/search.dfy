/** `_search` (search.py:8-59): the thread listing. The SQL query keeps the
    messages that are neither replies nor re-rolls of a patch series and
    that match the search text, takes the earliest such message of every
    thread, counts every message of the thread, and lists the newest 100
    threads; the loop after it turns each row into a result.

    The table is the sequence of its rows in scan order. SQLite's `LIKE`
    is modelled in full (`%`, `_`, ASCII case folding, no escape
    character), and lemmas say what each pattern of the query means. */
module Search {
  import opened Wrappers
  import opened Text
  import opened Containers
  import opened Sorting
  import opened Indexer

  /** SQLite's `s LIKE p` without an ESCAPE clause: `%` matches any run of
      characters, `_` any one character, and letters match regardless of
      ASCII case. */
  predicate Like(s: string, p: string)
    decreases |s| + |p|
  {
    if p == [] then s == []
    else if p[0] == '%' then Like(s, p[1..]) || (s != [] && Like(s[1..], p))
    else s != [] && (p[0] == '_' || AsciiLower(s[0]) == AsciiLower(p[0])) && Like(s[1..], p[1..])
  }

  /** A pattern without wildcards matches literally. */
  predicate WildcardFree(q: string) {
    '%' !in q && '_' !in q
  }

  /** `q` occurs in `s` at `i`, ignoring ASCII case. */
  predicate FoldedAt(s: string, q: string, i: int) {
    0 <= i && i + |q| <= |s| && forall k :: 0 <= k < |q| ==> AsciiLower(s[i + k]) == AsciiLower(q[k])
  }

  /** `q` occurs somewhere in `s`, ignoring ASCII case. */
  predicate FoldedIn(s: string, q: string) {
    exists i :: 0 <= i <= |s| && FoldedAt(s, q, i)
  }

  /** `%` matches everything. */
  lemma {:induction false} LikeAnything(s: string)
    ensures Like(s, "%")
    decreases |s|
  {
    if s != [] {
      LikeAnything(s[1..]);
    }
  }

  /** `pre%` matches exactly the strings that start with `pre`, ignoring
      case. */
  lemma {:induction false} LikePrefix(s: string, pre: string)
    requires WildcardFree(pre)
    ensures Like(s, pre + "%") <==> FoldedAt(s, pre, 0)
    decreases |pre|
  {
    if pre == [] {
      assert pre + "%" == "%";
      LikeAnything(s);
    } else {
      var p := pre + "%";
      assert p[0] == pre[0] && p[1..] == pre[1..] + "%";
      assert pre[0] != '%' && pre[0] != '_';
      if s != [] {
        LikePrefix(s[1..], pre[1..]);
        if FoldedAt(s, pre, 0) {
          assert forall k :: 0 <= k < |pre| - 1 ==> s[1..][k] == s[k + 1] && pre[1..][k] == pre[k + 1];
        }
        if AsciiLower(s[0]) == AsciiLower(pre[0]) && FoldedAt(s[1..], pre[1..], 0) {
          forall k | 0 <= k < |pre| ensures AsciiLower(s[k]) == AsciiLower(pre[k]) {
            if k > 0 {
              assert s[1..][k - 1] == s[k] && pre[1..][k - 1] == pre[k];
            }
          }
        }
      }
    }
  }

  /** `%r` matches `s` exactly when `r` matches some suffix of `s`. */
  lemma {:induction false} LikeLeading(s: string, r: string)
    ensures Like(s, "%" + r) <==> exists i :: 0 <= i <= |s| && Like(s[i..], r)
    decreases |s|
  {
    var p := "%" + r;
    assert p[0] == '%' && p[1..] == r;
    assert s[0..] == s;
    if s != [] {
      LikeLeading(s[1..], r);
      if exists i :: 0 <= i <= |s| && Like(s[i..], r) {
        var i :| 0 <= i <= |s| && Like(s[i..], r);
        if i > 0 {
          assert s[1..][i - 1..] == s[i..];
        }
      }
      if exists i :: 0 <= i <= |s[1..]| && Like(s[1..][i..], r) {
        var i :| 0 <= i <= |s[1..]| && Like(s[1..][i..], r);
        assert s[1..][i..] == s[i + 1..];
      }
    }
  }

  /** `%q%` matches exactly the strings that contain `q`, ignoring case:
      the meaning of every `LIKE '%…%'` of the query. */
  lemma LikeContains(s: string, q: string)
    requires WildcardFree(q)
    ensures Like(s, "%" + q + "%") <==> FoldedIn(s, q)
  {
    assert "%" + q + "%" == "%" + (q + "%");
    LikeLeading(s, q + "%");
    forall i | 0 <= i <= |s| ensures Like(s[i..], q + "%") <==> FoldedAt(s, q, i) {
      LikePrefix(s[i..], q);
      if FoldedAt(s[i..], q, 0) {
        assert forall k :: 0 <= k < |q| ==> s[i..][k] == s[i + k];
      }
    }
  }

  /** Both spellings of the reply prefix, case aside, are `re:`. */
  lemma ReplyPrefix(s: string, q: string)
    requires |s| >= 3 && (q == "Re:" || q == "RE:")
    ensures FoldedAt(s, q, 0) <==> AsciiLower(s[0]) == 'r' && AsciiLower(s[1]) == 'e' && AsciiLower(s[2]) == ':'
  {
    assert |q| == 3 && AsciiLower(q[0]) == 'r' && AsciiLower(q[1]) == 'e' && AsciiLower(q[2]) == ':';
    if AsciiLower(s[0]) == 'r' && AsciiLower(s[1]) == 'e' && AsciiLower(s[2]) == ':' {
      forall k | 0 <= k < 3 ensures AsciiLower(s[k]) == AsciiLower(q[k]) {
      }
    }
  }

  /** `NOT LIKE 'Re:%'` and `NOT LIKE 'RE:%'` both exclude exactly the
      subjects that start with `re:` in any case. */
  lemma ReplyPatterns(s: string)
    ensures Like(s, "Re:%") <==> IsReplySubject(s)
    ensures Like(s, "RE:%") <==> IsReplySubject(s)
  {
    assert "Re:%" == "Re:" + "%" && "RE:%" == "RE:" + "%";
    assert WildcardFree("Re:") && WildcardFree("RE:");
    LikePrefix(s, "Re:");
    LikePrefix(s, "RE:");
    if |s| >= 3 {
      assert AsciiLower(s[2]) == ':' <==> s[2] == ':';
      assert AsciiLower('R') == 'r' && AsciiLower('E') == 'e' && AsciiLower('e') == 'e' && AsciiLower(':') == ':';
      ReplyPrefix(s, "Re:");
      ReplyPrefix(s, "RE:");
    }
  }

  /** The marker of the n-th version of a patch series, ` vN `. */
  function VersionTag(n: int): (tag: string)
    requires 2 <= n <= 9
    ensures |tag| == 4 && WildcardFree(tag)
  {
    " v" + [('0' as int + n) as char] + " "
  }

  /** The pattern `% vN %` of search.py:25-28. */
  function VersionPattern(n: int): (p: string)
    requires 2 <= n <= 9
    ensures p == "%" + VersionTag(n) + "%"
  {
    "% v" + [('0' as int + n) as char] + " %"
  }

  /** The search text between wildcards, `%q%` (search.py:17). */
  function Around(query: string): (p: string)
    ensures |p| == |query| + 2 && p[0] == '%' && p[|p| - 1] == '%'
  {
    "%" + query + "%"
  }

  /** The WHERE clause of `filtered_messages` (search.py:24-29); an empty
      search text adds no condition. */
  predicate Eligible(r: Record, query: string) {
    && !Like(r.subject, "Re:%") && !Like(r.subject, "RE:%")
    && (forall n :: 2 <= n <= 9 ==> !Like(r.subject, VersionPattern(n)))
    && (query == [] || Like(r.subject, Around(query)) || Like(r.fromName, Around(query)) || Like(r.fromAddr, Around(query)))
  }

  /** What the filter is for: no reply, no second or later version of a
      series, and the search text in the subject or the sender, case
      aside. */
  predicate Wanted(r: Record, query: string) {
    && !IsReplySubject(r.subject)
    && (forall n :: 2 <= n <= 9 ==> !FoldedIn(r.subject, VersionTag(n)))
    && (query == [] || FoldedIn(r.subject, query) || FoldedIn(r.fromName, query) || FoldedIn(r.fromAddr, query))
  }

  /** The patterns of the query say what they are meant to say, as long as
      the search text holds no wildcard of its own. */
  lemma EligibleWanted(r: Record, query: string)
    requires WildcardFree(query)
    ensures Eligible(r, query) <==> Wanted(r, query)
  {
    ReplyPatterns(r.subject);
    forall n | 2 <= n <= 9 ensures Like(r.subject, VersionPattern(n)) <==> FoldedIn(r.subject, VersionTag(n)) {
      LikeContains(r.subject, VersionTag(n));
    }
    LikeContains(r.subject, query);
    LikeContains(r.fromName, query);
    LikeContains(r.fromAddr, query);
  }

  /** With a wildcard in the search text the filter is looser than
      intended: `_` stands for any character. */
  lemma UnderscoreMatchesAny()
    ensures Eligible(Record("<a@b>", "fix", "x", "y", 0, "", "<a@b>"), "f_x")
    ensures !Wanted(Record("<a@b>", "fix", "x", "y", 0, "", "<a@b>"), "f_x")
  {
    var r := Record("<a@b>", "fix", "x", "y", 0, "", "<a@b>");
    assert Like("ix", "_x%") by {
      assert "_x%"[1..] == "x%" && "ix"[1..] == "x";
      assert "x%"[1..] == "%" && "x"[1..] == [];
    }
    assert Like("fix", "f_x%") by {
      assert "f_x%"[1..] == "_x%" && "fix"[1..] == "ix";
    }
    assert Around("f_x") == "%f_x%";
    assert Like("fix", "%f_x%");
    forall n | 2 <= n <= 9 ensures !Like(r.subject, VersionPattern(n)) {
      LikeContains(r.subject, VersionTag(n));
      assert !FoldedAt("fix", VersionTag(n), 0);
    }
    ReplyPatterns(r.subject);
    assert !IsReplySubject("fix");
    forall i | 0 <= i <= 3 ensures !FoldedAt("fix", "f_x", i) {
      if i == 0 {
        assert AsciiLower("fix"[1]) != AsciiLower("f_x"[1]);
      }
    }
    forall i | 0 <= i <= 1 ensures !FoldedAt("x", "f_x", i) && !FoldedAt("y", "f_x", i) {
    }
  }

  /** `filtered_messages`: the eligible rows, in scan order. */
  function Filtered(rows: seq<Record>, query: string): (fs: seq<Record>)
    ensures |fs| <= |rows|
    ensures forall r :: r in fs <==> r in rows && Eligible(r, query)
  {
    if rows == [] then []
    else (if Eligible(rows[0], query) then [rows[0]] else []) + Filtered(rows[1..], query)
  }

  /** Row `a` of `fs` comes before row `b` in `ORDER BY date_sent ASC`;
      SQLite leaves the order of equal dates open, and scan order decides
      here. */
  predicate Before(fs: seq<Record>, a: int, b: int)
    requires 0 <= a < |fs| && 0 <= b < |fs|
  {
    fs[a].dateSent < fs[b].dateSent || (fs[a].dateSent == fs[b].dateSent && a < b)
  }

  /** Row `i` of `fs` is numbered 1 in its thread by `ROW_NUMBER() OVER
      (PARTITION BY root_message_id ORDER BY date_sent ASC)`. */
  predicate Leads(fs: seq<Record>, i: int)
    requires 0 <= i < |fs|
  {
    forall j :: 0 <= j < |fs| && fs[j].rootMessageId == fs[i].rootMessageId ==> j == i || Before(fs, i, j)
  }

  /** `ranked_messages ... WHERE rn = 1`: the rows of `fs` from `i` on that
      are first in their thread. */
  function LeadersFrom(fs: seq<Record>, i: nat): (ls: seq<Record>)
    requires i <= |fs|
    ensures forall x :: x in ls ==> exists k :: i <= k < |fs| && fs[k] == x && Leads(fs, k)
    ensures forall k :: i <= k < |fs| && Leads(fs, k) ==> fs[k] in ls
    ensures forall a, b :: 0 <= a < b < |ls| ==> ls[a].rootMessageId != ls[b].rootMessageId
    decreases |fs| - i
  {
    if i == |fs| then []
    else
      var rest := LeadersFrom(fs, i + 1);
      if Leads(fs, i) then
        assert forall b :: 0 <= b < |rest| ==> rest[b].rootMessageId != fs[i].rootMessageId by {
          forall b | 0 <= b < |rest| ensures rest[b].rootMessageId != fs[i].rootMessageId {
            assert rest[b] in rest;
          }
        }
        [fs[i]] + rest
      else rest
  }

  /** The row of `fs` before `n` with root `root` that comes first by date,
      if any. */
  ghost function Earliest(fs: seq<Record>, root: string, n: nat): (c: Option<nat>)
    requires n <= |fs|
    ensures c.Some? ==> c.value < n && fs[c.value].rootMessageId == root
    ensures c.Some? ==> forall m :: 0 <= m < n && fs[m].rootMessageId == root ==> m == c.value || Before(fs, c.value, m)
    ensures c.None? ==> forall m :: 0 <= m < n ==> fs[m].rootMessageId != root
  {
    if n == 0 then None
    else
      var prev := Earliest(fs, root, n - 1);
      if fs[n - 1].rootMessageId != root then prev
      else if prev.None? || Before(fs, n - 1, prev.value) then Some(n - 1)
      else prev
  }

  /** Every thread of `fs` has its row numbered 1. */
  lemma LeaderExists(fs: seq<Record>, j: nat)
    requires j < |fs|
    ensures exists k :: 0 <= k < |fs| && Leads(fs, k) && fs[k].rootMessageId == fs[j].rootMessageId
  {
    var c := Earliest(fs, fs[j].rootMessageId, |fs|);
    assert Leads(fs, c.value);
  }

  /** The number of rows of the thread `root`: `thread_counts`
      (search.py:36-40), over every message, filtered or not. */
  function ThreadCount(rows: seq<Record>, root: string): (n: nat)
    ensures n <= |rows|
    ensures n == 0 <==> forall r :: r in rows ==> r.rootMessageId != root
  {
    if rows == [] then 0
    else (if rows[0].rootMessageId == root then 1 else 0) + ThreadCount(rows[1..], root)
  }

  /** The key of `ORDER BY date_sent DESC`. */
  function Recency(r: Record): int {
    -r.dateSent
  }

  const Limit: nat := 100

  /** The rows of the filtered list `fs` that survive `LIMIT 100`, newest
      first. */
  function TopOf(fs: seq<Record>): (top: seq<Record>)
  {
    var sorted := SortBy(LeadersFrom(fs, 0), Recency);
    sorted[..if |sorted| <= Limit then |sorted| else Limit]
  }

  /** The rows that survive `LIMIT 100` for `query`. */
  function Top(rows: seq<Record>, query: string): seq<Record>
  {
    TopOf(Filtered(rows, query))
  }

  /** A row of the query's result: a thread's first message and the size of
      the thread. */
  datatype Hit = Hit(record: Record, threadCount: nat)

  /** The rows the query of search.py:20-47 returns. */
  function Query(rows: seq<Record>, query: string): (hits: seq<Hit>)
    ensures |hits| <= Limit
  {
    var top := Top(rows, query);
    seq(|top|, i requires 0 <= i < |top| => Hit(top[i], ThreadCount(rows, top[i].rootMessageId)))
  }

  /** Facts about the sorted leaders behind `TopOf`. */
  lemma TopFacts(fs: seq<Record>)
    ensures var sorted := SortBy(LeadersFrom(fs, 0), Recency);
      && TopOf(fs) == sorted[..if |sorted| <= Limit then |sorted| else Limit]
      && (forall x :: x in sorted <==> x in LeadersFrom(fs, 0))
      && SortedBy(sorted, Recency)
      && NoDup(LeadersFrom(fs, 0)) && multiset(sorted) == multiset(LeadersFrom(fs, 0))
  {
    var ls := LeadersFrom(fs, 0);
    SortByMembers(ls, Recency);
    SortBySorted(ls, Recency);
    SortByPermutes(ls, Recency);
  }

  /** Every row kept is a row of `fs` numbered 1 in its thread. */
  lemma TopLeads(fs: seq<Record>)
    ensures forall x :: x in TopOf(fs) ==> exists k :: 0 <= k < |fs| && fs[k] == x && Leads(fs, k)
  {
    TopFacts(fs);
    var sorted := SortBy(LeadersFrom(fs, 0), Recency);
    forall x | x in TopOf(fs) ensures x in LeadersFrom(fs, 0) {
      assert x in sorted;
    }
  }

  /** No two rows kept share a root. */
  lemma TopOnePerThread(fs: seq<Record>)
    ensures var top := TopOf(fs);
      forall i, j :: 0 <= i < j < |top| ==> top[i].rootMessageId != top[j].rootMessageId
  {
    TopFacts(fs);
    var ls := LeadersFrom(fs, 0);
    var sorted := SortBy(ls, Recency);
    NoDupPermutation(ls, sorted);
    DistinctRoots(ls, sorted);
  }

  /** A list without duplicates drawn from a list whose roots are distinct
      has distinct roots. */
  lemma DistinctRoots(ls: seq<Record>, sorted: seq<Record>)
    requires forall a, b :: 0 <= a < b < |ls| ==> ls[a].rootMessageId != ls[b].rootMessageId
    requires NoDup(sorted) && forall x :: x in sorted ==> x in ls
    ensures forall i, j :: 0 <= i < j < |sorted| ==> sorted[i].rootMessageId != sorted[j].rootMessageId
  {
    forall i, j | 0 <= i < j < |sorted| ensures sorted[i].rootMessageId != sorted[j].rootMessageId {
      assert sorted[i] in sorted && sorted[j] in sorted;
      var a :| 0 <= a < |ls| && ls[a] == sorted[i];
      var b :| 0 <= b < |ls| && ls[b] == sorted[j];
      assert sorted[i] != sorted[j];
    }
  }

  /** Each row kept is no later than any row of `fs` in its thread. */
  lemma TopEarliest(fs: seq<Record>)
    ensures var top := TopOf(fs);
      forall i, j :: 0 <= i < |top| && 0 <= j < |fs| && fs[j].rootMessageId == top[i].rootMessageId ==>
        top[i].dateSent <= fs[j].dateSent
  {
    TopLeads(fs);
    var top := TopOf(fs);
    forall i, j | 0 <= i < |top| && 0 <= j < |fs| && fs[j].rootMessageId == top[i].rootMessageId
      ensures top[i].dateSent <= fs[j].dateSent
    {
      assert top[i] in top;
      var k :| 0 <= k < |fs| && fs[k] == top[i] && Leads(fs, k);
    }
  }

  /** The rows kept are newest first. */
  lemma TopNewestFirst(fs: seq<Record>)
    ensures var top := TopOf(fs);
      forall i, j :: 0 <= i < j < |top| ==> top[i].dateSent >= top[j].dateSent
  {
    TopFacts(fs);
  }

  /** The row numbered 1 in the thread of row `j` of `fs`: a row of `fs` no
      later than row `j`, and among the leaders. */
  lemma LeaderOf(fs: seq<Record>, j: nat) returns (l: Record)
    requires j < |fs|
    ensures l in fs && l.rootMessageId == fs[j].rootMessageId && l.dateSent <= fs[j].dateSent
    ensures l in LeadersFrom(fs, 0)
  {
    LeaderExists(fs, j);
    var k :| 0 <= k < |fs| && Leads(fs, k) && fs[k].rootMessageId == fs[j].rootMessageId;
    l := fs[k];
    if j != k {
      assert Before(fs, k, j);
    }
  }

  /** In a list sorted newest first, the first `n` rows are no older than
      any row at or after `n`. */
  lemma NewerAhead(sorted: seq<Record>, p: nat, n: nat)
    requires SortedBy(sorted, Recency) && n <= p < |sorted|
    ensures forall i :: 0 <= i < n ==> sorted[i].dateSent >= sorted[p].dateSent
  {
    forall i | 0 <= i < n ensures sorted[i].dateSent >= sorted[p].dateSent {
      assert Recency(sorted[i]) <= Recency(sorted[p]);
    }
  }

  /** The thread of row `j` of `fs` is kept, or the list is full and every
      row kept is no older than the thread's first row. */
  lemma TopComplete(fs: seq<Record>, j: nat)
    requires j < |fs|
    ensures var top := TopOf(fs);
      || (exists i :: 0 <= i < |top| && top[i].rootMessageId == fs[j].rootMessageId)
      || (&& |top| == Limit
          && exists l :: l in fs && l.rootMessageId == fs[j].rootMessageId && l.dateSent <= fs[j].dateSent
               && forall i :: 0 <= i < |top| ==> top[i].dateSent >= l.dateSent)
  {
    var ls := LeadersFrom(fs, 0);
    var sorted := SortBy(ls, Recency);
    var n := if |sorted| <= Limit then |sorted| else Limit;
    var top := TopOf(fs);
    var l := LeaderOf(fs, j);
    SortByMembers(ls, Recency);
    var p :| 0 <= p < |sorted| && sorted[p] == l;
    if p < n {
      assert top[p].rootMessageId == fs[j].rootMessageId;
    } else {
      SortBySorted(ls, Recency);
      NewerAhead(sorted, p, n);
    }
  }

  /** The hits are the rows kept, each with its thread's size. */
  lemma HitsOfTop(rows: seq<Record>, query: string)
    ensures var hits := Query(rows, query); var top := TopOf(Filtered(rows, query));
      && |hits| == |top|
      && forall i :: 0 <= i < |hits| ==> hits[i] == Hit(top[i], ThreadCount(rows, top[i].rootMessageId))
  {
  }

  /** Every listed thread starts with an eligible message of the table, its
      count is the number of messages of its thread, at least one. */
  lemma QuerySound(rows: seq<Record>, query: string)
    ensures var hits := Query(rows, query);
      forall i :: 0 <= i < |hits| ==>
        && hits[i].record in rows && Eligible(hits[i].record, query)
        && hits[i].threadCount == ThreadCount(rows, hits[i].record.rootMessageId) >= 1
  {
    var fs := Filtered(rows, query);
    HitsOfTop(rows, query);
    TopLeads(fs);
    var top := TopOf(fs);
    forall i | 0 <= i < |top| ensures top[i] in fs {
      assert top[i] in top;
    }
  }

  /** One row per thread: no two listed threads share a root. */
  lemma QueryOnePerThread(rows: seq<Record>, query: string)
    ensures var hits := Query(rows, query);
      forall i, j :: 0 <= i < j < |hits| ==> hits[i].record.rootMessageId != hits[j].record.rootMessageId
  {
    HitsOfTop(rows, query);
    TopOnePerThread(Filtered(rows, query));
  }

  /** Each listed thread is shown by its earliest eligible message. */
  lemma QueryEarliest(rows: seq<Record>, query: string)
    ensures var hits := Query(rows, query);
      forall i, e :: 0 <= i < |hits| && e in rows && Eligible(e, query) && e.rootMessageId == hits[i].record.rootMessageId ==>
        hits[i].record.dateSent <= e.dateSent
  {
    var fs := Filtered(rows, query);
    HitsOfTop(rows, query);
    TopEarliest(fs);
    forall e | e in rows && Eligible(e, query) ensures exists j :: 0 <= j < |fs| && fs[j] == e {
      assert e in fs;
    }
  }

  /** The list is newest first. */
  lemma QueryNewestFirst(rows: seq<Record>, query: string)
    ensures var hits := Query(rows, query);
      forall i, j :: 0 <= i < j < |hits| ==> hits[i].record.dateSent >= hits[j].record.dateSent
  {
    HitsOfTop(rows, query);
    TopNewestFirst(Filtered(rows, query));
  }

  /** A thread with an eligible message is missing only when the list is
      full and every listed thread started no earlier than it. */
  lemma QueryComplete(rows: seq<Record>, query: string, e: Record)
    requires e in rows && Eligible(e, query)
    ensures var hits := Query(rows, query);
      || (exists i :: 0 <= i < |hits| && hits[i].record.rootMessageId == e.rootMessageId)
      || (&& |hits| == Limit
          && exists l :: l in rows && Eligible(l, query) && l.rootMessageId == e.rootMessageId && l.dateSent <= e.dateSent
               && forall i :: 0 <= i < |hits| ==> hits[i].record.dateSent >= l.dateSent)
  {
    var fs := Filtered(rows, query);
    HitsOfTop(rows, query);
    assert e in fs;
    var j :| 0 <= j < |fs| && fs[j] == e;
    TopComplete(fs, j);
  }

  /** A thread of the listing as search.py:51-57 builds it; the date stays
      a timestamp. */
  datatype SearchResult = SearchResult(messageId: string, subject: string, from: string, dateSent: int, messageCount: nat)

  /** `_search` (search.py:8-59): the query's rows turned into results one
      by one, the sender written as `name <address>`. */
  method RunSearch(rows: seq<Record>, query: string) returns (threads: seq<SearchResult>)
    ensures var hits := Query(rows, query);
      && |threads| == |hits|
      && forall i :: 0 <= i < |hits| ==>
           var r := hits[i].record;
           threads[i] == SearchResult(r.messageId, r.subject, r.fromName + " <" + r.fromAddr + ">", r.dateSent, hits[i].threadCount)
  {
    var hits := Query(rows, query);
    threads := [];
    for i := 0 to |hits|
      invariant |threads| == i
      invariant forall k :: 0 <= k < i ==>
        var r := hits[k].record;
        threads[k] == SearchResult(r.messageId, r.subject, r.fromName + " <" + r.fromAddr + ">", r.dateSent, hits[k].threadCount)
    {
      var row := hits[i];
      threads := threads + [SearchResult(row.record.messageId, row.record.subject,
                                         row.record.fromName + " <" + row.record.fromAddr + ">",
                                         row.record.dateSent, row.threadCount)];
    }
  }
}
