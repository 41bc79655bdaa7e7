/** `sanitize_message_id` (app.py): a message id rewritten so that it can be
    used as an HTML element id, by four `str.replace` passes. */
module Sanitize {
  import opened Text

  /** `s.replace(c, rep)` for a one-character pattern: every occurrence of `c`
      becomes `rep`, the other characters are kept in order. */
  function ReplaceChar(s: string, c: char, rep: string): (r: string)
    ensures c !in rep ==> c !in r
  {
    if s == [] then []
    else (if s[0] == c then rep else [s[0]]) + ReplaceChar(s[1..], c, rep)
  }

  /** Each occurrence of `c` trades one character for `|rep|`. */
  lemma {:induction false} ReplaceCharLength(s: string, c: char, rep: string)
    ensures |ReplaceChar(s, c, rep)| == |s| + Count(s, c) * (|rep| - 1)
  {
    if s != [] {
      ReplaceCharLength(s[1..], c, rep);
      MulSucc(Count(s[1..], c), |rep| - 1);
    }
  }

  lemma MulSucc(n: int, k: int)
    ensures (n + 1) * k == n * k + k
  {
  }

  /** A character that is neither the pattern nor in the replacement keeps
      being absent. */
  lemma {:induction false} ReplaceCharKeepsAbsent(s: string, c: char, rep: string, d: char)
    requires d != c && d !in rep && d !in s
    ensures d !in ReplaceChar(s, c, rep)
  {
    if s != [] {
      assert d !in s[1..] by { assert forall x :: x in s[1..] ==> x in s; }
      ReplaceCharKeepsAbsent(s[1..], c, rep, d);
    }
  }

  /** The four passes of app.py:13-18, in the source's order. */
  function SanitizeMessageId(id: string): (r: string)
  {
    ReplaceChar(ReplaceChar(ReplaceChar(ReplaceChar(id, '<', ""), '>', ""), '@', "_at_"), '.', "_")
  }

  /** What one character of the input becomes. */
  function SanitizeChar(c: char): string {
    if c == '<' || c == '>' then ""
    else if c == '@' then "_at_"
    else if c == '.' then "_"
    else [c]
  }

  /** Reference definition: the input rewritten one character at a time. */
  function CharByChar(s: string): string {
    if s == [] then [] else SanitizeChar(s[0]) + CharByChar(s[1..])
  }

  /** Replacing a character distributes over concatenation. */
  lemma {:induction false} ReplaceCharAppend(s: string, t: string, c: char, rep: string)
    ensures ReplaceChar(s + t, c, rep) == ReplaceChar(s, c, rep) + ReplaceChar(t, c, rep)
  {
    if s == [] {
      assert s + t == t;
    } else {
      assert (s + t)[1..] == s[1..] + t;
      ReplaceCharAppend(s[1..], t, c, rep);
    }
  }

  lemma SanitizeAppend(s: string, t: string)
    ensures SanitizeMessageId(s + t) == SanitizeMessageId(s) + SanitizeMessageId(t)
  {
    var s1, t1 := ReplaceChar(s, '<', ""), ReplaceChar(t, '<', "");
    var s2, t2 := ReplaceChar(s1, '>', ""), ReplaceChar(t1, '>', "");
    var s3, t3 := ReplaceChar(s2, '@', "_at_"), ReplaceChar(t2, '@', "_at_");
    ReplaceCharAppend(s, t, '<', "");
    ReplaceCharAppend(s1, t1, '>', "");
    ReplaceCharAppend(s2, t2, '@', "_at_");
    ReplaceCharAppend(s3, t3, '.', "_");
  }

  lemma ReplaceCharOne(d: char, c: char, rep: string)
    ensures ReplaceChar([d], c, rep) == if d == c then rep else [d]
  {
    assert ReplaceChar([d][1..], c, rep) == [];
  }

  lemma SanitizeOneChar(c: char)
    ensures SanitizeMessageId([c]) == SanitizeChar(c)
  {
    ReplaceCharOne(c, '<', "");
    if c != '<' {
      ReplaceCharOne(c, '>', "");
      if c != '>' {
        ReplaceCharOne(c, '@', "_at_");
        if c == '@' {
          assert "_at_" == ['_'] + (['a'] + (['t'] + ['_']));
          ReplaceCharAppend(['_'], ['a'] + (['t'] + ['_']), '.', "_");
          ReplaceCharAppend(['a'], ['t'] + ['_'], '.', "_");
          ReplaceCharAppend(['t'], ['_'], '.', "_");
          ReplaceCharOne('_', '.', "_");
          ReplaceCharOne('a', '.', "_");
          ReplaceCharOne('t', '.', "_");
        } else {
          ReplaceCharOne(c, '.', "_");
        }
      }
    }
  }

  /** The four passes act as one per-character rewrite: each `@` becomes
      `_at_`, each `.` becomes `_`, `<` and `>` are deleted, every other
      character is kept in order. The passes do not interfere because
      `_at_` contains no `.`. */
  lemma {:induction false} SanitizeIsCharByChar(id: string)
    ensures SanitizeMessageId(id) == CharByChar(id)
  {
    if id != [] {
      SanitizeIsCharByChar(id[1..]);
      assert id == [id[0]] + id[1..];
      SanitizeAppend([id[0]], id[1..]);
      SanitizeOneChar(id[0]);
    }
  }

  /** The output holds none of `<`, `>`, `@` and `.`. */
  lemma NoUnsafeCharacters(id: string)
    ensures '<' !in SanitizeMessageId(id) && '>' !in SanitizeMessageId(id)
    ensures '@' !in SanitizeMessageId(id) && '.' !in SanitizeMessageId(id)
  {
    var p1 := ReplaceChar(id, '<', "");
    var p2 := ReplaceChar(p1, '>', "");
    var p3 := ReplaceChar(p2, '@', "_at_");
    ReplaceCharKeepsAbsent(p1, '>', "", '<');
    ReplaceCharKeepsAbsent(p2, '@', "_at_", '<');
    ReplaceCharKeepsAbsent(p2, '@', "_at_", '>');
    ReplaceCharKeepsAbsent(p3, '.', "_", '<');
    ReplaceCharKeepsAbsent(p3, '.', "_", '>');
    ReplaceCharKeepsAbsent(p3, '.', "_", '@');
  }

  /** A character-by-character rewrite of a string without unsafe characters
      is the identity. */
  lemma {:induction false} CharByCharOfSafe(s: string)
    requires '<' !in s && '>' !in s && '@' !in s && '.' !in s
    ensures CharByChar(s) == s
  {
    if s != [] {
      assert s[0] in s;
      assert forall d :: d in s[1..] ==> d in s;
      CharByCharOfSafe(s[1..]);
    }
  }

  /** Sanitizing an already-sanitized id changes nothing. */
  lemma SanitizeIdempotent(id: string)
    ensures SanitizeMessageId(SanitizeMessageId(id)) == SanitizeMessageId(id)
  {
    var s := SanitizeMessageId(id);
    NoUnsafeCharacters(id);
    SanitizeIsCharByChar(s);
    CharByCharOfSafe(s);
  }

  lemma {:induction false} CharByCharLength(s: string)
    ensures |CharByChar(s)| == |s| - Count(s, '<') - Count(s, '>') + 3 * Count(s, '@')
  {
    if s != [] {
      CharByCharLength(s[1..]);
      assert |CharByChar(s)| == |SanitizeChar(s[0])| + |CharByChar(s[1..])|;
      assert |SanitizeChar(s[0])| == 1 - (if s[0] == '<' then 1 else 0) - (if s[0] == '>' then 1 else 0) + 3 * (if s[0] == '@' then 1 else 0);
    }
  }

  /** Output length = input length - count(`<`) - count(`>`) + 3 * count(`@`). */
  lemma SanitizeLength(id: string)
    ensures |SanitizeMessageId(id)| == |id| - Count(id, '<') - Count(id, '>') + 3 * Count(id, '@')
  {
    SanitizeIsCharByChar(id);
    CharByCharLength(id);
  }
}
