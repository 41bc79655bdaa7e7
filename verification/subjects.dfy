/** Subject normalisation used by conversation threading.

    Two different normalisations exist in the source:
    - `normalize_subject` (jwz_threading.py:53-62), the key of the subject
      table: it removes the case-EXACT prefixes `re`/`RE` (never `Re`), the
      first optionally followed by a bracketed number, each followed by a
      colon and whitespace, then trims;
    - `_normalize_subject` (jwz_threading.py:248-249, repeated line for line
      at mbox_handler.py:20-21), used for display: it removes one leading
      `Re:`, `Fwd:` or `Fw:` in any letter case, then trims. */
module Subjects {
  import opened Text
  import opened Wrappers

  /** `s` starts with `re` or `RE` (the regex alternative `(re|RE)`). */
  predicate StartsWithReToken(s: string) {
    |s| >= 2 && ((s[0] == 'r' && s[1] == 'e') || (s[0] == 'R' && s[1] == 'E'))
  }

  /** The first index at or after `i` that does not hold a decimal digit. */
  function DigitsEnd(s: string, i: nat): (j: nat)
    requires i <= |s|
    ensures i <= j <= |s|
    ensures forall k :: i <= k < j ==> IsDigit(s[k])
    ensures j == |s| || !IsDigit(s[j])
    decreases |s| - i
  {
    if i < |s| && IsDigit(s[i]) then DigitsEnd(s, i + 1) else i
  }

  /** End of the match of `^(re|RE)(\[\d+\])?:` on `s`, if it matches. */
  function TaggedReplyEnd(s: string): (k: Option<nat>)
    ensures k.Some? ==> 3 <= k.value <= |s| && s[k.value - 1] == ':' && StartsWithReToken(s)
  {
    if !StartsWithReToken(s) || |s| < 3 then None
    else if s[2] == ':' then Some(3)
    else if s[2] == '[' then
      var j := DigitsEnd(s, 3);
      if j > 3 && j + 1 < |s| && s[j] == ']' && s[j + 1] == ':' then Some(j + 2) else None
    else None
  }

  /** End of the match of `^(re|RE):` on `s`, if it matches. */
  function PlainReplyEnd(s: string): (k: Option<nat>)
    ensures k.Some? <==> StartsWithReToken(s) && |s| >= 3 && s[2] == ':'
    ensures k.Some? ==> k.value == 3
  {
    if StartsWithReToken(s) && |s| >= 3 && s[2] == ':' then Some(3) else None
  }

  /** `re.sub(pattern + r'\s*', '', s)` for a pattern anchored with `^`:
      drop the match and the whitespace after it, or leave `s` alone. */
  function DropMatch(s: string, k: Option<nat>): (r: string)
    requires k.Some? ==> k.value <= |s|
  {
    match k
    case None => s
    case Some(n) => LStrip(s[n..])
  }

  /** `normalize_subject` (jwz_threading.py:53-62). */
  function NormalizeSubject(s: string): (r: string)
    ensures |r| <= |s|
    ensures r == [] || (!IsSpace(r[0]) && !IsSpace(r[|r| - 1]))
    ensures s == [] ==> r == []
  {
    if s == [] then []
    else
      var s1 := DropMatch(s, TaggedReplyEnd(s));
      var s2 := DropMatch(s1, PlainReplyEnd(s1));
      Strip(s2)
  }

  /** `Re: X` and `X` get different table keys: the mixed-case `Re:` is not
      a prefix `normalize_subject` removes. */
  lemma MixedCaseReplyKeepsPrefix(t: string)
    requires t != [] && !IsSpace(t[0]) && !IsSpace(t[|t| - 1]) && !StartsWithReToken(t)
    ensures NormalizeSubject(['R', 'e', ':', ' '] + t) == ['R', 'e', ':', ' '] + t
    ensures NormalizeSubject(t) == t
  {
    var s := ['R', 'e', ':', ' '] + t;
    assert s[0] == 'R' && s[1] == 'e';
    NormalizeUnprefixed(s);
    NormalizeTrimmed(t);
    StripOfReTrimmed(t);
  }

  lemma NormalizeTrimmed(t: string)
    requires t != [] && !IsSpace(t[0]) && !IsSpace(t[|t| - 1]) && !StartsWithReToken(t)
    ensures NormalizeSubject(t) == t
  {
    NormalizeUnprefixed(t);
    StripOfTrimmed(t);
  }

  lemma StripOfReTrimmed(t: string)
    requires t != [] && !IsSpace(t[|t| - 1])
    ensures Strip(['R', 'e', ':', ' '] + t) == ['R', 'e', ':', ' '] + t
  {
    var s := ['R', 'e', ':', ' '] + t;
    assert s[0] == 'R';
    assert s[|s| - 1] == t[|t| - 1];
    StripOfTrimmed(s);
  }

  /** A string that neither starts nor ends with whitespace is its own strip. */
  lemma StripOfTrimmed(s: string)
    requires s != [] && !IsSpace(s[0]) && !IsSpace(s[|s| - 1])
    ensures Strip(s) == s
  {
    assert LStrip(s) == s;
    assert RStrip(s) == s;
  }

  /** A reply prefix the first pattern matches, with its trailing whitespace. */
  predicate IsTaggedReplyPrefix(p: string) {
    TaggedReplyEnd(p).Some? && AllSpace(p[TaggedReplyEnd(p).value..])
  }

  lemma TaggedReplyEndAppend(p: string, t: string)
    requires TaggedReplyEnd(p).Some?
    ensures TaggedReplyEnd(p + t) == TaggedReplyEnd(p)
  {
    var s := p + t;
    assert s[..|p|] == p;
    if p[2] == '[' {
      var j := DigitsEnd(p, 3);
      DigitsEndAppend(p, t, 3);
    }
  }

  lemma {:induction false} DigitsEndAppend(p: string, t: string, i: nat)
    requires i <= |p|
    requires DigitsEnd(p, i) < |p|
    ensures DigitsEnd(p + t, i) == DigitsEnd(p, i)
    decreases |p| - i
  {
    if i < |p| && IsDigit(p[i]) {
      DigitsEndAppend(p, t, i + 1);
    }
  }

  lemma {:induction false} LStripAppendSpace(w: string, t: string)
    requires AllSpace(w)
    ensures LStrip(w + t) == LStrip(t)
  {
    if w != [] {
      var s := w + t;
      assert s[0] == w[0] && IsSpace(s[0]);
      assert s[1..] == w[1..] + t;
      LStripAppendSpace(w[1..], t);
    } else {
      assert w + t == t;
    }
  }

  lemma StripOfLStrip(t: string)
    ensures Strip(LStrip(t)) == Strip(t)
  {
  }

  /** The first substitution removes a tagged reply prefix and the
      whitespace after it. */
  lemma DropTaggedPrefix(p: string, t: string)
    requires IsTaggedReplyPrefix(p)
    ensures DropMatch(p + t, TaggedReplyEnd(p + t)) == LStrip(t)
  {
    var k := TaggedReplyEnd(p).value;
    TaggedReplyEndAppend(p, t);
    assert (p + t)[k..] == p[k..] + t;
    LStripAppendSpace(p[k..], t);
  }

  /** The second substitution removes a plain reply prefix and the whitespace
      after it. */
  lemma DropPlainPrefix(q: string, t: string)
    requires IsPlainReplyPrefix(q)
    ensures DropMatch(q + t, PlainReplyEnd(q + t)) == LStrip(t)
  {
    assert (q + t)[..3] == q[..3];
    assert (q + t)[3..] == q[3..] + t;
    LStripAppendSpace(q[3..], t);
  }

  /** Without a prefix the first pattern matches, `normalize_subject` only
      trims (a plain `re:` always matches the first pattern too). */
  lemma NormalizeUnprefixed(t: string)
    requires TaggedReplyEnd(t).None?
    ensures NormalizeSubject(t) == Strip(t)
  {
  }

  /** One reply prefix (`re:`, `RE:`, `re[2]:` ... with the whitespace after
      it) in front of a subject that has no such prefix of its own leaves the
      table key unchanged: the prefix is what `normalize_subject` removes. */
  lemma NormalizeDropsReplyPrefix(p: string, t: string)
    requires IsTaggedReplyPrefix(p)
    requires TaggedReplyEnd(t).None?
    requires PlainReplyEnd(LStrip(t)).None?
    ensures NormalizeSubject(p + t) == NormalizeSubject(t)
  {
    DropTaggedPrefix(p, t);
    StripOfLStrip(t);
    NormalizeUnprefixed(t);
  }

  /** `re:`/`RE:` followed by whitespace: what the second substitution removes. */
  predicate IsPlainReplyPrefix(q: string) {
    PlainReplyEnd(q).Some? && AllSpace(q[3..])
  }

  /** `normalize_subject` removes at most two prefixes: after a first reply
      prefix and a second plain one, whatever follows is only trimmed, even
      when it starts with a third `re:`. */
  lemma NormalizeRemovesAtMostTwo(p: string, q: string, t: string)
    requires IsTaggedReplyPrefix(p)
    requires IsPlainReplyPrefix(q)
    ensures NormalizeSubject(p + (q + t)) == Strip(t)
  {
    DropTaggedPrefix(p, q + t);
    assert LStrip(q + t) == q + t by {
      assert (q + t)[0] == q[0];
    }
    DropPlainPrefix(q, t);
    StripOfLStrip(t);
  }

  /** End of the match of `^(Re|Fwd|Fw):` with `re.IGNORECASE` on `s`. The
      alternatives are tried in the order written. */
  function ForwardOrReplyEnd(s: string): (k: Option<nat>)
    ensures k.Some? ==> 3 <= k.value <= |s| && s[k.value - 1] == ':'
  {
    if |s| >= 3 && AsciiLower(s[0]) == 'r' && AsciiLower(s[1]) == 'e' && s[2] == ':' then Some(3)
    else if |s| >= 4 && AsciiLower(s[0]) == 'f' && AsciiLower(s[1]) == 'w' && AsciiLower(s[2]) == 'd' && s[3] == ':' then Some(4)
    else if |s| >= 3 && AsciiLower(s[0]) == 'f' && AsciiLower(s[1]) == 'w' && s[2] == ':' then Some(3)
    else None
  }

  /** `_normalize_subject` (jwz_threading.py:248-249 and mbox_handler.py:20-21). */
  function DisplayNormalize(s: string): (r: string)
    ensures |r| <= |s|
    ensures r == [] || (!IsSpace(r[0]) && !IsSpace(r[|r| - 1]))
  {
    Strip(DropMatch(s, ForwardOrReplyEnd(s)))
  }

  /** One `Re:`/`Fwd:`/`Fw:` prefix, in any letter case, followed by
      whitespace. */
  predicate IsForwardOrReplyPrefix(p: string) {
    ForwardOrReplyEnd(p).Some? && AllSpace(p[ForwardOrReplyEnd(p).value..])
  }

  lemma ForwardOrReplyEndAppend(p: string, t: string)
    requires ForwardOrReplyEnd(p).Some?
    ensures ForwardOrReplyEnd(p + t) == ForwardOrReplyEnd(p)
  {
    assert (p + t)[..|p|] == p;
  }

  /** A prefix `_normalize_subject` removes makes no difference, whatever
      follows it: `Re: X`, `FWD: X` and `X` normalise alike unless `X`
      itself starts with such a prefix. */
  lemma DisplayNormalizeDropsPrefix(p: string, t: string)
    requires IsForwardOrReplyPrefix(p)
    requires ForwardOrReplyEnd(t).None?
    ensures DisplayNormalize(p + t) == DisplayNormalize(t)
  {
    DropForwardOrReplyPrefix(p, t);
    StripOfLStrip(t);
  }

  lemma DropForwardOrReplyPrefix(p: string, t: string)
    requires IsForwardOrReplyPrefix(p)
    ensures DropMatch(p + t, ForwardOrReplyEnd(p + t)) == LStrip(t)
  {
    var k := ForwardOrReplyEnd(p).value;
    ForwardOrReplyEndAppend(p, t);
    assert (p + t)[k..] == p[k..] + t;
    LStripAppendSpace(p[k..], t);
  }

  /** `_display_subject` (jwz_threading.py:252-259, mbox_handler.py:25-32):
      the subject shown for a message at depth `level` whose parent has
      subject `parentSubject` (`None` at the top). */
  function DisplaySubject(subject: string, parentSubject: Option<string>, level: int): (r: string)
    ensures r == subject || r == []
    ensures level <= 0 || parentSubject.None? || parentSubject == Some([]) ==> r == subject
    ensures r == [] <==> subject == [] || RepeatsParent(subject, parentSubject, level)
  {
    if parentSubject.Some? && parentSubject.value != [] && level > 0 then
      var parentNormalized := DisplayNormalize(parentSubject.value);
      var currentNormalized := DisplayNormalize(subject);
      if parentNormalized != [] && Contains(currentNormalized, parentNormalized) then [] else subject
    else subject
  }

  /** The display subject is hidden: below the top, under a parent with a
      non-empty subject whose normalised form is a non-empty substring of the
      message's own normalised subject. */
  predicate RepeatsParent(subject: string, parentSubject: Option<string>, level: int) {
    && level > 0
    && parentSubject.Some? && parentSubject.value != []
    && DisplayNormalize(parentSubject.value) != []
    && Contains(DisplayNormalize(subject), DisplayNormalize(parentSubject.value))
  }

  lemma ContainsSelf(s: string)
    ensures Contains(s, s)
  {
    assert OccursAt(s, s, 0);
  }

  /** A reply whose subject is its parent's with a `Re:`-style prefix shows an
      empty subject below the top level. */
  lemma ReplyToParentHidesSubject(p: string, t: string, level: int)
    requires level > 0
    requires IsForwardOrReplyPrefix(p)
    requires ForwardOrReplyEnd(t).None?
    requires Strip(t) != []
    ensures DisplaySubject(p + t, Some(t), level) == []
  {
    DisplayNormalizeDropsPrefix(p, t);
    assert DisplayNormalize(t) == Strip(t);
    ContainsSelf(Strip(t));
    assert t != [];
  }
}
