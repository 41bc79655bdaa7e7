/** The two header parsers of `EmailMessage.__init__` that the index relies
    on: the message id (emailindex.py:34) and the references
    (emailindex.py:69-72). The rest of the header decoding is done by
    Python's `email` package and is not part of this model. */
module Headers {
  import opened Text

  const Brackets: set<char> := {'<', '>'}

  /** `str(eml.get("Message-ID", "")).strip().strip("<>")`: the header
      with whitespace trimmed and then every `<` and `>` at either end
      dropped. */
  function MessageId(header: string): (id: string)
    ensures id == [] || (id[0] !in Brackets && id[|id| - 1] !in Brackets)
    ensures exists i :: CharsAround(Strip(header), id, i, Brackets)
  {
    StripChars(Strip(header), Brackets)
  }

  /** The usual form of a Message-ID header: the id in angle brackets. */
  function Bracketed(id: string): string {
    ['<'] + id + ['>']
  }

  /** An id that a header carries unchanged: it neither starts nor ends with
      whitespace or a bracket. */
  predicate PlainId(id: string) {
    id != [] && !IsSpace(id[0]) && !IsSpace(id[|id| - 1]) && id[0] !in Brackets && id[|id| - 1] !in Brackets
  }

  /** Parsing a bracketed id, with any whitespace around it, gives the id
      back. */
  lemma MessageIdRoundTrip(id: string, before: string, after: string)
    requires PlainId(id) && AllSpace(before) && AllSpace(after)
    ensures MessageId(before + Bracketed(id) + after) == id
  {
    var b := Bracketed(id);
    StripSpaceAround(before, b, after);
    StripBrackets(id);
  }

  /** `strip("<>")` of a bracketed plain id is the id. */
  lemma StripBrackets(id: string)
    requires PlainId(id)
    ensures StripChars(Bracketed(id), Brackets) == id
  {
    var b := Bracketed(id);
    var l := id + ['>'];
    assert b[1..] == l;
    assert l[0] == id[0];
    assert LStripChars(l, Brackets) == l;
    assert LStripChars(b, Brackets) == l;
    assert l[..|id|] == id;
    assert RStripChars(id, Brackets) == id;
    assert RStripChars(l, Brackets) == id;
    StripCharsIsBoth(b, Brackets);
  }

  lemma StripCharsIsBoth(s: string, chars: set<char>)
    ensures StripChars(s, chars) == RStripChars(LStripChars(s, chars), chars)
  {
  }

  /** Whitespace around a string that neither starts nor ends with
      whitespace is what `strip()` removes. */
  lemma StripSpaceAround(before: string, s: string, after: string)
    requires s != [] && !IsSpace(s[0]) && !IsSpace(s[|s| - 1])
    requires AllSpace(before) && AllSpace(after)
    ensures Strip(before + s + after) == s
  {
    assert before + s + after == before + (s + after);
    assert (s + after)[0] == s[0];
    LStripSpace(before, s + after);
    RStripSpace(s, after);
    StripIsBoth(before + s + after);
  }

  lemma StripIsBoth(s: string)
    ensures Strip(s) == RStrip(LStrip(s))
  {
  }

  lemma {:induction false} LStripSpace(before: string, s: string)
    requires AllSpace(before) && (s == [] || !IsSpace(s[0]))
    ensures LStrip(before + s) == LStrip(s) == s
  {
    if before != [] {
      assert (before + s)[1..] == before[1..] + s;
      LStripSpace(before[1..], s);
    } else {
      assert before + s == s;
    }
  }

  lemma {:induction false} RStripSpace(s: string, after: string)
    requires AllSpace(after) && (s == [] || !IsSpace(s[|s| - 1]))
    ensures RStrip(s + after) == RStrip(s) == s
  {
    if after != [] {
      var n := |after| - 1;
      assert (s + after)[..|s + after| - 1] == s + after[..n];
      RStripSpace(s, after[..n]);
    } else {
      assert s + after == s;
    }
  }

  /** The offset of the first `>` in `s`, or `|s|` when there is none. */
  function CloseIndex(s: string): (k: nat)
    ensures k <= |s| && '>' !in s[..k]
    ensures k < |s| ==> s[k] == '>'
  {
    if s == [] then 0
    else if s[0] == '>' then 0
    else
      var k := CloseIndex(s[1..]);
      assert s[..k + 1] == [s[0]] + s[1..][..k];
      k + 1
  }

  /** `re.findall(r"<([^>]+)>", s)`: scanning from the left, a `<`
      followed by at least one character other than `>` and then a `>`
      gives the text between them, and the scan resumes after the `>`; at
      any other character the scan moves on by one. */
  function FindRefs(s: string): (refs: seq<string>)
    decreases |s|
  {
    if s == [] then []
    else if s[0] == '<' then
      var j := 1 + CloseIndex(s[1..]);
      if 1 < j < |s| then
        [s[1..j]] + FindRefs(s[j + 1..])
      else FindRefs(s[1..])
    else FindRefs(s[1..])
  }

  /** Every reference found is non-empty and holds no `>`. */
  lemma {:induction false} FindRefsWellFormed(s: string)
    ensures forall r :: r in FindRefs(s) ==> r != [] && '>' !in r
    decreases |s|
  {
    if s != [] {
      if s[0] == '<' {
        var j := 1 + CloseIndex(s[1..]);
        if 1 < j < |s| {
          FindRefsWellFormed(s[j + 1..]);
          assert s[1..j] == s[1..][..j - 1];
        } else {
          FindRefsWellFormed(s[1..]);
        }
      } else {
        FindRefsWellFormed(s[1..]);
      }
    }
  }

  /** `self.references` (emailindex.py:69-72): the references found in the
      References header, a space, and the In-Reply-To header. */
  function References(refsHeader: string, inReplyTo: string): (refs: seq<string>)
    ensures forall r :: r in refs ==> r != [] && '>' !in r
  {
    FindRefsWellFormed(refsHeader + [' '] + inReplyTo);
    FindRefs(refsHeader + [' '] + inReplyTo)
  }

  /** Every `<` of `s` has a `>` after it: no reference can start in `s`
      and end after it. */
  predicate Closed(s: string) {
    forall i :: 0 <= i < |s| && s[i] == '<' ==> '>' in s[i + 1..]
  }

  lemma ClosedSuffix(s: string, k: nat)
    requires Closed(s) && k <= |s|
    ensures Closed(s[k..])
  {
    forall i | 0 <= i < |s[k..]| && s[k..][i] == '<' ensures '>' in s[k..][i + 1..] {
      assert s[k..][i + 1..] == s[k + i + 1..];
    }
  }

  lemma SliceAppend<T>(s: seq<T>, t: seq<T>, i: nat)
    requires i <= |s|
    ensures (s + t)[i..] == s[i..] + t && (s + t)[..i] == s[..i]
  {
  }

  /** A closed text that starts with `<`: the `>` that ends the reference
      it opens lies inside it, and what follows that `>` is closed too. */
  lemma OpenFacts(s: string)
    requires Closed(s) && s != [] && s[0] == '<'
    ensures var j := 1 + CloseIndex(s[1..]);
      j < |s| && Closed(s[j + 1..]) && Closed(s[1..])
  {
    assert '>' in s[1..];
    ClosedSuffix(s, 1 + CloseIndex(s[1..]) + 1);
    ClosedSuffix(s, 1);
  }

  /** The reference a closed text opens at its start is the same whatever
      follows the text. */
  lemma OpenStep(s: string, t: string)
    requires Closed(s) && s != [] && s[0] == '<'
    ensures var j := 1 + CloseIndex(s[1..]);
      && j < |s|
      && FindRefs(s + t) == (if 1 < j then [s[1..j]] + FindRefs(s[j + 1..] + t) else FindRefs(s[1..] + t))
  {
    OpenFacts(s);
    var j := 1 + CloseIndex(s[1..]);
    SliceAppend(s, t, 1);
    SliceAppend(s, t, j + 1);
    assert (s + t)[0] == s[0];
    CloseIndexAppend(s[1..], t);
    if 1 < j {
      SliceAppend(s, t, j);
      assert (s + t)[1..j] == s[1..j] by {
        assert (s + t)[1..j] == (s + t)[..j][1..];
      }
    }
  }

  lemma ConsAssoc<T>(whole: seq<T>, front: seq<T>, x: T, rest: seq<T>, tail: seq<T>)
    requires whole == [x] + (rest + tail) && front == [x] + rest
    ensures whole == front + tail
  {
  }

  /** The case of `FindRefsAppend` where `s` opens a non-empty reference. */
  lemma OpenAppend(s: string, t: string)
    requires Closed(s) && s != [] && s[0] == '<'
    requires var j := 1 + CloseIndex(s[1..]);
      && 1 < j < |s|
      && FindRefs(s[j + 1..] + t) == FindRefs(s[j + 1..]) + FindRefs(t)
    ensures FindRefs(s + t) == FindRefs(s) + FindRefs(t)
  {
    var j := 1 + CloseIndex(s[1..]);
    var r := s[1..j];
    var rest := FindRefs(s[j + 1..]);
    assert FindRefs(s + t) == [r] + (rest + FindRefs(t)) by {
      OpenStep(s, t);
    }
    assert FindRefs(s) == [r] + rest by {
      OpenStep(s, []);
      assert s + [] == s && s[j + 1..] + [] == s[j + 1..];
    }
    ConsAssoc(FindRefs(s + t), FindRefs(s), r, rest, FindRefs(t));
  }

  /** The case of `FindRefsAppend` where `s` starts with `<>`. */
  lemma EmptyOpenAppend(s: string, t: string)
    requires Closed(s) && s != [] && s[0] == '<'
    requires var j := 1 + CloseIndex(s[1..]);
      && j == 1
      && FindRefs(s[1..] + t) == FindRefs(s[1..]) + FindRefs(t)
    ensures FindRefs(s + t) == FindRefs(s) + FindRefs(t)
  {
    OpenStep(s, t);
  }

  /** The case of `FindRefsAppend` where `s` starts with another
      character. */
  lemma PlainAppend(s: string, t: string)
    requires s != [] && s[0] != '<'
    requires FindRefs(s[1..] + t) == FindRefs(s[1..]) + FindRefs(t)
    ensures FindRefs(s + t) == FindRefs(s) + FindRefs(t)
  {
    SliceAppend(s, t, 1);
    assert (s + t)[0] == s[0];
  }

  /** A closed text yields its references whatever follows it. */
  lemma {:induction false} FindRefsAppend(s: string, t: string)
    requires Closed(s)
    ensures FindRefs(s + t) == FindRefs(s) + FindRefs(t)
    decreases |s|
  {
    if s == [] {
      assert s + t == t;
    } else if s[0] == '<' {
      OpenFacts(s);
      var j := 1 + CloseIndex(s[1..]);
      if 1 < j {
        FindRefsAppend(s[j + 1..], t);
        OpenAppend(s, t);
      } else {
        FindRefsAppend(s[1..], t);
        EmptyOpenAppend(s, t);
      }
    } else {
      ClosedSuffix(s, 1);
      FindRefsAppend(s[1..], t);
      PlainAppend(s, t);
    }
  }

  lemma {:induction false} CloseIndexAppend(s: string, t: string)
    requires '>' in s
    ensures CloseIndex(s + t) == CloseIndex(s) < |s|
    decreases |s|
  {
    assert (s + t)[0] == s[0];
    if s[0] != '>' {
      assert '>' in s[1..];
      assert (s + t)[1..] == s[1..] + t;
      CloseIndexAppend(s[1..], t);
    }
  }

  /** A reference with its brackets, then a space: the form of a
      References header. */
  function RefsHeader(ids: seq<string>): string {
    if ids == [] then [] else Bracketed(ids[0]) + [' '] + RefsHeader(ids[1..])
  }

  /** An id that can sit between brackets of a header. */
  predicate RefId(id: string) {
    id != [] && '<' !in id && '>' !in id
  }

  lemma ClosedAppend(a: string, b: string)
    requires Closed(a) && Closed(b)
    ensures Closed(a + b)
  {
    var s := a + b;
    forall i | 0 <= i < |s| && s[i] == '<' ensures '>' in s[i + 1..] {
      if i < |a| {
        assert s[i] == a[i];
        var k :| 0 <= k < |a[i + 1..]| && a[i + 1..][k] == '>';
        assert s[i + 1..][k] == '>';
      } else {
        assert s[i] == b[i - |a|];
        assert s[i + 1..] == b[i - |a| + 1..];
      }
    }
  }

  /** A bracketed id followed by a space closes its one `<`. */
  lemma BracketedClosed(id: string)
    requires RefId(id)
    ensures Closed(Bracketed(id) + [' '])
  {
    var b := Bracketed(id) + [' '];
    assert |b| == |id| + 3 && b[|id| + 1] == '>' && b[|id| + 2] == ' ';
    forall i | 0 <= i < |b| && b[i] == '<' ensures '>' in b[i + 1..] {
      if 0 < i <= |id| {
        assert false;
      }
      assert b[i + 1..][|id| - i] == '>';
    }
  }

  lemma RefsHeaderClosed(ids: seq<string>)
    requires forall id :: id in ids ==> RefId(id)
    ensures Closed(RefsHeader(ids))
    decreases |ids|
  {
    if ids != [] {
      assert forall id :: id in ids[1..] ==> id in ids;
      RefsHeaderClosed(ids[1..]);
      BracketedClosed(ids[0]);
      ClosedAppend(Bracketed(ids[0]) + [' '], RefsHeader(ids[1..]));
    }
  }

  /** One bracketed id followed by a space yields that id. */
  lemma FindRefsBracketed(id: string)
    requires RefId(id)
    ensures FindRefs(Bracketed(id) + [' ']) == [id]
  {
    var b := Bracketed(id) + [' '];
    assert b[1..] == id + ['>', ' '];
    CloseIndexPlain(id, ['>', ' ']);
    assert b[1..1 + |id|] == id;
    assert b[|id| + 2..] == [' '];
    assert FindRefs([' ']) == FindRefs([]);
  }

  /** Parsing a References header made of bracketed ids gives the ids
      back, in order. */
  lemma {:induction false} RefsHeaderRoundTrip(ids: seq<string>)
    requires forall id :: id in ids ==> RefId(id)
    ensures FindRefs(RefsHeader(ids)) == ids
    decreases |ids|
  {
    if ids != [] {
      var b := Bracketed(ids[0]) + [' '];
      var rest := RefsHeader(ids[1..]);
      assert FindRefs(rest) == ids[1..] by {
        assert forall x :: x in ids[1..] ==> x in ids;
        RefsHeaderRoundTrip(ids[1..]);
      }
      assert FindRefs(b + rest) == FindRefs(b) + FindRefs(rest) by {
        BracketedClosed(ids[0]);
        FindRefsAppend(b, rest);
      }
      FindRefsBracketed(ids[0]);
      calc {
        FindRefs(RefsHeader(ids));
        FindRefs(b + rest);
        [ids[0]] + ids[1..];
        ids;
      }
    }
  }

  lemma CloseIndexPlain(id: string, t: string)
    requires '>' !in id && t != [] && t[0] == '>'
    ensures CloseIndex(id + t) == |id|
    decreases |id|
  {
    if id == [] {
      assert id + t == t;
    } else {
      assert (id + t)[1..] == id[1..] + t;
      assert '>' !in id[1..] by { assert forall c :: c in id[1..] ==> c in id; }
      CloseIndexPlain(id[1..], t);
    }
  }

  /** The references of References come first, then those of In-Reply-To,
      whenever every `<` of the References header is closed within it. */
  lemma ReferencesFirst(refsHeader: string, inReplyTo: string)
    requires Closed(refsHeader)
    ensures References(refsHeader, inReplyTo) == FindRefs(refsHeader) + FindRefs(inReplyTo)
  {
    FindRefsAppend(refsHeader, [' '] + inReplyTo);
    assert refsHeader + [' '] + inReplyTo == refsHeader + ([' '] + inReplyTo);
    assert ([' '] + inReplyTo)[1..] == inReplyTo;
  }

  /** A `<` left open at the end of References runs into In-Reply-To: the
      two headers then yield one reference spanning both. */
  lemma OpenReferenceSpans()
    ensures References("<a", "b>") == ["a b"]
    ensures FindRefs("<a") + FindRefs("b>") == []
  {
    var s := "<a b>";
    assert "<a" + [' '] + "b>" == s;
    assert s[1..] == "a b>";
    assert CloseIndex("a b>") == 3 by {
      assert "a b>"[1..] == " b>" && " b>"[1..] == "b>" && "b>"[1..] == ">";
    }
    assert s[1..4] == "a b" && s[5..] == [];
    assert "<a"[1..] == "a" && "a"[1..] == [];
    assert CloseIndex("a") == 1;
    assert FindRefs("<a") == FindRefs("a") == [];
    assert "b>"[1..] == ">" && ">"[1..] == [];
    assert FindRefs("b>") == FindRefs(">") == [];
  }
}
