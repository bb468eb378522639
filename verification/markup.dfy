/** Markup removal, the first line of `talk` (yomiage.py:37):
    `re.sub(r'<.*?>', '', text)`. At each `<` the lazy `.*?` reaches the
    first `>` that comes before the next line break (`.` does not match
    `\n`); the whole span is deleted. A `<` with no such `>` is kept and the
    scan moves on by one character. */
module Markup {
  import opened Wrappers
  import opened Text

  /** `s` holds no `>` ahead of its first line break: a `<` placed in front
      of `s` would not open a span. */
  predicate NoCloseOnLine(s: string) {
    forall j :: 0 <= j < |s| && s[j] == '>' ==> '\n' in s[..j]
  }

  /** No `<` in `s` is followed by a `>` on the same line, so the pattern
      `<.*?>` matches nowhere in `s`. */
  predicate TagFree(s: string) {
    forall i, j :: 0 <= i < j < |s| && s[i] == '<' && s[j] == '>' ==> '\n' in s[i + 1..j]
  }

  /** Position in `s` of the `>` that closes a span opened just before `s`:
      the first `>`, provided no line break comes before it. */
  function FindClose(s: string): (r: Option<nat>)
    ensures r.Some? ==> r.value < |s| && s[r.value] == '>'
    ensures r.Some? ==> '>' !in s[..r.value] && '\n' !in s[..r.value]
    ensures r.None? <==> NoCloseOnLine(s)
  {
    if s == [] then None
    else if s[0] == '>' then Some(0)
    else if s[0] == '\n' then None
    else match FindClose(s[1..])
      case None =>
        assert forall j :: 1 <= j < |s| ==> s[..j] == [s[0]] + s[1..][..j - 1];
        None
      case Some(k) =>
        assert s[..k + 1] == [s[0]] + s[1..][..k];
        Some(k + 1)
  }

  /** `re.sub(r'<.*?>', '', t)`. */
  function StripMarkup(t: string): (r: string)
    ensures |r| <= |t|
    decreases |t|
  {
    if t == [] then []
    else match (if t[0] == '<' then FindClose(t[1..]) else None)
      // the span is `<`, the k characters before the `>`, and the `>`
      case Some(k) => StripMarkup(t[k + 2..])
      case None => [t[0]] + StripMarkup(t[1..])
  }

  /** Stripping only deletes characters. */
  lemma {:induction false} StripMarkupSubsequence(t: string)
    ensures IsSubsequence(StripMarkup(t), t)
    decreases |t|
  {
    if t != [] {
      match (if t[0] == '<' then FindClose(t[1..]) else None)
      case Some(k) =>
        StripMarkupSubsequence(t[k + 2..]);
        SubsequenceOfSuffix(StripMarkup(t), t, k + 2);
      case None =>
        StripMarkupSubsequence(t[1..]);
    }
  }

  /** Text without `<` passes through unchanged. */
  lemma {:induction false} StripMarkupNoOpen(t: string)
    requires '<' !in t
    ensures StripMarkup(t) == t
    decreases |t|
  {
    if t != [] {
      assert t[0] in t;
      assert forall c :: c in t[1..] ==> c in t;
      StripMarkupNoOpen(t[1..]);
    }
  }

  /** A span `<...>` holds no line break. */
  lemma SpanOnOneLine(t: string, k: nat)
    requires t != [] && t[0] == '<' && FindClose(t[1..]) == Some(k)
    ensures k + 2 <= |t|
    ensures forall i :: 0 <= i < k + 2 ==> !IsNewline(t[i])
  {
    forall i | 0 < i <= k ensures !IsNewline(t[i]) {
      assert t[i] == t[1..][..k][i - 1];
    }
  }

  /** A span never holds a line break, so every line break survives in
      order: markup cannot join two lines. */
  lemma {:induction false} StripMarkupKeepsNewlines(t: string)
    ensures Filter(IsNewline, StripMarkup(t)) == Filter(IsNewline, t)
    decreases |t|
  {
    if t != [] {
      match (if t[0] == '<' then FindClose(t[1..]) else None)
      case Some(k) =>
        SpanOnOneLine(t, k);
        var span := t[..k + 2];
        assert t == span + t[k + 2..];
        assert forall i :: 0 <= i < |span| ==> span[i] == t[i];
        FilterNone(IsNewline, span);
        FilterConcat(IsNewline, span, t[k + 2..]);
        StripMarkupKeepsNewlines(t[k + 2..]);
      case None =>
        assert t == [t[0]] + t[1..];
        FilterConcat(IsNewline, [t[0]], t[1..]);
        FilterConcat(IsNewline, [t[0]], StripMarkup(t[1..]));
        StripMarkupKeepsNewlines(t[1..]);
    }
  }

  /** When nothing after a kept `<` closes it on its line, nothing in the
      stripped remainder does either. */
  lemma {:induction false} StripKeepsNoClose(s: string)
    requires NoCloseOnLine(s)
    ensures NoCloseOnLine(StripMarkup(s))
    decreases |s|
  {
    if s != [] {
      var r := StripMarkup(s);
      if s[0] == '\n' {
        assert r == ['\n'] + StripMarkup(s[1..]);
        assert forall j :: 0 < j <= |r| ==> r[..j][0] == '\n';
      } else {
        assert s[0] != '>';
        assert NoCloseOnLine(s[1..]) by {
          forall j | 0 <= j < |s[1..]| && s[1..][j] == '>'
            ensures '\n' in s[1..][..j]
          {
            assert '\n' in s[..j + 1];
            assert s[..j + 1] == [s[0]] + s[1..][..j];
          }
        }
        if s[0] == '<' {
          assert FindClose(s[1..]).None?;
        }
        var rest := StripMarkup(s[1..]);
        assert r == [s[0]] + rest;
        StripKeepsNoClose(s[1..]);
        forall j | 0 <= j < |r| && r[j] == '>'
          ensures '\n' in r[..j]
        {
          assert j > 0;
          assert '\n' in rest[..j - 1];
          assert r[..j] == [s[0]] + rest[..j - 1];
        }
      }
    }
  }

  /** Prepending a character keeps a string tag-free when the character is
      not a `<` that the rest would close. */
  lemma TagFreeCons(c: char, rest: string)
    requires TagFree(rest)
    requires c == '<' ==> NoCloseOnLine(rest)
    ensures TagFree([c] + rest)
  {
    var s := [c] + rest;
    forall i, j | 0 <= i < j < |s| && s[i] == '<' && s[j] == '>'
      ensures '\n' in s[i + 1..j]
    {
      if i == 0 {
        assert '\n' in rest[..j - 1];
        assert s[1..j] == rest[..j - 1];
      } else {
        assert rest[i - 1] == '<' && rest[j - 1] == '>';
        assert s[i + 1..j] == rest[i..j - 1];
      }
    }
  }

  /** After stripping, no `<` is followed by a `>` on the same line. */
  lemma {:induction false} StripMarkupTagFree(t: string)
    ensures TagFree(StripMarkup(t))
    decreases |t|
  {
    if t != [] {
      match (if t[0] == '<' then FindClose(t[1..]) else None)
      case Some(k) =>
        StripMarkupTagFree(t[k + 2..]);
      case None =>
        assert StripMarkup(t) == [t[0]] + StripMarkup(t[1..]);
        StripMarkupTagFree(t[1..]);
        if t[0] == '<' {
          StripKeepsNoClose(t[1..]);
        }
        TagFreeCons(t[0], StripMarkup(t[1..]));
    }
  }

  /** Tag-free text is a fixed point of stripping. */
  lemma {:induction false} StripMarkupTagFreeFixed(t: string)
    requires TagFree(t)
    ensures StripMarkup(t) == t
    decreases |t|
  {
    if t != [] {
      if t[0] == '<' {
        assert NoCloseOnLine(t[1..]) by {
          forall j | 0 <= j < |t[1..]| && t[1..][j] == '>'
            ensures '\n' in t[1..][..j]
          {
            assert t[1..][..j] == t[1..j + 1];
          }
        }
      }
      assert TagFree(t[1..]) by {
        forall i, j | 0 <= i < j < |t[1..]| && t[1..][i] == '<' && t[1..][j] == '>'
          ensures '\n' in t[1..][i + 1..j]
        {
          assert t[1..][i + 1..j] == t[i + 2..j + 1];
        }
      }
      StripMarkupTagFreeFixed(t[1..]);
    }
  }

  /** Stripping leaves a text unchanged exactly when it holds no span. */
  lemma StripMarkupFixedIff(t: string)
    ensures StripMarkup(t) == t <==> TagFree(t)
  {
    StripMarkupTagFree(t);
    if TagFree(t) {
      StripMarkupTagFreeFixed(t);
    }
  }

  /** Stripping twice is stripping once. */
  lemma StripMarkupIdempotent(t: string)
    ensures StripMarkup(StripMarkup(t)) == StripMarkup(t)
  {
    StripMarkupTagFree(t);
    StripMarkupTagFreeFixed(StripMarkup(t));
  }

  /** The `>` that closes a span is pinned down by where it stands: the
      first `>`, with no line break before it. */
  lemma FindCloseAt(s: string, k: nat)
    requires k < |s| && s[k] == '>' && '>' !in s[..k] && '\n' !in s[..k]
    ensures FindClose(s) == Some(k)
  {
    var r := FindClose(s);
    assert s[..k + 1][k] == '>';
    assert !NoCloseOnLine(s);
  }

  /** A message that is one `<...>` token on one line, such as a Discord
      mention or custom emoji, strips to nothing. */
  lemma StripMarkupSingleTag(inner: string)
    requires '>' !in inner && '\n' !in inner
    ensures StripMarkup("<" + inner + ">") == []
  {
    var t := "<" + inner + ">";
    assert t[1..] == inner + ">";
    assert (inner + ">")[..|inner|] == inner;
    FindCloseAt(inner + ">", |inner|);
    assert t[|inner| + 2..] == [];
  }

  /** The span removed at a `<` is the shortest one: it ends at the first
      `>`, and the scan resumes right after it. */
  lemma StripMarkupDropsSpan(inner: string, rest: string)
    requires '>' !in inner && '\n' !in inner
    ensures StripMarkup("<" + inner + ">" + rest) == StripMarkup(rest)
  {
    var t := "<" + inner + ">" + rest;
    assert t[1..] == inner + ">" + rest;
    assert t[1..][..|inner|] == inner;
    FindCloseAt(t[1..], |inner|);
    assert t[|inner| + 2..] == rest;
  }

  /** A character that does not open a span on its line is kept, and the
      scan moves on by one character. */
  lemma StripMarkupKeepsChar(t: string)
    requires t != [] && (t[0] != '<' || NoCloseOnLine(t[1..]))
    ensures StripMarkup(t) == [t[0]] + StripMarkup(t[1..])
  {
    if t[0] == '<' {
      assert FindClose(t[1..]).None?;
    }
  }

  /** The pattern is lazy: in `<a>b>` only `<a>` is removed. */
  lemma StripMarkupIsLazy()
    ensures StripMarkup("<a>b>") == "b>"
  {
    StripMarkupDropsSpan("a", "b>");
    assert "<a>b>" == "<" + "a" + ">" + "b>";
    StripMarkupNoOpen("b>");
  }
}
