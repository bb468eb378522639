/** URL redaction, `process_message` (yomiage.py:66-73). The pattern is
    `https?://\S+|www\.\S+`. When the stripped message is one URL token as a
    whole (`re.fullmatch`) the answer is the bare placeholder; otherwise
    `re.sub` scans left to right and replaces each URL run, which reaches
    from its start to the next whitespace, by the placeholder. */
module Redaction {
  import opened Text

  /** `'リンク省略'` ("link omitted"). */
  const Placeholder: string := "リンク省略"

  /** Length of the literal start `http://`, `https://` or `www.` of the
      pattern that `s` begins with, or 0 when it begins with none of them.
      At most one of the three can match, since `http://` and `https://`
      differ in their fifth character. */
  function SchemeLength(s: string): (n: nat)
    ensures n == 0 || n == 4 || n == 7 || n == 8
    ensures n <= |s|
  {
    if |s| >= 4 && s[0] == 'h' && s[1] == 't' && s[2] == 't' && s[3] == 'p' then
      if |s| >= 7 && s[4] == ':' && s[5] == '/' && s[6] == '/' then 7
      else if |s| >= 8 && s[4] == 's' && s[5] == ':' && s[6] == '/' && s[7] == '/' then 8
      else 0
    else if |s| >= 4 && s[0] == 'w' && s[1] == 'w' && s[2] == 'w' && s[3] == '.' then 4
    else 0
  }

  /** The literal starts, spelled out. */
  lemma SchemeLiterals(s: string)
    ensures SchemeLength(s) == 7 <==> |s| >= 7 && s[..7] == "http://"
    ensures SchemeLength(s) == 8 <==> |s| >= 8 && s[..8] == "https://"
    ensures SchemeLength(s) == 4 <==> |s| >= 4 && s[..4] == "www."
  {
  }

  /** `s` as a whole matches `https?://\S+|www\.\S+` (`re.fullmatch`): a
      literal start followed by one or more non-whitespace characters. */
  predicate IsUrlToken(s: string) {
    var n := SchemeLength(s);
    0 < n < |s| && NoSpace(s[n..])
  }

  /** A match of the URL pattern begins at the front of `s`: a literal
      start and then at least one non-whitespace character. */
  predicate StartsUrl(s: string) {
    var n := SchemeLength(s);
    0 < n < |s| && !IsSpace(s[n])
  }

  /** No URL match begins anywhere in `t`. */
  predicate NoUrl(t: string) {
    forall i :: 0 <= i < |t| ==> !StartsUrl(t[i..])
  }

  /** The literal starts begin with `h` or `w` and hold no whitespace. */
  lemma SchemeVisible(s: string)
    requires SchemeLength(s) > 0
    ensures s[0] == 'h' || s[0] == 'w'
    ensures NoSpace(s[..SchemeLength(s)])
  {
  }

  /** Extending a text keeps its literal start. */
  lemma SchemeExtends(m: string, x: string)
    requires m <= x && SchemeLength(m) > 0
    ensures SchemeLength(x) == SchemeLength(m)
  {
    assert forall i :: 0 <= i < |m| ==> x[i] == m[i];
  }

  /** Cutting a text after its literal start keeps the literal start. */
  lemma SchemeOfPrefix(s: string, k: nat)
    requires SchemeLength(s) > 0 && SchemeLength(s) <= k <= |s|
    ensures SchemeLength(s[..k]) == SchemeLength(s)
  {
    assert forall i :: 0 <= i < k ==> s[..k][i] == s[i];
  }

  /** A URL always starts with `h` or `w`, so never with whitespace or with
      a character of the placeholder. */
  lemma StartsUrlHead(s: string)
    requires StartsUrl(s)
    ensures |s| > 0 && (s[0] == 'h' || s[0] == 'w') && !IsSpace(s[0])
  {
    SchemeVisible(s);
  }

  /** Length of the leading run of non-whitespace characters: how far the
      greedy `\S+` reaches. */
  function RunLength(s: string): (n: nat)
    ensures n <= |s|
    ensures NoSpace(s[..n])
    ensures n == |s| || IsSpace(s[n])
  {
    if s == [] || IsSpace(s[0]) then 0
    else
      var n := RunLength(s[1..]);
      assert s[..n + 1] == [s[0]] + s[1..][..n];
      n + 1
  }

  /** The run stops at the first whitespace at the latest. */
  lemma RunStopsAtSpace(s: string, j: nat)
    requires j < |s| && IsSpace(s[j])
    ensures RunLength(s) <= j
  {
  }

  /** The run that `re.sub` replaces at a URL start is a whole URL token
      and cannot be extended: it ends at whitespace or at the end of text. */
  lemma RunIsMaximalToken(s: string)
    requires StartsUrl(s)
    ensures IsUrlToken(s[..RunLength(s)])
    ensures RunLength(s) == |s| || IsSpace(s[RunLength(s)])
  {
    var n := SchemeLength(s);
    var k := RunLength(s);
    SchemeVisible(s);
    assert k > n;
    SchemeOfPrefix(s, k);
    assert s[..k][n..] == s[n..k];
  }

  /** A URL token holds no whitespace at all. */
  lemma UrlTokenNoSpace(r: string)
    requires IsUrlToken(r)
    ensures NoSpace(r)
  {
    var n := SchemeLength(r);
    SchemeVisible(r);
    forall i | 0 <= i < |r| ensures !IsSpace(r[i]) {
      if i < n {
        assert r[..n][i] == r[i];
      } else {
        assert r[n..][i - n] == r[i];
      }
    }
  }

  /** Conversely, a URL token at the front of `t` that ends at whitespace or
      at the end is exactly the run the scanner sees there. */
  lemma TokenIsRun(t: string, r: string)
    requires IsUrlToken(r) && r <= t
    requires |r| == |t| || IsSpace(t[|r|])
    ensures StartsUrl(t) && RunLength(t) == |r|
  {
    SchemeExtends(r, t);
    UrlTokenNoSpace(r);
    assert forall i :: 0 <= i < |r| ==> t[i] == r[i];
    if |r| < |t| {
      RunStopsAtSpace(t, |r|);
    }
  }

  /** `re.sub(url_pattern, 'リンク省略', t)`, as a left-to-right scan. */
  function Redact(t: string): string
    decreases |t|
  {
    if t == [] then []
    else if StartsUrl(t) then
      StartsUrlHead(t);
      Placeholder + Redact(t[RunLength(t)..])
    else [t[0]] + Redact(t[1..])
  }

  /** `process_message(text)`. */
  function ProcessMessage(text: string): string {
    if IsUrlToken(Strip(text)) then Placeholder else Redact(text)
  }

  /** The placeholder is visible throughout and holds neither `h` nor
      `w`, so no URL can begin inside it. */
  lemma PlaceholderVisible()
    ensures NoSpace(Placeholder)
    ensures forall i :: 0 <= i < |Placeholder| ==> Placeholder[i] != 'h' && Placeholder[i] != 'w'
  {
  }

  /** The placeholder begins and ends with a visible character. */
  lemma PlaceholderEnds()
    ensures |Placeholder| == 5
    ensures !IsSpace(Placeholder[0]) && !IsSpace(Placeholder[4])
  {
  }

  /** A whole URL token is also a URL start. */
  lemma TokenStartsUrl(m: string)
    requires IsUrlToken(m)
    ensures StartsUrl(m)
  {
    assert m[SchemeLength(m)] == m[SchemeLength(m)..][0];
  }

  /** Whether a URL starts at the front depends only on the first few
      characters. */
  lemma StartsUrlExtends(m: string, x: string)
    requires StartsUrl(m) && m <= x
    ensures StartsUrl(x)
  {
    SchemeExtends(m, x);
    assert x[SchemeLength(m)] == m[SchemeLength(m)];
  }

  // ---------------------------------------------------------------------
  // A declarative reading of `re.sub`: the message cut into pieces

  /** One piece of a message: a character left alone, or a URL run. */
  datatype Piece = Kept(c: char) | Link(url: string) {
    /** How many characters of the message the piece covers. */
    function Width(): nat {
      match this
      case Kept(_) => 1
      case Link(u) => |u|
    }
  }

  /** The message the pieces were cut from. */
  function Flatten(ps: seq<Piece>): string {
    if ps == [] then []
    else (match ps[0] case Kept(c) => [c] case Link(u) => u) + Flatten(ps[1..])
  }

  /** What `re.sub` writes for the pieces: each URL run becomes the
      placeholder, every other character stays. */
  function Render(ps: seq<Piece>): string {
    if ps == [] then []
    else (match ps[0] case Kept(c) => [c] case Link(_) => Placeholder) + Render(ps[1..])
  }

  /** `ps` cuts `t` the way the leftmost-first, greedy matcher does: a
      character is kept only where no URL match begins, and a link is a
      whole URL token that whitespace or the end of text stops. */
  predicate Segments(t: string, ps: seq<Piece>)
    decreases |ps|
  {
    if ps == [] then t == []
    else match ps[0]
      case Kept(c) =>
        t != [] && t[0] == c && !StartsUrl(t) && Segments(t[1..], ps[1..])
      case Link(u) =>
        && IsUrlToken(u) && u <= t && (|u| == |t| || IsSpace(t[|u|]))
        && Segments(t[|u|..], ps[1..])
  }

  /** The pieces cover the message exactly: every character outside the
      links is kept, in order. */
  lemma {:induction false} SegmentsCoverText(t: string, ps: seq<Piece>)
    requires Segments(t, ps)
    ensures Flatten(ps) == t
    decreases |ps|
  {
    if ps != [] {
      match ps[0]
      case Kept(c) =>
        SegmentsCoverText(t[1..], ps[1..]);
        assert t == [c] + t[1..];
      case Link(u) =>
        SegmentsCoverText(t[|u|..], ps[1..]);
        assert t == u + t[|u|..];
    }
  }

  /** The first piece of any segmentation is forced by the text. */
  lemma SegmentsHead(t: string, ps: seq<Piece>)
    requires Segments(t, ps) && t != []
    ensures ps != []
    ensures ps[0] == (if StartsUrl(t) then Link(t[..RunLength(t)]) else Kept(t[0]))
    ensures ps[0].Width() <= |t| && Segments(t[ps[0].Width()..], ps[1..])
  {
    match ps[0]
    case Kept(c) =>
    case Link(u) =>
      TokenIsRun(t, u);
  }

  /** There is exactly one segmentation of any message. */
  lemma {:induction false} SegmentsUnique(t: string, ps: seq<Piece>, qs: seq<Piece>)
    requires Segments(t, ps) && Segments(t, qs)
    ensures ps == qs
    decreases |t|
  {
    if t == [] {
      assert ps == [] && qs == [];
    } else {
      SegmentsHead(t, ps);
      SegmentsHead(t, qs);
      if StartsUrl(t) {
        StartsUrlHead(t);
      }
      SegmentsUnique(t[ps[0].Width()..], ps[1..], qs[1..]);
      assert ps == [ps[0]] + ps[1..] && qs == [qs[0]] + qs[1..];
    }
  }

  /** The scanner's own cut of a message is a segmentation. */
  lemma {:induction false} SegmentationOf(t: string) returns (ps: seq<Piece>)
    ensures Segments(t, ps)
    decreases |t|
  {
    if t == [] {
      ps := [];
    } else if StartsUrl(t) {
      StartsUrlHead(t);
      var n := RunLength(t);
      RunIsMaximalToken(t);
      var rest := SegmentationOf(t[n..]);
      ps := [Link(t[..n])] + rest;
      assert ps[1..] == rest;
    } else {
      var rest := SegmentationOf(t[1..]);
      ps := [Kept(t[0])] + rest;
      assert ps[1..] == rest;
    }
  }

  /** `re.sub` replaces each URL run of the segmentation by the placeholder
      and keeps everything else. */
  lemma {:induction false} RedactRendersSegments(t: string, ps: seq<Piece>)
    requires Segments(t, ps)
    ensures Redact(t) == Render(ps)
    decreases |ps|
  {
    if ps != [] {
      match ps[0]
      case Kept(c) =>
        RedactRendersSegments(t[1..], ps[1..]);
      case Link(u) =>
        TokenIsRun(t, u);
        RedactRendersSegments(t[|u|..], ps[1..]);
    }
  }

  // ---------------------------------------------------------------------
  // Properties of the scan

  /** A URL run never swallows whitespace, and the placeholder has none, so
      the whitespace of the message survives in order. */
  lemma {:induction false} RedactKeepsSpaces(t: string)
    ensures Filter(IsSpace, Redact(t)) == Filter(IsSpace, t)
    decreases |t|
  {
    if t != [] {
      if StartsUrl(t) {
        StartsUrlHead(t);
        var n := RunLength(t);
        assert t == t[..n] + t[n..];
        FilterConcat(IsSpace, t[..n], t[n..]);
        FilterNone(IsSpace, t[..n]);
        PlaceholderVisible();
        FilterNone(IsSpace, Placeholder);
        FilterConcat(IsSpace, Placeholder, Redact(t[n..]));
        RedactKeepsSpaces(t[n..]);
      } else {
        assert t == [t[0]] + t[1..];
        FilterConcat(IsSpace, [t[0]], t[1..]);
        FilterConcat(IsSpace, [t[0]], Redact(t[1..]));
        RedactKeepsSpaces(t[1..]);
      }
    }
  }

  /** The scan changes a message exactly when some URL match begins in it. */
  lemma {:induction false} RedactUnchangedIff(t: string)
    ensures Redact(t) == t <==> NoUrl(t)
    decreases |t|
  {
    if t != [] {
      assert t[0..] == t;
      assert forall i :: 0 <= i < |t| - 1 ==> t[1..][i..] == t[i + 1..];
      RedactUnchangedIff(t[1..]);
      if StartsUrl(t) {
        StartsUrlHead(t);
        PlaceholderVisible();
        assert Redact(t)[0] == Placeholder[0];
      } else {
        assert NoUrl(t) <==> NoUrl(t[1..]) by {
          if NoUrl(t[1..]) {
            forall i | 0 <= i < |t| ensures !StartsUrl(t[i..]) {
              if i > 0 {
                assert !StartsUrl(t[1..][i - 1..]);
              }
            }
          }
        }
      }
    }
  }

  /** A whitespace character is copied by the scan. */
  lemma RedactSpaceStep(t: string)
    requires t != [] && IsSpace(t[0])
    ensures Redact(t) == [t[0]] + Redact(t[1..])
  {
    if StartsUrl(t) {
      StartsUrlHead(t);
    }
  }

  /** Leading whitespace passes through the scan untouched. */
  lemma {:induction false} RedactSpacePrefix(head: string, x: string)
    requires AllSpace(head)
    ensures Redact(head + x) == head + Redact(x)
    decreases |head|
  {
    if head != [] {
      var t := head + x;
      RedactSpaceStep(t);
      assert t[0] == head[0] && t[1..] == head[1..] + x;
      RedactSpacePrefix(head[1..], x);
      calc {
        Redact(t);
        [head[0]] + Redact(head[1..] + x);
        [head[0]] + (head[1..] + Redact(x));
        { assert head == [head[0]] + head[1..]; }
        head + Redact(x);
      }
    } else {
      assert head + x == x;
    }
  }

  /** A lone URL token between whitespace becomes the placeholder between
      the same whitespace. */
  lemma RedactLoneToken(head: string, m: string, tail: string)
    requires AllSpace(head) && AllSpace(tail) && IsUrlToken(m)
    ensures Redact(head + m + tail) == head + Placeholder + tail
  {
    assert head + m + tail == head + (m + tail);
    RedactSpacePrefix(head, m + tail);
    TokenIsRun(m + tail, m);
    assert (m + tail)[|m|..] == tail;
    RedactSpacePrefix(tail, []);
    assert tail + [] == tail;
    assert Redact(m + tail) == Placeholder + tail;
  }

  /** When the stripped message is a single URL token, `re.sub` would have
      produced the placeholder with the surrounding whitespace still around
      it; the `re.fullmatch` shortcut returns the placeholder alone, which
      is that result stripped. */
  lemma SingleUrlIsPlaceholder(t: string)
    requires IsUrlToken(Strip(t))
    ensures ProcessMessage(t) == Placeholder
    ensures Strip(Redact(t)) == Placeholder
  {
    var head, tail := StripSlice(t);
    RedactLoneToken(head, Strip(t), tail);
    PlaceholderEnds();
    StripUnique(head, Placeholder, tail);
  }

  /** A message without any URL match leaves `process_message` unchanged,
      and only such a message does. */
  lemma ProcessMessageUnchangedIff(t: string)
    ensures ProcessMessage(t) == t <==> NoUrl(t)
  {
    RedactUnchangedIff(t);
    if IsUrlToken(Strip(t)) {
      StrippedTokenIsUrl(t);
    }
  }

  /** A message whose stripped form is a URL token has a URL match in it,
      at the first visible character, and so differs from the placeholder. */
  lemma StrippedTokenIsUrl(t: string)
    requires IsUrlToken(Strip(t))
    ensures !NoUrl(t) && t != Placeholder
  {
    var m := Strip(t);
    var head, tail := StripSlice(t);
    var a := |head|;
    assert t[a..] == m + tail;
    TokenStartsUrl(m);
    StartsUrlExtends(m, t[a..]);
    StartsUrlHead(t[a..]);
    PlaceholderVisible();
    assert t[a] == t[a..][0];
  }

  /** Outside the single-URL case `process_message` keeps all whitespace of
      the message, in order. */
  lemma ProcessMessageKeepsSpaces(t: string)
    requires !IsUrlToken(Strip(t))
    ensures Filter(IsSpace, ProcessMessage(t)) == Filter(IsSpace, t)
  {
    RedactKeepsSpaces(t);
  }

  /** The scan never makes a message invisible: a URL run becomes the
      visible placeholder and other characters stay. */
  lemma {:induction false} RedactKeepsVisible(t: string)
    requires HasVisible(t)
    ensures HasVisible(Redact(t))
    decreases |t|
  {
    if StartsUrl(t) {
      PlaceholderEnds();
      assert Redact(t)[0] == Placeholder[0];
    } else if IsSpace(t[0]) {
      var i :| 0 <= i < |t| && !IsSpace(t[i]);
      assert t[1..][i - 1] == t[i];
      RedactKeepsVisible(t[1..]);
      RedactSpaceStep(t);
      var j :| 0 <= j < |Redact(t[1..])| && !IsSpace(Redact(t[1..])[j]);
      assert Redact(t)[j + 1] == Redact(t[1..])[j];
    } else {
      assert Redact(t)[0] == t[0];
    }
  }

  /** `process_message` of a non-blank message is never blank, so the
      second blank check in `on_message` (yomiage.py:100) cannot fire. */
  lemma ProcessMessageNeverBlank(t: string)
    requires !Blank(t)
    ensures !Blank(ProcessMessage(t))
  {
    BlankIffAllSpace(t);
    BlankIffAllSpace(ProcessMessage(t));
    PlaceholderVisible();
    if IsUrlToken(Strip(t)) {
      assert !IsSpace(Placeholder[0]);
    } else {
      RedactKeepsVisible(t);
    }
  }

  /** A visible character appended to a URL token extends the token. */
  lemma TokenExtends(u: string, c: char)
    requires IsUrlToken(u) && !IsSpace(c)
    ensures IsUrlToken(u + [c])
  {
    var n := SchemeLength(u);
    SchemeExtends(u, u + [c]);
    assert (u + [c])[n..] == u[n..] + [c];
  }

  /** A link wrapped in angle brackets, Discord's way to suppress its
      preview, keeps the `<` in front of the placeholder: the run swallows
      the closing `>`. */
  lemma RedactBracketedLink(u: string)
    requires IsUrlToken(u)
    ensures Redact("<" + u + ">") == "<" + Placeholder
  {
    var t := "<" + u + ">";
    assert !StartsUrl(t) by {
      if StartsUrl(t) {
        StartsUrlHead(t);
      }
    }
    assert Redact(t) == [t[0]] + Redact(t[1..]);
    assert t[1..] == u + ">";
    TokenExtends(u, '>');
    TokenIsRun(u + ">", u + ">");
    assert (u + ">")[|u + ">"|..] == [];
    assert Redact(u + ">") == Placeholder + [];
  }

  /** The same message through `process_message`: it is not a URL as a
      whole, since it starts with `<`. */
  lemma ProcessBracketedLink(u: string)
    requires IsUrlToken(u)
    ensures ProcessMessage("<" + u + ">") == "<" + Placeholder
  {
    var t := "<" + u + ">";
    RedactBracketedLink(u);
    StripVisibleHead(t);
    assert !IsUrlToken(Strip(t)) by {
      if IsUrlToken(Strip(t)) {
        TokenStartsUrl(Strip(t));
        StartsUrlHead(Strip(t));
      }
    }
  }
}
