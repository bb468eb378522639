/** Character classes and whole-string helpers shared by the two text stages
    of yomiage.py: whitespace as Python understands it, `str.strip()`,
    order-preserving filtering and subsequences. */
module Text {

  /** Python's `str.isspace()`. For patterns over `str` the regex class `\s`
      is the same set, so one predicate serves both `\S` in the URL pattern
      and the argument-less `strip()`. */
  predicate IsSpace(c: char) {
    var n := c as int;
    if n <= 0x20 then 0x09 <= n <= 0x0D || 0x1C <= n
    else if n < 0x2000 then n == 0x85 || n == 0xA0 || n == 0x1680
    else n <= 0x200A || n == 0x2028 || n == 0x2029 || n == 0x202F || n == 0x205F || n == 0x3000
  }

  predicate IsNewline(c: char) {
    c == '\n'
  }

  predicate AllSpace(s: string) {
    forall i :: 0 <= i < |s| ==> IsSpace(s[i])
  }

  predicate NoSpace(s: string) {
    forall i :: 0 <= i < |s| ==> !IsSpace(s[i])
  }

  /** How many characters `s.lstrip()` drops: the index of the first
      visible character, or `|s|` when there is none. */
  function LeadingSpaces(s: string): (k: nat)
    ensures k <= |s|
    ensures forall i :: 0 <= i < k ==> IsSpace(s[i])
    ensures k == |s| || !IsSpace(s[k])
  {
    if s == [] || !IsSpace(s[0]) then 0 else 1 + LeadingSpaces(s[1..])
  }

  /** How many characters `s.rstrip()` drops. */
  function TrailingSpaces(s: string): (k: nat)
    ensures k <= |s|
    ensures forall i :: |s| - k <= i < |s| ==> IsSpace(s[i])
    ensures k == |s| || !IsSpace(s[|s| - 1 - k])
  {
    if s == [] || !IsSpace(s[|s| - 1]) then 0 else 1 + TrailingSpaces(s[..|s| - 1])
  }

  /** `s.strip()` with no argument. */
  function Strip(s: string): (r: string)
    ensures |r| <= |s|
    ensures r == [] || (!IsSpace(r[0]) && !IsSpace(r[|r| - 1]))
  {
    var a := LeadingSpaces(s);
    if a == |s| then [] else s[a..|s| - TrailingSpaces(s)]
  }

  /** `not s.strip()`: the string is empty or holds only whitespace. */
  predicate Blank(s: string) {
    Strip(s) == []
  }

  /** Some character of `s` is not whitespace. */
  predicate HasVisible(s: string) {
    exists i :: 0 <= i < |s| && !IsSpace(s[i])
  }

  /** What `lstrip()` drops is whitespace. */
  lemma LeadIsSpace(s: string)
    ensures AllSpace(s[..LeadingSpaces(s)])
  {
    var k := LeadingSpaces(s);
    forall i | 0 <= i < k ensures IsSpace(s[..k][i]) {
      assert s[..k][i] == s[i];
    }
  }

  /** What `rstrip()` drops is whitespace. */
  lemma TrailIsSpace(s: string)
    ensures AllSpace(s[|s| - TrailingSpaces(s)..])
  {
    var e := |s| - TrailingSpaces(s);
    forall i | 0 <= i < |s| - e ensures IsSpace(s[e..][i]) {
      assert s[e..][i] == s[e + i];
    }
  }

  /** `Strip(s)` is the slice of `s` between a whitespace-only head and a
      whitespace-only tail. */
  lemma StripSlice(s: string) returns (head: string, tail: string)
    ensures s == head + Strip(s) + tail
    ensures AllSpace(head) && AllSpace(tail)
  {
    var a := LeadingSpaces(s);
    LeadIsSpace(s);
    if a == |s| {
      head, tail := s, [];
      assert s[..a] == s;
      assert s + Strip(s) + [] == s;
    } else {
      var e := |s| - TrailingSpaces(s);
      TrailIsSpace(s);
      head, tail := s[..a], s[e..];
      assert s == head + s[a..e] + tail;
    }
  }

  /** A text that starts visibly strips to a text with the same start. */
  lemma StripVisibleHead(s: string)
    requires s != [] && !IsSpace(s[0])
    ensures Strip(s) != [] && Strip(s)[0] == s[0]
  {
    assert LeadingSpaces(s) == 0;
  }

  /** Strip is determined by its shape: whatever sits between a whitespace
      head and a whitespace tail and starts and ends visibly is the result. */
  lemma StripUnique(head: string, m: string, tail: string)
    requires AllSpace(head) && AllSpace(tail)
    requires m == [] || (!IsSpace(m[0]) && !IsSpace(m[|m| - 1]))
    ensures Strip(head + m + tail) == m
  {
    var s := head + m + tail;
    var a := LeadingSpaces(s);
    if m == [] {
      assert a == |s|;
    } else {
      assert s[|head|] == m[0];
      assert a == |head|;
      var b := TrailingSpaces(s);
      assert s[|s| - 1 - |tail|] == m[|m| - 1];
      assert b == |tail|;
      assert s[|head|..|s| - |tail|] == m;
    }
  }

  lemma {:induction false} BlankIffAllSpace(s: string)
    ensures Blank(s) <==> !HasVisible(s)
  {
    var head, tail := StripSlice(s);
    if Blank(s) {
      assert s == head + tail;
    } else {
      assert s[|head|] == Strip(s)[0];
    }
  }

  /** The characters of `s` that satisfy `p`, in order. */
  function Filter(p: char -> bool, s: string): (r: string)
    ensures |r| <= |s|
    ensures forall i :: 0 <= i < |r| ==> p(r[i])
  {
    if s == [] then []
    else (if p(s[0]) then [s[0]] else []) + Filter(p, s[1..])
  }

  lemma {:induction false} FilterConcat(p: char -> bool, a: string, b: string)
    ensures Filter(p, a + b) == Filter(p, a) + Filter(p, b)
    decreases |a|
  {
    if a != [] {
      assert (a + b)[1..] == a[1..] + b;
      FilterConcat(p, a[1..], b);
    } else {
      assert a + b == b;
    }
  }

  lemma {:induction false} FilterNone(p: char -> bool, s: string)
    requires forall i :: 0 <= i < |s| ==> !p(s[i])
    ensures Filter(p, s) == []
    decreases |s|
  {
    if s != [] {
      FilterNone(p, s[1..]);
    }
  }

  /** `a` can be obtained from `b` by deleting characters. */
  predicate IsSubsequence(a: string, b: string)
    decreases |b|
  {
    if b == [] then a == []
    else IsSubsequence(a, b[1..]) || (a != [] && a[0] == b[0] && IsSubsequence(a[1..], b[1..]))
  }

  /** Deleting a prefix of the longer string keeps a subsequence one. */
  lemma {:induction false} SubsequenceOfSuffix(a: string, b: string, k: nat)
    requires k <= |b| && IsSubsequence(a, b[k..])
    ensures IsSubsequence(a, b)
    decreases k
  {
    if k > 0 {
      assert b[k - 1..][1..] == b[k..];
      SubsequenceOfSuffix(a, b, k - 1);
    }
  }
}
