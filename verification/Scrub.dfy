/** The byte scrubber (internal/tools/scrubhar/scrub.go): the name=value passes and the
    Cookie: header pass of ScrubBytes. */
module Scrub {

  newtype byte = x: int | 0 <= x < 256
  type Bytes = seq<byte>

  const LF: byte := 10
  const CR: byte := 13
  const EQUALS: byte := 61

  // "SCRUBBED"
  const SENTINEL: Bytes := [83, 67, 82, 85, 66, 66, 69, 68]
  // "Cookie:" and its lower-case form
  const HEADER: Bytes := [67, 111, 111, 107, 105, 101, 58]
  const FOLDED_HEADER: Bytes := [99, 111, 111, 107, 105, 101, 58]
  // "Cookie: SCRUBBED"
  const SCRUBBED_HEADER: Bytes := [67, 111, 111, 107, 105, 101, 58, 32, 83, 67, 82, 85, 66, 66, 69, 68]
  // "SNlM0e", "FdrFJe", "at", "f.sid"
  const SNLM0E: Bytes := [83, 78, 108, 77, 48, 101]
  const FDRFJE: Bytes := [70, 100, 114, 70, 74, 101]
  const AT: Bytes := [97, 116]
  const FSID: Bytes := [102, 46, 115, 105, 100]

  /** The bytes that end a value: & space " and line feed. */
  predicate IsEnd(c: byte) { c == 38 || c == 32 || c == 34 || c == LF }

  predicate Plain(w: Bytes) { forall i :: 0 <= i < |w| ==> !IsEnd(w[i]) }

  predicate OccursAt(s: Bytes, p: Bytes, i: int) {
    0 <= i && i + |p| <= |s| && s[i..i + |p|] == p
  }

  /** bytes.Index */
  function IndexOf(s: Bytes, p: Bytes): (r: int)
    ensures r < 0 ==> forall j :: !OccursAt(s, p, j)
    ensures r >= 0 ==> OccursAt(s, p, r) && forall j :: j < r ==> !OccursAt(s, p, j)
  {
    IndexFrom(s, p, 0)
  }

  function IndexFrom(s: Bytes, p: Bytes, from: nat): (r: int)
    requires from <= |s| && forall j :: j < from ==> !OccursAt(s, p, j)
    ensures r < 0 ==> forall j :: !OccursAt(s, p, j)
    ensures r >= 0 ==> OccursAt(s, p, r) && forall j :: j < r ==> !OccursAt(s, p, j)
    decreases |s| - from
  {
    if OccursAt(s, p, from) then from
    else if from == |s| then -1
    else IndexFrom(s, p, from + 1)
  }

  /** Length of the value at the front of `s`. */
  function ValueLen(s: Bytes): (n: nat)
    ensures n <= |s| && Plain(s[..n]) && (n < |s| ==> IsEnd(s[n]))
  {
    if s == [] || IsEnd(s[0]) then 0 else 1 + ValueLen(s[1..])
  }

  // ----- replaceQueryParam

  /** What is left after the first `p` and its value. */
  function After(s: Bytes, p: Bytes): (r: Bytes)
    requires p != [] && IndexOf(s, p) >= 0
    ensures |r| < |s|
  {
    var rest := s[IndexOf(s, p) + |p|..];
    rest[ValueLen(rest)..]
  }

  /** What one pass computes: keep everything up to and including the first `p`, put
      `ph` for its value, and go on behind the value. */
  function Replace(s: Bytes, p: Bytes, ph: Bytes): Bytes
    requires p != []
    decreases |s|
  {
    if IndexOf(s, p) < 0 then s
    else s[..IndexOf(s, p)] + p + ph + Replace(After(s, p), p, ph)
  }

  lemma Assoc(a: Bytes, b: Bytes, c: Bytes)
    ensures a + b + c == a + (b + c)
  {
  }

  lemma ValueLenIs(s: Bytes, n: nat)
    requires n <= |s| && Plain(s[..n]) && (n < |s| ==> IsEnd(s[n]))
    ensures ValueLen(s) == n
  {
    assert forall i :: 0 <= i < n ==> s[i] == s[..n][i];
    assert forall i :: 0 <= i < ValueLen(s) ==> s[i] == s[..ValueLen(s)][i];
  }

  lemma AfterIs(s: Bytes, at: nat, end: nat, p: Bytes)
    requires p != [] && at <= |s| && IndexOf(s[at..], p) >= 0
    requires at + IndexOf(s[at..], p) + |p| <= end <= |s|
    requires Plain(s[at + IndexOf(s[at..], p) + |p|..end]) && (end < |s| ==> IsEnd(s[end]))
    ensures After(s[at..], p) == s[end..]
  {
    var start := at + IndexOf(s[at..], p) + |p|;
    var rest := s[start..];
    assert s[at..][IndexOf(s[at..], p) + |p|..] == rest;
    assert rest[..end - start] == s[start..end];
    ValueLenIs(rest, end - start);
    assert rest[end - start..] == s[end..];
  }

  method SkipValue(input: Bytes, start: nat) returns (at: nat)
    requires start <= |input|
    ensures start <= at <= |input| && Plain(input[start..at]) && (at < |input| ==> IsEnd(input[at]))
  {
    at := start;
    while at < |input| && !IsEnd(input[at])
      invariant start <= at <= |input|
      invariant forall k :: start <= k < at ==> !IsEnd(input[k])
    {
      at := at + 1;
    }
  }

  /** `out` is the replaced form of `input` before `at`. */
  predicate ReplacedUpTo(input: Bytes, at: nat, p: Bytes, ph: Bytes, out: Bytes)
    requires p != [] && at <= |input|
  {
    out + Replace(input[at..], p, ph) == Replace(input, p, ph)
  }

  lemma NothingReplaced(input: Bytes, p: Bytes, ph: Bytes)
    requires p != []
    ensures ReplacedUpTo(input, 0, p, ph, [])
  {
    assert input[0..] == input;
  }

  lemma ReplaceStep(s: Bytes, p: Bytes, ph: Bytes, pre: Bytes, rest: Bytes)
    requires p != [] && IndexOf(s, p) >= 0 && pre == s[..IndexOf(s, p)] && rest == After(s, p)
    ensures Replace(s, p, ph) == pre + p + ph + Replace(rest, p, ph)
  {
    hide IndexOf, After;
  }

  lemma ReplaceNext(input: Bytes, at: nat, idx: nat, end: nat, p: Bytes, ph: Bytes)
    requires p != [] && at < |input| && idx == IndexOf(input[at..], p)
    requires at + idx + |p| <= end <= |input|
    requires Plain(input[at + idx + |p|..end]) && (end < |input| ==> IsEnd(input[end]))
    ensures Replace(input[at..], p, ph) == input[at..at + idx] + p + ph + Replace(input[end..], p, ph)
  {
    hide Plain, IsEnd, IndexOf, Replace, After;
    assert input[at..][..idx] == input[at..at + idx];
    AfterIs(input, at, end, p);
    ReplaceStep(input[at..], p, ph, input[at..at + idx], input[end..]);
  }

  lemma ValueReplaced(input: Bytes, at: nat, idx: nat, end: nat, p: Bytes, ph: Bytes, out: Bytes)
    requires p != [] && at < |input| && idx == IndexOf(input[at..], p) && ReplacedUpTo(input, at, p, ph, out)
    requires at + idx + |p| <= end <= |input|
    requires Plain(input[at + idx + |p|..end]) && (end < |input| ==> IsEnd(input[end]))
    ensures ReplacedUpTo(input, end, p, ph, out + (input[at..at + idx] + p + ph))
  {
    hide Plain, IsEnd, IndexOf, Replace;
    ReplaceNext(input, at, idx, end, p, ph);
    Assoc(out, input[at..at + idx] + p + ph, Replace(input[end..], p, ph));
  }

  lemma RestCopied(input: Bytes, at: nat, p: Bytes, ph: Bytes, out: Bytes)
    requires p != [] && at <= |input| && ReplacedUpTo(input, at, p, ph, out)
    requires IndexOf(input[at..], p) < 0 || at == |input|
    ensures out + input[at..] == Replace(input, p, ph)
    ensures at == |input| ==> out == Replace(input, p, ph)
  {
    assert at == |input| ==> input[at..] == [];
    assert out + [] == out;
  }

  method ReplaceQueryParam(input: Bytes, name: Bytes, placeholder: Bytes) returns (out: Bytes)
    ensures out == Replace(input, name + [EQUALS], placeholder)
  {
    hide Replace, ReplacedUpTo, IndexOf, Plain, IsEnd;
    var prefix := name + [EQUALS];
    out := [];
    var at := 0;
    NothingReplaced(input, prefix, placeholder);
    while at < |input|
      invariant 0 <= at <= |input| && ReplacedUpTo(input, at, prefix, placeholder, out)
    {
      var idx := IndexOf(input[at..], prefix);
      if idx < 0 {
        RestCopied(input, at, prefix, placeholder, out);
        out := out + input[at..];
        return;
      }
      var end := SkipValue(input, at + idx + |prefix|);
      ValueReplaced(input, at, idx, end, prefix, placeholder, out);
      out := out + (input[at..at + idx] + prefix + placeholder);
      at := end;
    }
    RestCopied(input, at, prefix, placeholder, out);
  }

  /** A search prefix that a value terminator or a placeholder cannot interfere with:
      name bytes are neither terminators nor '=', then a single '='. */
  predicate SafePrefix(p: Bytes) {
    p != [] && Plain(p) && p[|p| - 1] == EQUALS && forall i :: 0 <= i < |p| - 1 ==> p[i] != EQUALS
  }

  predicate SafePlaceholder(ph: Bytes) { Plain(ph) && EQUALS !in ph }

  /** At `k` stands the placeholder and nothing else of a value. */
  predicate ScrubbedAt(s: Bytes, k: int, ph: Bytes) {
    OccursAt(s, ph, k) && (k + |ph| == |s| || IsEnd(s[k + |ph|]))
  }

  /** Every `p` in `s` is followed by exactly the placeholder. */
  ghost predicate Clean(s: Bytes, p: Bytes, ph: Bytes) {
    forall i :: OccursAt(s, p, i) ==> ScrubbedAt(s, i + |p|, ph)
  }

  // ----- splitting at a terminator

  lemma OccursPrefix(a: Bytes, x: Bytes, p: Bytes, i: int)
    requires 0 <= i && i + |p| <= |a|
    ensures OccursAt(a, p, i) <==> OccursAt(a + x, p, i)
  {
    assert (a + x)[i..i + |p|] == a[i..i + |p|];
  }

  lemma OccursSuffix(a: Bytes, b: Bytes, p: Bytes, i: int)
    requires i >= 0
    ensures OccursAt(b, p, i) <==> OccursAt(a + b, p, |a| + i)
  {
    if i + |p| <= |b| {
      assert (a + b)[|a| + i..|a| + i + |p|] == b[i..i + |p|];
    }
  }

  lemma OccursPlain(s: Bytes, p: Bytes, i: int)
    requires OccursAt(s, p, i) && Plain(p)
    ensures forall k :: i <= k < i + |p| ==> !IsEnd(s[k])
  {
    assert forall k :: i <= k < i + |p| ==> s[k] == s[i..i + |p|][k - i];
  }

  /** An occurrence of a terminator-free prefix lies wholly on one side of a terminator. */
  lemma OccursSides(a: Bytes, t: byte, b: Bytes, p: Bytes, i: int)
    requires p != [] && Plain(p) && IsEnd(t)
    ensures OccursAt(a + [t] + b, p, i) <==> (OccursAt(a, p, i) || OccursAt(b, p, i - |a| - 1))
  {
    var x := a + [t] + b;
    assert x[|a|] == t;
    if OccursAt(x, p, i) {
      OccursPlain(x, p, i);
    }
    if 0 <= i && i + |p| <= |a| {
      OccursPrefix(a, [t] + b, p, i);
      assert a + ([t] + b) == x;
    } else if i > |a| {
      OccursSuffix(a + [t], b, p, i - |a| - 1);
    }
  }

  lemma IndexIs(s: Bytes, p: Bytes, i: int)
    requires OccursAt(s, p, i) && forall j :: j < i ==> !OccursAt(s, p, j)
    ensures IndexOf(s, p) == i
  {
  }

  lemma IndexSplit(a: Bytes, t: byte, b: Bytes, p: Bytes)
    requires p != [] && Plain(p) && IsEnd(t)
    ensures IndexOf(a, p) >= 0 ==> IndexOf(a + [t] + b, p) == IndexOf(a, p)
    ensures IndexOf(a, p) < 0 && IndexOf(b, p) >= 0 ==> IndexOf(a + [t] + b, p) == |a| + 1 + IndexOf(b, p)
    ensures IndexOf(a, p) < 0 && IndexOf(b, p) < 0 ==> IndexOf(a + [t] + b, p) < 0
  {
    var x := a + [t] + b;
    var i, k := IndexOf(a, p), IndexOf(b, p);
    forall j ensures OccursAt(x, p, j) <==> (OccursAt(a, p, j) || OccursAt(b, p, j - |a| - 1)) {
      OccursSides(a, t, b, p, j);
    }
    if i >= 0 {
      IndexIs(x, p, i);
    } else if k >= 0 {
      assert OccursAt(x, p, |a| + 1 + k) by {
        OccursSides(a, t, b, p, |a| + 1 + k);
      }
      IndexIs(x, p, |a| + 1 + k);
    }
  }

  lemma ValueLenAppend(a: Bytes, t: byte, b: Bytes)
    requires IsEnd(t)
    ensures ValueLen(a + [t] + b) == ValueLen(a)
  {
    var x := a + [t] + b;
    if a != [] && !IsEnd(a[0]) {
      assert x[1..] == a[1..] + [t] + b;
      ValueLenAppend(a[1..], t, b);
    }
  }

  /** A pass works on the two sides of a terminator independently. */
  lemma ReplaceUnfold(s: Bytes, p: Bytes, ph: Bytes)
    requires p != []
    ensures IndexOf(s, p) < 0 ==> Replace(s, p, ph) == s
    ensures IndexOf(s, p) >= 0 ==> Replace(s, p, ph) == s[..IndexOf(s, p)] + p + ph + Replace(After(s, p), p, ph)
  {
  }

  lemma {:induction false} ReplaceSplit(a: Bytes, t: byte, b: Bytes, p: Bytes, ph: Bytes)
    requires p != [] && Plain(p) && IsEnd(t)
    ensures Replace(a + [t] + b, p, ph) == Replace(a, p, ph) + [t] + Replace(b, p, ph)
    decreases |a|
  {
    hide Replace, After, ValueLen, Plain, IsEnd;
    var x := a + [t] + b;
    IndexSplit(a, t, b, p);
    ReplaceUnfold(x, p, ph);
    ReplaceUnfold(a, p, ph);
    ReplaceUnfold(b, p, ph);
    if IndexOf(a, p) >= 0 {
      SplitLeft(a, t, b, p);
      var tail, head := After(a, p), a[..IndexOf(a, p)] + p + ph;
      ReplaceSplit(tail, t, b, p, ph);
      Assoc(head, Replace(tail, p, ph) + [t], Replace(b, p, ph));
      Assoc(head, Replace(tail, p, ph), [t]);
    } else if IndexOf(b, p) >= 0 {
      SplitRight(a, t, b, p);
      Assoc5(a + [t], b[..IndexOf(b, p)], p, ph, Replace(After(b, p), p, ph));
    }
  }

  lemma Assoc5(a: Bytes, b: Bytes, c: Bytes, d: Bytes, e: Bytes)
    ensures a + b + c + d + e == a + (b + c + d + e)
  {
    Assoc(a, b, c);
    Assoc(a, b + c, d);
    Assoc(a, b + c + d, e);
  }

  lemma SplitLeft(a: Bytes, t: byte, b: Bytes, p: Bytes)
    requires p != [] && IsEnd(t) && IndexOf(a, p) >= 0 && IndexOf(a + [t] + b, p) == IndexOf(a, p)
    ensures (a + [t] + b)[..IndexOf(a, p)] == a[..IndexOf(a, p)]
    ensures After(a + [t] + b, p) == After(a, p) + [t] + b
  {
    hide IndexOf, ValueLen, IsEnd;
    var n := IndexOf(a, p) + |p|;
    var rest := a[n..];
    CutSplit(a, t, b, IndexOf(a, p));
    CutSplit(a, t, b, n);
    ValueLenAppend(rest, t, b);
    CutSplit(rest, t, b, ValueLen(rest));
  }

  lemma CutSplit(a: Bytes, t: byte, b: Bytes, n: nat)
    requires n <= |a|
    ensures (a + [t] + b)[..n] == a[..n] && (a + [t] + b)[n..] == a[n..] + [t] + b
  {
  }

  lemma SplitRight(a: Bytes, t: byte, b: Bytes, p: Bytes)
    requires p != [] && IndexOf(b, p) >= 0 && IndexOf(a + [t] + b, p) == |a| + 1 + IndexOf(b, p)
    ensures (a + [t] + b)[..|a| + 1 + IndexOf(b, p)] == a + [t] + b[..IndexOf(b, p)]
    ensures After(a + [t] + b, p) == After(b, p)
  {
    hide IndexOf, ValueLen;
    var n := IndexOf(b, p) + |p|;
    assert (a + [t] + b)[|a| + 1 + n..] == b[n..];
  }

  lemma CleanSplit(a: Bytes, t: byte, b: Bytes, p: Bytes, ph: Bytes)
    requires SafePrefix(p) && SafePlaceholder(ph) && IsEnd(t)
    ensures Clean(a + [t] + b, p, ph) <==> Clean(a, p, ph) && Clean(b, p, ph)
  {
    var x := a + [t] + b;
    forall i | OccursAt(a, p, i)
      ensures OccursAt(x, p, i) && (ScrubbedAt(a, i + |p|, ph) <==> ScrubbedAt(x, i + |p|, ph))
    {
      OccursSides(a, t, b, p, i);
      ScrubbedLeft(a, t, b, i + |p|, ph);
    }
    forall j | OccursAt(b, p, j)
      ensures OccursAt(x, p, |a| + 1 + j) && (ScrubbedAt(b, j + |p|, ph) <==> ScrubbedAt(x, |a| + 1 + j + |p|, ph))
    {
      OccursSides(a, t, b, p, |a| + 1 + j);
      OccursSuffix(a + [t], b, ph, j + |p|);
    }
    forall i | OccursAt(x, p, i) ensures OccursAt(a, p, i) || OccursAt(b, p, i - |a| - 1) {
      OccursSides(a, t, b, p, i);
    }
  }

  lemma ScrubbedLeft(a: Bytes, t: byte, b: Bytes, k: int, ph: Bytes)
    requires SafePlaceholder(ph) && IsEnd(t) && 0 <= k <= |a|
    ensures ScrubbedAt(a, k, ph) <==> ScrubbedAt(a + [t] + b, k, ph)
  {
    var x := a + [t] + b;
    assert x[|a|] == t;
    if k + |ph| <= |a| {
      OccursPrefix(a, [t] + b, ph, k);
      assert a + ([t] + b) == x;
    } else if OccursAt(x, ph, k) {
      OccursPlain(x, ph, k);
    }
  }

  // ----- one terminator-free word

  lemma ReplaceWord(w: Bytes, p: Bytes, ph: Bytes)
    requires Plain(w) && p != []
    ensures Replace(w, p, ph) == if IndexOf(w, p) < 0 then w else w[..IndexOf(w, p)] + p + ph
  {
    var i := IndexOf(w, p);
    if i >= 0 {
      var rest := w[i + |p|..];
      assert ValueLen(rest) == |rest|;
      assert IndexOf([], p) < 0;
    }
  }

  lemma LastIsEquals(s: Bytes, p: Bytes, i: int)
    requires SafePrefix(p) && OccursAt(s, p, i)
    ensures s[i + |p| - 1] == EQUALS
  {
    assert s[i..i + |p|][|p| - 1] == s[i + |p| - 1];
  }

  /** In u + q + ph, an occurrence of p ends inside u + q. */
  lemma NotInPlaceholder(u: Bytes, q: Bytes, ph: Bytes, p: Bytes, i: int)
    requires SafePrefix(p) && SafePlaceholder(ph) && OccursAt(u + q + ph, p, i)
    ensures i + |p| <= |u| + |q|
    ensures forall tail :: OccursAt(u + q + tail, p, i)
  {
    var w := u + q + ph;
    LastIsEquals(w, p, i);
    assert forall e :: |u| + |q| <= e < |w| ==> w[e] == ph[e - |u| - |q|];
    assert forall e :: |u| + |q| <= e < |w| ==> w[e] in ph;
    forall tail ensures OccursAt(u + q + tail, p, i) {
      OccursPrefix(u + q, ph, p, i);
      OccursPrefix(u + q, tail, p, i);
    }
  }

  lemma WordIndex(w: Bytes, p: Bytes) returns (u: Bytes, v: Bytes)
    requires IndexOf(w, p) >= 0
    ensures w == u + p + v && |u| == IndexOf(w, p) && u == w[..|u|]
  {
    var i := IndexOf(w, p);
    u, v := w[..i], w[i + |p|..];
  }

  lemma OccursHere(u: Bytes, p: Bytes, v: Bytes)
    ensures OccursAt(u + p + v, p, |u|)
    ensures OccursAt(u + p + v, v, |u| + |p|)
  {
    assert (u + p + v)[|u|..|u| + |p|] == p;
    assert (u + p + v)[|u| + |p|..|u| + |p| + |v|] == v;
  }

  /** Where p first occurs at |u| in u + p + v, it occurs only there in u + p + ph. */
  lemma OnlyOccurrence(u: Bytes, p: Bytes, v: Bytes, ph: Bytes)
    requires SafePrefix(p) && SafePlaceholder(ph) && IndexOf(u + p + v, p) == |u|
    ensures forall i :: OccursAt(u + p + ph, p, i) <==> i == |u|
  {
    OccursHere(u, p, ph);
    forall i | OccursAt(u + p + ph, p, i) ensures i == |u| {
      NotInPlaceholder(u, p, ph, p, i);
      assert OccursAt(u + p + v, p, i);
    }
  }

  lemma WordReplaced(w: Bytes, p: Bytes, ph: Bytes)
    requires SafePrefix(p) && SafePlaceholder(ph) && Plain(w)
    ensures Clean(Replace(w, p, ph), p, ph)
    ensures Clean(w, p, ph) ==> Replace(w, p, ph) == w
    ensures Replace(Replace(w, p, ph), p, []) == Replace(w, p, [])
  {
    hide Replace, IndexOf;
    ReplaceWord(w, p, ph);
    ReplaceWord(w, p, []);
    if IndexOf(w, p) >= 0 {
      var u, v := WordIndex(w, p);
      var r := u + p + ph;
      OnlyOccurrence(u, p, v, ph);
      OccursHere(u, p, ph);
      assert Plain(r) by {
        assert forall i :: 0 <= i < |u| ==> u[i] == w[i];
      }
      ReplaceWord(r, p, []);
      assert r[..|u|] == u;
      if Clean(w, p, ph) {
        WordTail(u, p, v, ph);
      }
    }
  }

  lemma WordTail(u: Bytes, p: Bytes, v: Bytes, ph: Bytes)
    requires Plain(u + p + v) && Clean(u + p + v, p, ph)
    ensures v == ph
  {
    var w := u + p + v;
    OccursHere(u, p, v);
    assert ScrubbedAt(w, |u| + |p|, ph);
    assert w[|u| + |p|..|u| + |p| + |v|] == v;
  }

  /** In the replaced word u + q + ph an occurrence of p is one the word had already, and its
      placeholder is still in place. */
  lemma OccurrenceKept(u: Bytes, q: Bytes, v: Bytes, p: Bytes, ph: Bytes, i: int)
    requires SafePrefix(p) && SafePrefix(q) && SafePlaceholder(ph) && Plain(u + q + v)
    requires Clean(u + q + v, p, ph) && OccursAt(u + q + ph, p, i)
    ensures ScrubbedAt(u + q + ph, i + |p|, ph)
  {
    NotInPlaceholder(u, q, ph, p, i);
    assert OccursAt(u + q + v, p, i);
    if i + |p| < |u| + |q| {
      EarlierWouldOverlap(u, q, v, ph, i + |p|);
    } else {
      OccursHere(u + q, ph, []);
      assert u + q + ph + [] == u + q + ph;
    }
  }

  /** A pass for q leaves a word that is clean for p clean for p. */
  lemma WordKeptClean(w: Bytes, p: Bytes, q: Bytes, ph: Bytes)
    requires SafePrefix(p) && SafePrefix(q) && SafePlaceholder(ph) && Plain(w)
    requires Clean(w, p, ph)
    ensures Clean(Replace(w, q, ph), p, ph)
  {
    hide IndexOf, Replace, ScrubbedAt, OccursAt, Plain;
    ReplaceWord(w, q, ph);
    if IndexOf(w, q) >= 0 {
      var u, v := WordIndex(w, q);
      forall i | OccursAt(u + q + ph, p, i) ensures ScrubbedAt(u + q + ph, i + |p|, ph) {
        OccurrenceKept(u, q, v, p, ph, i);
      }
    }
  }

  lemma InsideOccurrence(s: Bytes, p: Bytes, i: int, e: int)
    requires OccursAt(s, p, i) && i <= e < i + |p|
    ensures s[e] in p
  {
    assert s[e] == s[i..i + |p|][e - i];
  }

  /** The placeholder at `k` would run over the '=' that ends q. */
  lemma EarlierWouldOverlap(u: Bytes, q: Bytes, v: Bytes, ph: Bytes, k: nat)
    requires SafePrefix(q) && SafePlaceholder(ph) && Plain(u + q + v) && k < |u| + |q|
    ensures !ScrubbedAt(u + q + v, k, ph)
  {
    var w := u + q + v;
    var e := |u| + |q| - 1;
    assert w[e] == EQUALS;
    if OccursAt(w, ph, k) && e < k + |ph| {
      InsideOccurrence(w, ph, k, e);
    }
  }

  // ----- from words to whole inputs

  lemma FirstWord(s: Bytes) returns (a: Bytes, t: byte, b: Bytes)
    requires !Plain(s)
    ensures s == a + [t] + b && Plain(a) && IsEnd(t)
  {
    var n := ValueLen(s);
    assert s[..|s|] == s;
    a, t, b := s[..n], s[n], s[n + 1..];
  }

  /** One pass: afterwards every `name=` is followed by exactly the placeholder; an input
      that already is so is left alone, and no other is; and erasing the values gives
      the same bytes before and after. */
  lemma {:induction false} OnePass(s: Bytes, p: Bytes, ph: Bytes)
    requires SafePrefix(p) && SafePlaceholder(ph)
    ensures Clean(Replace(s, p, ph), p, ph)
    ensures Replace(s, p, ph) == s <==> Clean(s, p, ph)
    ensures Replace(Replace(s, p, ph), p, []) == Replace(s, p, [])
    decreases |s|
  {
    hide Replace, IndexOf, IsEnd, Clean;
    if Plain(s) {
      WordReplaced(s, p, ph);
    } else {
      var a, t, b := FirstWord(s);
      WordReplaced(a, p, ph);
      OnePass(b, p, ph);
      ReplaceSplit(a, t, b, p, ph);
      ReplaceSplit(a, t, b, p, []);
      ReplaceSplit(Replace(a, p, ph), t, Replace(b, p, ph), p, []);
      CleanSplit(a, t, b, p, ph);
      CleanSplit(Replace(a, p, ph), t, Replace(b, p, ph), p, ph);
    }
  }

  /** An input in pieces: kept bytes and a value, and so on, up to a last stretch of kept
      bytes. */
  datatype Pieces = Rest(kept: Bytes) | Piece(kept: Bytes, value: Bytes, more: Pieces)

  function Original(c: Pieces): Bytes {
    match c
    case Rest(kept) => kept
    case Piece(kept, value, more) => kept + value + Original(more)
  }

  function Filled(c: Pieces, ph: Bytes): Bytes {
    match c
    case Rest(kept) => kept
    case Piece(kept, _, more) => kept + ph + Filled(more, ph)
  }

  /** Every kept stretch but the last ends with `p` where it first occurs; the value has no
      '&', blank, '"' or line feed in it and one of them, or the end, behind it; the last
      stretch does not contain `p`. */
  ghost predicate Proper(c: Pieces, p: Bytes)
    requires p != []
  {
    match c
    case Rest(kept) => IndexOf(kept, p) < 0
    case Piece(kept, value, more) =>
      && IndexOf(kept, p) >= 0 && IndexOf(kept, p) + |p| == |kept|
      && (forall i :: 0 <= i < |value| ==> value[i] !in {38, 32, 34, 10})
      && (Original(more) == [] || Original(more)[0] in {38, 32, 34, 10})
      && Proper(more, p)
  }

  /** A pass cuts its input into kept bytes and values and puts the placeholder for each
      value: every byte outside the values stays, in its place, and every value goes. */
  lemma {:induction false} OnlyValuesChange(s: Bytes, p: Bytes, ph: Bytes) returns (c: Pieces)
    requires p != []
    ensures Proper(c, p) && Original(c) == s && Filled(c, ph) == Replace(s, p, ph)
    decreases |s|
  {
    hide IndexOf, Replace, After;
    ReplaceUnfold(s, p, ph);
    if IndexOf(s, p) < 0 {
      c := Rest(s);
    } else {
      var more := OnlyValuesChange(After(s, p), p, ph);
      var head, value := HeadAndValue(s, p);
      c := Piece(head, value, more);
    }
  }

  lemma HeadAndValue(s: Bytes, p: Bytes) returns (head: Bytes, value: Bytes)
    requires p != [] && IndexOf(s, p) >= 0
    ensures s == head + value + After(s, p) && head == s[..IndexOf(s, p)] + p
    ensures forall i :: 0 <= i < |value| ==> value[i] !in {38, 32, 34, 10}
    ensures After(s, p) == [] || After(s, p)[0] in {38, 32, 34, 10}
    ensures IndexOf(head, p) >= 0 && IndexOf(head, p) + |p| == |head|
  {
    HeadEnds(s, p);
    var n := IndexOf(s, p) + |p|;
    var rest := s[n..];
    head, value := s[..n], rest[..ValueLen(rest)];
    assert After(s, p) == rest[ValueLen(rest)..];
    hide IndexOf, After, ValueLen;
    Rejoin(s, n);
    Rejoin(rest, |value|);
    Assoc(head, value, After(s, p));
  }

  lemma Rejoin(s: Bytes, n: nat)
    requires n <= |s|
    ensures s[..n] + s[n..] == s
  {
  }

  lemma HeadEnds(s: Bytes, p: Bytes)
    requires p != [] && IndexOf(s, p) >= 0
    ensures s[..IndexOf(s, p)] + p == s[..IndexOf(s, p) + |p|]
    ensures IndexOf(s[..IndexOf(s, p)] + p, p) == IndexOf(s, p)
  {
    var at := IndexOf(s, p);
    var h := s[..at] + p;
    assert s[..at + |p|] == h;
    forall j ensures OccursAt(h, p, j) ==> OccursAt(s, p, j) {
      if OccursAt(h, p, j) {
        assert h[j..j + |p|] == s[j..j + |p|];
      }
    }
    assert h[at..at + |p|] == p;
    IndexIs(h, p, at);
  }

  /** Scrubbing twice is scrubbing once. */
  lemma PassIdempotent(s: Bytes, p: Bytes, ph: Bytes)
    requires SafePrefix(p) && SafePlaceholder(ph)
    ensures Replace(Replace(s, p, ph), p, ph) == Replace(s, p, ph)
  {
    OnePass(s, p, ph);
    OnePass(Replace(s, p, ph), p, ph);
  }

  /** A later pass does not undo an earlier one, even when one name ends in the other. */
  lemma {:induction false} PassKeepsClean(s: Bytes, p: Bytes, q: Bytes, ph: Bytes)
    requires SafePrefix(p) && SafePrefix(q) && SafePlaceholder(ph)
    requires Clean(s, p, ph)
    ensures Clean(Replace(s, q, ph), p, ph)
    decreases |s|
  {
    hide Replace, IndexOf, IsEnd, Clean;
    if Plain(s) {
      WordKeptClean(s, p, q, ph);
    } else {
      var a, t, b := FirstWord(s);
      CleanSplit(a, t, b, p, ph);
      WordKeptClean(a, p, q, ph);
      PassKeepsClean(b, p, q, ph);
      ReplaceSplit(a, t, b, q, ph);
      CleanSplit(Replace(a, q, ph), t, Replace(b, q, ph), p, ph);
    }
  }

  // ----- the four passes

  function TokenPrefixes(): seq<Bytes> {
    [SNLM0E + [EQUALS], FDRFJE + [EQUALS], AT + [EQUALS], FSID + [EQUALS]]
  }

  predicate AllSafe(ps: seq<Bytes>) {
    forall k :: 0 <= k < |ps| ==> SafePrefix(ps[k])
  }

  lemma TokensAreSafe()
    ensures SafePlaceholder(SENTINEL)
    ensures AllSafe(TokenPrefixes())
  {
  }

  function Passes(s: Bytes, ps: seq<Bytes>): Bytes
    requires AllSafe(ps)
    decreases |ps|
  {
    if ps == [] then s else Passes(Replace(s, ps[0], SENTINEL), ps[1..])
  }

  ghost predicate AllClean(s: Bytes, ps: seq<Bytes>) {
    forall k :: 0 <= k < |ps| ==> Clean(s, ps[k], SENTINEL)
  }

  lemma {:induction false} PassesKeepClean(s: Bytes, p: Bytes, ps: seq<Bytes>)
    requires SafePrefix(p) && AllSafe(ps)
    requires Clean(s, p, SENTINEL)
    ensures Clean(Passes(s, ps), p, SENTINEL)
    decreases |ps|
  {
    if ps != [] {
      TokensAreSafe();
      PassKeepsClean(s, p, ps[0], SENTINEL);
      PassesKeepClean(Replace(s, ps[0], SENTINEL), p, ps[1..]);
    }
  }

  /** After the passes for any list of names, all the names are clean at once; and the
      passes change nothing exactly when that was already so. */
  lemma {:induction false} PassesClean(s: Bytes, ps: seq<Bytes>)
    requires AllSafe(ps)
    ensures AllClean(Passes(s, ps), ps)
    ensures AllClean(s, ps) ==> Passes(s, ps) == s
    decreases |ps|
  {
    if ps != [] {
      TokensAreSafe();
      var r := Replace(s, ps[0], SENTINEL);
      OnePass(s, ps[0], SENTINEL);
      PassesKeepClean(r, ps[0], ps[1..]);
      PassesClean(r, ps[1..]);
      hide Clean, Replace, SafePrefix, SafePlaceholder;
      CleanOneMore(Passes(s, ps), ps);
      CleanOneMore(s, ps);
    }
  }

  lemma CleanOneMore(s: Bytes, ps: seq<Bytes>)
    requires ps != []
    ensures AllClean(s, ps) <==> Clean(s, ps[0], SENTINEL) && AllClean(s, ps[1..])
  {
    hide Clean;
    assert forall k :: 0 < k < |ps| ==> ps[k] == ps[1..][k - 1];
  }

  // ----- replaceCookieHeader

  predicate Blank(c: byte) { c == 32 || c == 9 }

  function Indent(s: Bytes): (n: nat)
    ensures n <= |s| && (forall i :: 0 <= i < n ==> Blank(s[i])) && (n < |s| ==> !Blank(s[n]))
  {
    if s == [] || !Blank(s[0]) then 0 else 1 + Indent(s[1..])
  }

  function Fold(c: byte): byte { if 65 <= c <= 90 then c + 32 else c }

  /** bytes.EqualFold with "Cookie:" */
  predicate IsHeaderName(x: Bytes) {
    |x| == |HEADER| && forall i :: 0 <= i < |x| ==> Fold(x[i]) == FOLDED_HEADER[i]
  }

  /** hasCIHeaderPrefix(content, "Cookie:") */
  predicate HasHeader(content: Bytes) {
    var n := Indent(content);
    n + |HEADER| <= |content| && IsHeaderName(content[n..n + |HEADER|])
  }

  /** The line without its line feed and then without one carriage return. */
  function Content(line: Bytes): Bytes {
    var c := if line != [] && line[|line| - 1] == LF then line[..|line| - 1] else line;
    if c != [] && c[|c| - 1] == CR then c[..|c| - 1] else c
  }

  function HeaderText(content: Bytes): Bytes {
    content[..Indent(content)] + SCRUBBED_HEADER
  }

  function ScrubLine(line: Bytes): Bytes {
    var c := Content(line);
    if HasHeader(c) then HeaderText(c) + line[|c|..] else line
  }

  /** Length of the first line, its line feed included. */
  function LineLen(s: Bytes): (n: nat)
    ensures n <= |s| && (s != [] ==> n > 0)
    ensures forall i :: 0 <= i < n - 1 ==> s[i] != LF
    ensures n < |s| ==> s[n - 1] == LF
  {
    if s == [] then 0 else if s[0] == LF then 1 else 1 + LineLen(s[1..])
  }

  function ScrubHeaders(s: Bytes): Bytes {
    if s == [] then [] else ScrubLine(s[..LineLen(s)]) + ScrubHeaders(s[LineLen(s)..])
  }

  method HasCIHeaderPrefix(content: Bytes) returns (has: bool)
    ensures has == HasHeader(content)
  {
    if |content| < |HEADER| {
      return false;
    }
    var i := 0;
    while i < |content| && Blank(content[i])
      invariant 0 <= i <= |content|
      invariant Indent(content) == i + Indent(content[i..])
    {
      assert content[i..][1..] == content[i + 1..];
      i := i + 1;
    }
    if i + |HEADER| > |content| {
      return false;
    }
    has := IsHeaderName(content[i..i + |HEADER|]);
  }

  method LeadingWhitespace(b: Bytes) returns (run: Bytes)
    ensures run == b[..Indent(b)]
  {
    for i := 0 to |b|
      invariant Indent(b) == i + Indent(b[i..])
    {
      if !Blank(b[i]) {
        return b[..i];
      }
      assert b[i..][1..] == b[i + 1..];
    }
    return b;
  }

  method WriteLine(line: Bytes) returns (r: Bytes)
    ensures r == ScrubLine(line)
  {
    var content := Content(line);
    var has := HasCIHeaderPrefix(content);
    if has {
      var indent := LeadingWhitespace(content);
      assert HEADER + [32] + SENTINEL == SCRUBBED_HEADER;
      return indent + (HEADER + [32] + SENTINEL) + line[|content|..];
    }
    return line;
  }

  /** `out` is the scrubbed form of the lines of `input` before `at`. */
  predicate DoneUpTo(input: Bytes, at: nat, out: Bytes)
    requires at <= |input|
  {
    out + ScrubHeaders(input[at..]) == ScrubHeaders(input)
  }

  lemma NoneDone(input: Bytes)
    ensures DoneUpTo(input, 0, [])
  {
    assert input[0..] == input;
  }

  lemma LineDone(input: Bytes, at: nat, n: nat, out: Bytes)
    requires at < |input| && DoneUpTo(input, at, out) && n == LineLen(input[at..])
    ensures 0 < n <= |input| - at && DoneUpTo(input, at + n, out + ScrubLine(input[at..at + n]))
  {
    hide ScrubLine, LineLen;
    var s := input[at..];
    assert s[..n] == input[at..at + n] && s[n..] == input[at + n..];
    Assoc(out, ScrubLine(input[at..at + n]), ScrubHeaders(input[at + n..]));
    assert ScrubHeaders(s) == ScrubLine(input[at..at + n]) + ScrubHeaders(input[at + n..]);
    hide ScrubHeaders;
  }

  lemma LinesDone(input: Bytes, out: Bytes)
    requires DoneUpTo(input, |input|, out)
    ensures out == ScrubHeaders(input)
  {
    assert input[|input|..] == [] && out + [] == out;
  }

  method ReplaceCookieHeader(input: Bytes) returns (out: Bytes)
    ensures out == ScrubHeaders(input)
  {
    hide ScrubLine, ScrubHeaders, LineLen, DoneUpTo;
    out := [];
    var at := 0;
    NoneDone(input);
    while at < |input|
      invariant 0 <= at <= |input| && DoneUpTo(input, at, out)
    {
      var n := LineLen(input[at..]);
      LineDone(input, at, n, out);
      var line := WriteLine(input[at..at + n]);
      out := out + line;
      at := at + n;
    }
    LinesDone(input, out);
  }

  /** A Cookie: line carries the sentinel and nothing else. */
  predicate LineClean(line: Bytes) {
    HasHeader(Content(line)) ==> Content(line) == HeaderText(Content(line))
  }

  predicate HeadersClean(s: Bytes)
    decreases |s|
  {
    s != [] ==> LineClean(s[..LineLen(s)]) && HeadersClean(s[LineLen(s)..])
  }

  predicate OneLine(line: Bytes) {
    line != [] && forall i :: 0 <= i < |line| - 1 ==> line[i] != LF
  }

  lemma LineLenIs(s: Bytes, n: nat)
    requires 0 < n <= |s| && (n < |s| ==> s[n - 1] == LF) && forall i :: 0 <= i < n - 1 ==> s[i] != LF
    ensures LineLen(s) == n
  {
  }

  lemma IndentOf(n: nat, s: Bytes)
    requires n < |s| && !Blank(s[n]) && forall i :: 0 <= i < n ==> Blank(s[i])
    ensures Indent(s) == n
  {
  }

  lemma ScrubbedHeaderHas(ind: Bytes)
    requires forall i :: 0 <= i < |ind| ==> Blank(ind[i])
    ensures Indent(ind + SCRUBBED_HEADER) == |ind| && HasHeader(ind + SCRUBBED_HEADER)
  {
    ScrubbedHeaderName();
    HeaderBehind(ind, SCRUBBED_HEADER);
  }

  lemma ScrubbedHeaderName()
    ensures IsHeaderName(SCRUBBED_HEADER[..|HEADER|]) && !Blank(SCRUBBED_HEADER[0])
  {
  }

  lemma HeaderBehind(ind: Bytes, tail: Bytes)
    requires forall i :: 0 <= i < |ind| ==> Blank(ind[i])
    requires |HEADER| <= |tail| && IsHeaderName(tail[..|HEADER|]) && !Blank(tail[0])
    ensures Indent(ind + tail) == |ind| && HasHeader(ind + tail)
  {
    hide IsHeaderName, Indent;
    var h := ind + tail;
    BehindIndent(ind, tail);
    assert h[|ind|..|ind| + |HEADER|] == h[|ind|..][..|HEADER|];
  }

  lemma BehindIndent(ind: Bytes, tail: Bytes)
    requires (forall i :: 0 <= i < |ind| ==> Blank(ind[i])) && tail != [] && !Blank(tail[0])
    ensures Indent(ind + tail) == |ind| && (ind + tail)[|ind|..] == tail
  {
    assert (ind + tail)[|ind|] == tail[0];
    IndentOf(|ind|, ind + tail);
  }

  lemma ScrubbedHeaderBytes()
    ensures EQUALS !in SCRUBBED_HEADER && LF !in SCRUBBED_HEADER
    ensures SCRUBBED_HEADER[|SCRUBBED_HEADER| - 1] != CR
  {
  }

  lemma NoneOf(ind: Bytes, tail: Bytes, x: byte)
    requires !Blank(x) && x !in tail && forall i :: 0 <= i < |ind| ==> Blank(ind[i])
    ensures x !in ind + tail
  {
  }

  lemma HeaderTextIsScrubbed(c: Bytes)
    ensures var h := HeaderText(c);
            && HasHeader(h) && HeaderText(h) == h
            && EQUALS !in h && LF !in h && h[|h| - 1] != CR && h[|h| - 1] != LF
  {
    hide HasHeader, Indent;
    var ind, tail := c[..Indent(c)], SCRUBBED_HEADER;
    ScrubbedHeaderHas(ind);
    ScrubbedHeaderBytes();
    NoneOf(ind, tail, EQUALS);
    NoneOf(ind, tail, LF);
    assert (ind + tail)[..|ind|] == ind;
    assert (ind + tail)[|ind + tail| - 1] == tail[|tail| - 1];
  }

  predicate LineEnd(eol: Bytes) { eol == [] || eol == [LF] || eol == [CR] || eol == [CR, LF] }

  lemma ContentSplit(line: Bytes) returns (eol: Bytes)
    ensures line == Content(line) + eol && LineEnd(eol)
  {
    eol := line[|Content(line)|..];
  }

  lemma ContentOf(h: Bytes, eol: Bytes)
    requires h != [] && h[|h| - 1] != CR && h[|h| - 1] != LF && LineEnd(eol)
    ensures Content(h + eol) == h
  {
    var line := h + eol;
    if eol == [CR, LF] {
      assert line[..|line| - 1] == h + [CR];
      assert (h + [CR])[..|h|] == h;
    } else if eol != [] {
      assert line[..|line| - 1] == h;
    }
  }

  predicate Terminated(line: Bytes) { line != [] && line[|line| - 1] == LF }

  lemma ScrubLineClean(line: Bytes)
    requires OneLine(line)
    ensures var r := ScrubLine(line);
            OneLine(r) && LineClean(r) && (Terminated(r) <==> Terminated(line))
    ensures LineClean(line) ==> ScrubLine(line) == line
  {
    var c := Content(line);
    if HasHeader(c) {
      var eol := ContentSplit(line);
      HeaderTextIsScrubbed(c);
      hide HeaderText, HasHeader;
      ContentOf(HeaderText(c), eol);
      assert line[|c|..] == eol;
      hide Content;
      LineShape(HeaderText(c), eol);
      assert Terminated(line) <==> Terminated(eol) by {
        TerminatedTail(line, c, eol);
      }
    }
  }

  lemma LineShape(h: Bytes, eol: Bytes)
    requires h != [] && LF !in h && LineEnd(eol)
    ensures OneLine(h + eol) && (Terminated(h + eol) <==> Terminated(eol))
  {
  }

  lemma TerminatedTail(line: Bytes, c: Bytes, eol: Bytes)
    requires OneLine(line) && line == c + eol && c == Content(line) && LineEnd(eol)
    ensures Terminated(line) <==> Terminated(eol)
  {
  }

  lemma ScrubHeadersAppend(line: Bytes, rest: Bytes)
    requires OneLine(line) && (rest == [] || Terminated(line))
    ensures LineLen(line + rest) == |line|
    ensures (line + rest)[..|line|] == line && (line + rest)[|line|..] == rest
    ensures HeadersClean(line + rest) <==> LineClean(line) && HeadersClean(rest)
  {
    LineLenIs(line + rest, |line|);
    assert (line + rest)[..|line|] == line && (line + rest)[|line|..] == rest;
  }

  lemma FirstLine(s: Bytes) returns (line: Bytes, rest: Bytes)
    requires s != []
    ensures s == line + rest && line == s[..LineLen(s)] && rest == s[LineLen(s)..]
    ensures OneLine(line) && (rest == [] || Terminated(line)) && |rest| < |s|
  {
    line, rest := s[..LineLen(s)], s[LineLen(s)..];
  }

  /** Blanks and tabs, then "Cookie:" in any case, spelled out. */
  predicate CookieText(s: Bytes, n: int) {
    && 0 <= n && n + 7 <= |s| && (forall k :: 0 <= k < n ==> s[k] in {32, 9})
    && s[n] in {67, 99} && s[n + 1] in {79, 111} && s[n + 2] in {79, 111} && s[n + 3] in {75, 107}
    && s[n + 4] in {73, 105} && s[n + 5] in {69, 101} && s[n + 6] == 58
  }

  lemma NameIff(x: Bytes)
    requires |x| == 7
    ensures IsHeaderName(x) <==>
              && x[0] in {67, 99} && x[1] in {79, 111} && x[2] in {79, 111} && x[3] in {75, 107}
              && x[4] in {73, 105} && x[5] in {69, 101} && x[6] == 58
  {
    FoldsTo(x[0], 99);
    FoldsTo(x[1], 111);
    FoldsTo(x[2], 111);
    FoldsTo(x[3], 107);
    FoldsTo(x[4], 105);
    FoldsTo(x[5], 101);
    FoldsTo(x[6], 58);
    hide Fold;
  }

  lemma FoldsTo(c: byte, f: byte)
    ensures Fold(c) == f <==> (c == f && !(65 <= f <= 90)) || (97 <= f <= 122 && c == f - 32)
  {
  }

  lemma HasHeaderIff(c: Bytes)
    ensures HasHeader(c) <==> exists n :: CookieText(c, n)
    ensures forall n :: CookieText(c, n) ==> n == Indent(c)
  {
    forall n | CookieText(c, n) ensures n == Indent(c) && HasHeader(c) {
      IndentOf(n, c);
      NameIff(c[n..n + 7]);
      hide IsHeaderName, Indent;
    }
    var n := Indent(c);
    if HasHeader(c) {
      NameIff(c[n..n + 7]);
      hide IsHeaderName, Indent;
      assert CookieText(c, n);
    }
  }

  /** The terminator is "\r\n" where the line ends in that, else its last byte where that is
      a line feed or a carriage return, else nothing. */
  lemma LineEnding(line: Bytes) returns (content: Bytes, eol: Bytes)
    ensures content == Content(line) && line == content + eol
    ensures var n := |line|;
            eol == (if n >= 2 && line[n - 2] == 13 && line[n - 1] == 10 then [13, 10]
                    else if n >= 1 && line[n - 1] in {10, 13} then [line[n - 1]]
                    else [])
    ensures forall k :: 0 <= k < |content| ==> content[k] == line[k]
  {
    content := Content(line);
    var n := |line|;
    if n >= 1 && line[n - 1] == 10 {
      var c := line[..n - 1];
      if n >= 2 && line[n - 2] == 13 {
        assert c[n - 2] == 13 && c[..n - 2] == line[..n - 2];
        eol := [13, 10];
      } else {
        assert n >= 2 ==> c[n - 2] == line[n - 2];
        eol := [10];
      }
    } else {
      eol := if n >= 1 && line[n - 1] == 13 then [13] else [];
    }
  }

  lemma CookieTextOfLine(line: Bytes, n: int)
    ensures CookieText(line, n) <==> CookieText(Content(line), n)
    ensures CookieText(line, n) ==> n + 7 <= |Content(line)| && line[..n] == Content(line)[..n]
  {
    var content, eol := LineEnding(line);
    if CookieText(line, n) {
      ContentLen(line, n + 6);
    }
  }

  /** A line is rewritten exactly when it is a Cookie: line, and then to its own indentation,
      the sentinel header and its own terminator. */
  lemma ScrubLineIs(line: Bytes) returns (content: Bytes, eol: Bytes)
    ensures content == Content(line) && line == content + eol
    ensures var n := |line|;
            eol == (if n >= 2 && line[n - 2] == 13 && line[n - 1] == 10 then [13, 10]
                    else if n >= 1 && line[n - 1] in {10, 13} then [line[n - 1]]
                    else [])
    ensures forall n :: CookieText(line, n) ==>
              n + 7 <= |content| &&
              ScrubLine(line) == line[..n] + [67, 111, 111, 107, 105, 101, 58, 32, 83, 67, 82, 85, 66, 66, 69, 68] + eol
    ensures (forall n :: !CookieText(line, n)) ==> ScrubLine(line) == line
    ensures HasHeader(content) <==> exists n :: CookieText(line, n)
  {
    content, eol := LineEnding(line);
    HasHeaderIff(content);
    forall n ensures CookieText(line, n) <==> CookieText(content, n)
             ensures CookieText(line, n) ==> n + 7 <= |content| && line[..n] == content[..n] {
      CookieTextOfLine(line, n);
    }
    hide Content, HasHeader, Indent, CookieText;
    assert line[|content|..] == eol;
  }

  /** The header pass works line by line. */
  lemma LineByLine(line: Bytes, rest: Bytes)
    requires line != [] && (forall k :: 0 <= k < |line| - 1 ==> line[k] != 10)
    requires rest == [] || line[|line| - 1] == 10
    ensures ScrubHeaders(line + rest) == ScrubLine(line) + ScrubHeaders(rest)
    ensures ScrubHeaders([]) == []
  {
    ScrubHeadersAppend(line, rest);
    hide ScrubLine, LineLen;
  }

  predicate LineStart(s: Bytes, i: int) { i == 0 || (0 < i <= |s| && s[i - 1] == 10) }

  /** The sentinel header stands at `j` and ends its line. */
  predicate SentinelHeaderAt(s: Bytes, j: nat) {
    && j + 16 <= |s| && s[j..j + 16] == [67, 111, 111, 107, 105, 101, 58, 32, 83, 67, 82, 85, 66, 66, 69, 68]
    && (|| j + 16 == |s| || s[j + 16] == 10
        || (s[j + 16] == 13 && (j + 17 == |s| || s[j + 17] == 10)))
  }

  lemma CleanLine(line: Bytes, n: nat)
    ensures LineClean(line) && CookieText(line, n) ==> SentinelHeaderAt(line, n)
  {
    if LineClean(line) && CookieText(line, n) {
      var content, eol := ScrubLineIs(line);
      assert content == HeaderText(content);
      HeaderTextEnds(content);
      hide Content, HasHeader, HeaderText, LineClean;
      CookieTextFront(line, content, n);
      hide CookieText;
      SentinelBefore(content[..n], eol);
      assert line == content[..n] + SCRUBBED_HEADER + eol;
    }
  }

  lemma HeaderTextEnds(c: Bytes)
    requires c == HeaderText(c)
    ensures c == c[..Indent(c)] + SCRUBBED_HEADER
  {
  }

  lemma CookieTextFront(line: Bytes, c: Bytes, n: nat)
    requires CookieText(line, n) && n + 7 <= |c| && c <= line
    ensures n == Indent(c)
  {
    assert forall k :: 0 <= k < |c| ==> c[k] == line[k];
    IndentOf(n, c);
  }

  lemma SentinelBefore(ind: Bytes, eol: Bytes)
    requires eol in {[], [10], [13], [13, 10]}
    ensures SentinelHeaderAt(ind + SCRUBBED_HEADER + eol, |ind|)
  {
    var line := ind + SCRUBBED_HEADER + eol;
    assert line[|ind|..|ind| + 16] == SCRUBBED_HEADER;
    assert line[|ind| + 16..] == eol;
    assert forall k :: |ind| + 16 <= k < |line| ==> line[k] == eol[k - |ind| - 16];
  }

  /** On a text whose header lines are clean, wherever a line starts with "Cookie:" in any
      case behind blanks and tabs, the rest of the line is the sentinel. */
  lemma {:induction false} CookieLinesScrubbed(s: Bytes, i: nat, n: nat)
    requires i <= |s|
    ensures HeadersClean(s) && LineStart(s, i) && CookieText(s[i..], n) ==> SentinelHeaderAt(s, i + n)
    decreases |s|
  {
    hide *;
    if HeadersClean(s) && LineStart(s, i) && CookieText(s[i..], n) {
      NotEmpty(s[i..], n);
      var line, rest := FirstCleanLine(s);
      if i == 0 {
        assert s[0..] == s;
        CookieInFirstLine(line, rest, n);
      } else {
        var m := LaterLine(line, rest, i);
        CookieLinesScrubbed(rest, m, n);
        SentinelShifts(line, rest, m + n);
      }
    }
  }

  lemma FirstCleanLine(s: Bytes) returns (line: Bytes, rest: Bytes)
    requires s != [] && HeadersClean(s)
    ensures s == line + rest && |rest| < |s|
    ensures OneLine(line) && (rest == [] || Terminated(line)) && LineClean(line) && HeadersClean(rest)
  {
    line, rest := FirstLine(s);
    hide LineLen, OneLine, Terminated, LineClean;
  }

  lemma CookieInFirstLine(line: Bytes, rest: Bytes, n: nat)
    requires OneLine(line) && (rest == [] || Terminated(line)) && LineClean(line) && CookieText(line + rest, n)
    ensures SentinelHeaderAt(line + rest, n)
  {
    hide *;
    InFirstLine(line, rest, n);
    CleanLine(line, n);
    SentinelStays(line, rest, n);
  }

  lemma NotEmpty(s: Bytes, n: nat)
    requires CookieText(s, n)
    ensures s != []
  {
  }

  lemma LaterLine(line: Bytes, rest: Bytes, i: nat) returns (m: nat)
    requires OneLine(line) && 0 < i <= |line + rest| && LineStart(line + rest, i)
    requires (line + rest)[i..] != []
    ensures m + |line| == i && m <= |rest| && LineStart(rest, m) && rest[m..] == (line + rest)[i..]
  {
    var s := line + rest;
    assert i <= |line| ==> s[i - 1] == line[i - 1];
    m := i - |line|;
    assert m > 0 ==> rest[m - 1] == s[i - 1];
  }

  lemma InFirstLine(line: Bytes, rest: Bytes, n: nat)
    requires OneLine(line) && (rest == [] || Terminated(line)) && CookieText(line + rest, n)
    ensures CookieText(line, n)
  {
    var s := line + rest;
    assert forall k :: 0 <= k < |line| ==> line[k] == s[k];
    assert forall k :: 0 <= k < n + 7 ==> s[k] != 10;
    assert |line| >= n + 7 by {
      if rest != [] {
        assert s[|line| - 1] == 10;
      }
    }
  }

  lemma SentinelStays(line: Bytes, rest: Bytes, n: nat)
    requires (rest == [] || Terminated(line)) && SentinelHeaderAt(line, n)
    ensures SentinelHeaderAt(line + rest, n)
  {
    var s := line + rest;
    assert s[n..n + 16] == line[n..n + 16];
    assert line[n + 15] == line[n..n + 16][15] == 68;
    assert forall k :: 0 <= k < |line| ==> line[k] == s[k];
  }

  lemma SentinelShifts(line: Bytes, rest: Bytes, j: nat)
    requires SentinelHeaderAt(rest, j)
    ensures SentinelHeaderAt(line + rest, |line| + j)
  {
    var s := line + rest;
    assert s[|line| + j..|line| + j + 16] == rest[j..j + 16];
  }

  /** After the header pass every Cookie: line is scrubbed; it changes nothing exactly
      when that was already so. */
  lemma {:induction false} HeaderPass(s: Bytes)
    ensures HeadersClean(ScrubHeaders(s))
    ensures ScrubHeaders(s) == s <==> HeadersClean(s)
    decreases |s|
  {
    if s != [] {
      hide LineLen, ScrubLine, LineClean;
      var line, rest := FirstLine(s);
      ScrubLineClean(line);
      HeaderPass(rest);
      assert rest == [] ==> ScrubHeaders(rest) == [];
      ScrubHeadersAppend(ScrubLine(line), ScrubHeaders(rest));
    }
  }

  // ----- the token passes leave scrubbed headers scrubbed

  lemma HeaderHasNoEquals(c: Bytes)
    requires HasHeader(c)
    ensures forall i :: 0 <= i < Indent(c) + |HEADER| ==> c[i] != EQUALS
  {
    var n := Indent(c);
    var x := c[n..n + |HEADER|];
    NameHasNoEquals(x);
    hide IsHeaderName, Indent;
    forall i | n <= i < n + |HEADER| ensures c[i] != EQUALS {
      assert c[i] == x[i - n];
    }
  }

  lemma NameHasNoEquals(x: Bytes)
    requires IsHeaderName(x)
    ensures EQUALS !in x && !Blank(x[0])
  {
    forall i | 0 <= i < |x| ensures x[i] != EQUALS {
      assert Fold(x[i]) == FOLDED_HEADER[i];
    }
    assert Fold(x[0]) == FOLDED_HEADER[0];
  }

  lemma IndentIsLocal(c: Bytes, d: Bytes)
    requires Indent(c) < |c| && Indent(c) < |d|
    requires forall i :: 0 <= i <= Indent(c) ==> c[i] == d[i]
    ensures Indent(d) == Indent(c)
  {
    IndentOf(Indent(c), d);
  }

  lemma HeaderIsLocal(c: Bytes, d: Bytes, m: nat)
    requires HasHeader(c) && Indent(c) + |HEADER| <= m <= |c| && m <= |d|
    requires forall i :: 0 <= i < m ==> c[i] == d[i]
    ensures HasHeader(d)
  {
    hide IsHeaderName, Indent;
    var n := Indent(c);
    IndentIsLocal(c, d);
    assert c[n..n + |HEADER|] == d[n..n + |HEADER|];
  }

  lemma ContentLen(line: Bytes, e: nat)
    requires e < |line| && line[e] != CR && line[e] != LF
    ensures e < |Content(line)| && Content(line) == line[..|Content(line)|]
  {
  }

  /** Two lines that agree up to and including an '=' both have the header, or neither. */
  lemma SameHeader(pre: Bytes, x: Bytes, y: Bytes)
    requires pre != [] && pre[|pre| - 1] == EQUALS && HasHeader(Content(pre + x))
    ensures HasHeader(Content(pre + y)) && EQUALS in Content(pre + y)
  {
    var e := |pre| - 1;
    ContentLen(pre + x, e);
    ContentLen(pre + y, e);
    var c, d := Content(pre + x), Content(pre + y);
    HeaderHasNoEquals(c);
    assert forall i :: 0 <= i <= e ==> c[i] == pre[i] && d[i] == pre[i];
    hide Content, HasHeader;
    assert c[e] == EQUALS && d[e] == EQUALS;
    HeaderIsLocal(c, d, e);
  }

  lemma ReplacePrefix(a: Bytes, p: Bytes, ph: Bytes) returns (pre: Bytes, x: Bytes, y: Bytes)
    requires SafePrefix(p) && IndexOf(a, p) >= 0
    ensures a == pre + x && Replace(a, p, ph) == pre + y
    ensures pre != [] && pre[|pre| - 1] == EQUALS
  {
    ReplaceUnfold(a, p, ph);
    hide Replace, IndexOf, After;
    var u, v := WordIndex(a, p);
    pre, x, y := u + p, v, ph + Replace(After(a, p), p, ph);
    Assoc(pre, ph, Replace(After(a, p), p, ph));
  }

  lemma LineKeptClean(a: Bytes, p: Bytes, ph: Bytes, eol: Bytes)
    requires SafePrefix(p) && LineClean(a + eol)
    ensures LineClean(Replace(a, p, ph) + eol)
  {
    ReplaceUnfold(a, p, ph);
    hide Replace, IndexOf, Content, HasHeader, HeaderText;
    if IndexOf(a, p) >= 0 {
      var pre, x, y := ReplacePrefix(a, p, ph);
      Assoc(pre, x, eol);
      Assoc(pre, y, eol);
      if HasHeader(Content(pre + (y + eol))) {
        SameHeader(pre, y + eol, x + eol);
        HeaderTextIsScrubbed(Content(a + eol));
      }
    }
  }

  lemma {:induction false} ReplaceKeepsLine(a: Bytes, p: Bytes, ph: Bytes)
    requires SafePrefix(p) && SafePlaceholder(ph) && LF !in a
    ensures LF !in Replace(a, p, ph) && (a != [] ==> Replace(a, p, ph) != [])
    decreases |a|
  {
    ReplaceUnfold(a, p, ph);
    if IndexOf(a, p) >= 0 {
      assert forall x :: x in After(a, p) ==> x in a;
      ReplaceKeepsLine(After(a, p), p, ph);
      hide Replace, After;
      assert LF !in p && LF !in ph;
      assert forall x :: x in a[..IndexOf(a, p)] ==> x in a;
    }
  }

  lemma {:induction false} PassKeepsHeaders(s: Bytes, p: Bytes, ph: Bytes)
    requires SafePrefix(p) && SafePlaceholder(ph) && HeadersClean(s)
    ensures HeadersClean(Replace(s, p, ph))
    decreases |s|
  {
    hide Replace, LineLen, LineClean, IndexOf;
    if s == [] {
      ReplaceUnfold(s, p, ph);
    } else {
      var line, rest := FirstLine(s);
      if Terminated(line) {
        var a := line[..|line| - 1];
        assert line == a + [LF] && s == a + [LF] + rest && LF !in a;
        ReplaceSplit(a, LF, rest, p, ph);
        ReplaceKeepsLine(a, p, ph);
        LineKeptClean(a, p, ph, [LF]);
        PassKeepsHeaders(rest, p, ph);
        ScrubHeadersAppend(Replace(a, p, ph) + [LF], Replace(rest, p, ph));
      } else {
        assert s == line && line + [] == line && LF !in line;
        ReplaceKeepsLine(line, p, ph);
        LineKeptClean(line, p, ph, []);
        assert Replace(line, p, ph) + [] == Replace(line, p, ph);
        ScrubHeadersAppend(Replace(line, p, ph), []);
      }
    }
  }

  lemma {:induction false} PassesKeepHeaders(s: Bytes, ps: seq<Bytes>)
    requires AllSafe(ps) && HeadersClean(s)
    ensures HeadersClean(Passes(s, ps))
    decreases |ps|
  {
    if ps != [] {
      TokensAreSafe();
      PassKeepsHeaders(s, ps[0], SENTINEL);
      PassesKeepHeaders(Replace(s, ps[0], SENTINEL), ps[1..]);
    }
  }

  // ----- the pipeline

  /** The header pass and then the token passes. */
  function ScrubText(s: Bytes): Bytes {
    TokensAreSafe();
    Passes(ScrubHeaders(s), TokenPrefixes())
  }

  /** On a text no other pass concerns: all four names are followed by exactly the sentinel,
      every Cookie: line is the sentinel line, and scrubbing the output again changes
      nothing. An input is left alone exactly when it is already so. */
  lemma ScrubTextIsClean(s: Bytes)
    ensures var out := ScrubText(s);
            AllClean(out, TokenPrefixes()) && HeadersClean(out) && ScrubText(out) == out
    ensures ScrubText(s) == s <==> AllClean(s, TokenPrefixes()) && HeadersClean(s)
  {
    hide ScrubHeaders, Passes, HeadersClean, AllClean;
    TokensAreSafe();
    HeaderPass(s);
    PassesKeepHeaders(ScrubHeaders(s), TokenPrefixes());
    PassesClean(ScrubHeaders(s), TokenPrefixes());
    var out := ScrubText(s);
    HeaderPass(out);
    PassesClean(out, TokenPrefixes());
  }

  /** What ScrubBytes has made of its input when it comes to the e-mail pass; `urls` stands
      for the signed-URL pass. */
  function BeforeEmails(s: Bytes, urls: Bytes -> Bytes): Bytes {
    TokensAreSafe();
    Passes(urls(ScrubHeaders(s)), TokenPrefixes())
  }

  function ScrubBytes(s: Bytes, urls: Bytes -> Bytes, emails: Bytes -> Bytes): Bytes {
    emails(BeforeEmails(s, urls))
  }

  method RunScrubBytes(input: Bytes, urls: Bytes -> Bytes, emails: Bytes -> Bytes) returns (out: Bytes)
    ensures out == ScrubBytes(input, urls, emails)
  {
    hide Replace, ScrubHeaders;
    out := ReplaceCookieHeader(input);
    out := urls(out);
    out := ReplaceQueryParam(out, SNLM0E, SENTINEL);
    out := ReplaceQueryParam(out, FDRFJE, SENTINEL);
    out := ReplaceQueryParam(out, AT, SENTINEL);
    out := ReplaceQueryParam(out, FSID, SENTINEL);
    var ps := TokenPrefixes();
    assert ps[1..][0] == ps[1] && ps[1..][1..][0] == ps[2] && ps[1..][1..][1..][0] == ps[3];
    out := emails(out);
  }

  /** Whatever the URL pass does, all four names are clean before the e-mail pass, and the
      Cookie: lines are if the URL pass leaves them so. So an output the e-mail pass did not
      have to touch is clean, and one that no pass concerns any more stays as it is. */
  lemma ScrubBytesIsClean(s: Bytes, urls: Bytes -> Bytes, emails: Bytes -> Bytes)
    ensures AllClean(BeforeEmails(s, urls), TokenPrefixes())
    ensures HeadersClean(urls(ScrubHeaders(s))) ==> HeadersClean(BeforeEmails(s, urls))
    ensures urls(ScrubHeaders(s)) == ScrubHeaders(s) ==> ScrubBytes(s, urls, emails) == emails(ScrubText(s))
    ensures AllClean(s, TokenPrefixes()) && HeadersClean(s) && urls(s) == s && emails(s) == s ==>
              ScrubBytes(s, urls, emails) == s
  {
    hide ScrubHeaders, Passes, HeadersClean, AllClean;
    TokensAreSafe();
    HeaderPass(s);
    var t := urls(ScrubHeaders(s));
    PassesClean(t, TokenPrefixes());
    if HeadersClean(t) {
      PassesKeepHeaders(t, TokenPrefixes());
    }
  }

  /** Every `w` in `s` is followed by SCRUBBED and then the end, '&', a blank, '"' or a line
      feed. */
  ghost predicate Redacted(s: Bytes, w: Bytes) {
    forall i :: 0 <= i <= |s| && w <= s[i..] ==>
      var behind := s[i..][|w|..];
      && [83, 67, 82, 85, 66, 66, 69, 68] <= behind
      && (|behind| == 8 || behind[8] in {38, 32, 34, 10})
  }

  lemma CleanIsRedacted(s: Bytes, w: Bytes)
    requires Clean(s, w, SENTINEL)
    ensures Redacted(s, w)
  {
    forall i | 0 <= i <= |s| && w <= s[i..]
      ensures var behind := s[i..][|w|..];
              && [83, 67, 82, 85, 66, 66, 69, 68] <= behind
              && (|behind| == 8 || behind[8] in {38, 32, 34, 10})
    {
      assert s[i..i + |w|] == s[i..][..|w|];
      assert OccursAt(s, w, i);
      var k := i + |w|;
      assert s[i..][|w|..] == s[k..] && s[k..][..8] == s[k..k + 8];
    }
  }

  /** The four names spelled out, for every text and whatever the URL pass does: before the
      e-mail pass each SNlM0e=, FdrFJe=, at= and f.sid= is followed by SCRUBBED and nothing
      else of its value. */
  lemma NoTokenIsLeft(s: Bytes, urls: Bytes -> Bytes)
    ensures var out := BeforeEmails(s, urls);
            && Redacted(out, [83, 78, 108, 77, 48, 101, 61])
            && Redacted(out, [70, 100, 114, 70, 74, 101, 61])
            && Redacted(out, [97, 116, 61])
            && Redacted(out, [102, 46, 115, 105, 100, 61])
  {
    var out, ps := BeforeEmails(s, urls), TokenPrefixes();
    ScrubBytesIsClean(s, urls, x => x);
    TokenSpelling();
    hide Clean, Redacted, BeforeEmails;
    assert Clean(out, ps[0], SENTINEL) && Clean(out, ps[1], SENTINEL) && Clean(out, ps[2], SENTINEL) && Clean(out, ps[3], SENTINEL);
    CleanIsRedacted(out, ps[0]);
    CleanIsRedacted(out, ps[1]);
    CleanIsRedacted(out, ps[2]);
    CleanIsRedacted(out, ps[3]);
  }

  lemma TokenSpelling()
    ensures var ps := TokenPrefixes();
            && ps[0] == [83, 78, 108, 77, 48, 101, 61] && ps[1] == [70, 100, 114, 70, 74, 101, 61]
            && ps[2] == [97, 116, 61] && ps[3] == [102, 46, 115, 105, 100, 61] && |ps| == 4
  {
    assert SNLM0E + [EQUALS] == [83, 78, 108, 77, 48, 101, 61];
    assert FDRFJE + [EQUALS] == [70, 100, 114, 70, 74, 101, 61];
    assert AT + [EQUALS] == [97, 116, 61];
    assert FSID + [EQUALS] == [102, 46, 115, 105, 100, 61];
  }

  /** Likewise no cookie: in what the header and token passes make of any text, every line
      that starts with "Cookie:" is the sentinel line. */
  lemma NoCookieIsLeft(s: Bytes, i: nat, n: nat)
    requires var out := ScrubText(s); i <= |out| && LineStart(out, i) && CookieText(out[i..], n)
    ensures SentinelHeaderAt(ScrubText(s), i + n)
  {
    hide LineStart, CookieText, SentinelHeaderAt, HeadersClean;
    ScrubTextIsClean(s);
    CookieLinesScrubbed(ScrubText(s), i, n);
  }
}
