/**
 Redaction: detected spans are cleaned, kept off existing placeholders, and replaced by placeholders that
 the store maps back to the span's value, one per value and container when there is an index key.

 The main result: in the store a redaction leaves, and in every store that later redactions leave, the
 redacted text rehydrates to what the original text rehydrates to.
 */
module Redaction {
  import opened Options
  import opened Placeholders

  datatype Span = Span(start: int, end: int, value: string, kind: string)

  // ── Cleaning spans ────────────────────────────────────────────────────────────────────────

  /** Sorting order: the earlier start first, then the longer span. */
  predicate Before(a: Span, b: Span) { a.start < b.start || (a.start == b.start && a.end >= b.end) }

  predicate Ordered(spans: seq<Span>) { forall i, j :: 0 <= i < j < |spans| ==> Before(spans[i], spans[j]) }

  /** A stable insertion. */
  function Inserted(sorted: seq<Span>, s: Span): seq<Span> {
    if sorted == [] then [s]
    else
      var last := |sorted| - 1;
      if Before(sorted[last], s) then sorted + [s] else Inserted(sorted[..last], s) + [sorted[last]]
  }

  function Sorted(spans: seq<Span>): seq<Span> {
    if spans == [] then [] else Inserted(Sorted(spans[..|spans| - 1]), spans[|spans| - 1])
  }

  lemma {:induction false} InsertedIsSorted(sorted: seq<Span>, s: Span)
    requires Ordered(sorted)
    ensures Ordered(Inserted(sorted, s)) && forall x :: x in Inserted(sorted, s) <==> x == s || x in sorted
  {
    if sorted != [] {
      var last := |sorted| - 1;
      assert sorted == sorted[..last] + [sorted[last]];
      if !Before(sorted[last], s) {
        InsertedIsSorted(sorted[..last], s);
        var rest := Inserted(sorted[..last], s);
        forall i | 0 <= i < |rest| ensures Before(rest[i], sorted[last]) { assert rest[i] in rest; }
      } else {
        forall i | 0 <= i < last ensures Before(sorted[i], s) { assert Before(sorted[i], sorted[last]); }
      }
    }
  }

  lemma {:induction false} SortedIsSorted(spans: seq<Span>)
    ensures Ordered(Sorted(spans)) && forall x :: x in Sorted(spans) <==> x in spans
  {
    if spans != [] {
      var n := |spans| - 1;
      SortedIsSorted(spans[..n]);
      InsertedIsSorted(Sorted(spans[..n]), spans[n]);
      assert spans == spans[..n] + [spans[n]];
    }
  }

  predicate ValidSpan(s: Span, length: nat) { 0 <= s.start < s.end <= length }

  function LastEnd(spans: seq<Span>): int { if spans == [] then 0 else spans[|spans| - 1].end }

  function Cleaned(sorted: seq<Span>, length: nat): seq<Span> {
    if sorted == [] then []
    else
      var (kept, s) := (Cleaned(sorted[..|sorted| - 1], length), sorted[|sorted| - 1]);
      if s.start < LastEnd(kept) || !ValidSpan(s, length) then kept else kept + [s]
  }

  method CleanSpans(spans: seq<Span>, length: nat) returns (out: seq<Span>)
    ensures out == Cleaned(Sorted(spans), length)
  {
    var sorted := Sorted(spans);
    out := [];
    var lastEnd := 0;
    var i := 0;
    while i < |sorted|
      invariant 0 <= i <= |sorted|
      invariant out == Cleaned(sorted[..i], length) && lastEnd == LastEnd(out)
    {
      assert sorted[..i + 1][..i] == sorted[..i];
      var span := sorted[i];
      i := i + 1;
      if span.start < lastEnd { continue; }
      if span.start < 0 || span.end > length || span.start >= span.end { continue; }
      out := out + [span];
      lastEnd := span.end;
    }
    assert sorted[..|sorted|] == sorted;
  }

  /** Valid spans in order of their place, none reaching into the next. */
  predicate Chain(spans: seq<Span>, length: nat) {
    && (forall i | 0 <= i < |spans| :: ValidSpan(spans[i], length))
    && (forall i, j :: 0 <= i < j < |spans| ==> spans[i].end <= spans[j].start)
  }

  /** What makes a span be kept: it is kept, or it is not valid, or an earlier kept span reaches into it. */
  predicate Decided(kept: seq<Span>, s: Span, length: nat) {
    s in kept || !ValidSpan(s, length) || exists k | k in kept :: Before(k, s) && s.start < k.end
  }

  lemma {:induction false} CleanedIsChain(sorted: seq<Span>, length: nat)
    ensures Chain(Cleaned(sorted, length), length)
    ensures forall s | s in Cleaned(sorted, length) :: s in sorted
  {
    if sorted != [] { CleanedIsChain(sorted[..|sorted| - 1], length); }
  }

  lemma {:induction false} CleanedDecides(sorted: seq<Span>, length: nat)
    requires Ordered(sorted)
    ensures forall s | s in sorted :: Decided(Cleaned(sorted, length), s, length)
  {
    if sorted != [] {
      var n := |sorted| - 1;
      var kept := Cleaned(sorted[..n], length);
      CleanedIsChain(sorted[..n], length);
      CleanedDecides(sorted[..n], length);
      assert sorted == sorted[..n] + [sorted[n]];
      if sorted[n].start < LastEnd(kept) && kept != [] {
        var k := kept[|kept| - 1];
        assert k in kept && k in sorted[..n];
        var i :| 0 <= i < n && sorted[..n][i] == k;
        assert Before(sorted[i], sorted[n]);
        assert Decided(kept, sorted[n], length);
      }
      forall s | s in sorted ensures Decided(Cleaned(sorted, length), s, length) {
        if s != sorted[n] { assert Decided(kept, s, length); }
      }
    }
  }

  /** The cleaned spans are valid, ordered and disjoint, and every valid span that is dropped is reached
      into by a kept one that starts earlier, or at the same place and is at least as long. */
  lemma CleaningIsGreedy(spans: seq<Span>, length: nat)
    ensures var kept := Cleaned(Sorted(spans), length);
      && Chain(kept, length)
      && (forall s | s in kept :: s in spans)
      && (forall s | s in spans :: Decided(kept, s, length))
  {
    SortedIsSorted(spans);
    CleanedIsChain(Sorted(spans), length);
    CleanedDecides(Sorted(spans), length);
  }

  // ── Keeping off placeholders ──────────────────────────────────────────────────────────────

  datatype Range = Range(start: nat, end: nat)

  predicate IsTokenRange(text: string, r: Range) { r.start < r.end && TokenAt(text, r.start, r.end - r.start) }

  /** The ranges of all placeholders of the text, and of nothing else. */
  method TakenRanges(text: string) returns (taken: seq<Range>)
    ensures forall k | 0 <= k < |taken| :: IsTokenRange(text, taken[k])
    ensures forall i: nat, n: nat | TokenAt(text, i, n) :: Range(i, i + n) in taken
  {
    taken := [];
    var p := 0;
    while p < |text|
      invariant 0 <= p <= |text|
      invariant forall k | 0 <= k < |taken| :: IsTokenRange(text, taken[k])
      invariant forall i: nat, n: nat | TokenAt(text, i, n) && i < p :: Range(i, i + n) in taken
    {
      var found := TokenLength(text[p..]);
      TokenAtStart(text, p);
      if found.Some? {
        var n := found.value;
        forall i: nat, m: nat | TokenAt(text, i, m) && p <= i < p + n ensures i == p && m == n {
          TokensAreApart(text, p, n, i, m);
          TokenHasLength(text, i, m);
        }
        TokenHasLength(text, p, n);
        taken := taken + [Range(p, p + n)];
        p := p + n;
      } else {
        p := p + 1;
      }
    }
    forall i: nat, n: nat | TokenAt(text, i, n) ensures i < |text| { TokenHasLength(text, i, n); }
  }

  lemma TokenAtStart(text: string, p: nat)
    requires p <= |text|
    ensures forall n: nat :: TokenAt(text, p, n) <==> TokenLength(text[p..]) == Some(n)
  {
    forall n: nat ensures TokenAt(text, p, n) <==> TokenLength(text[p..]) == Some(n) {
      TokenLengthIsExact(text[p..], n);
      if p + n <= |text| { assert text[p..][..n] == text[p..p + n]; }
    }
  }

  /** The span overlaps some placeholder of the text. */
  ghost predicate Touches(text: string, s: Span) {
    exists i: nat, n: nat | TokenAt(text, i, n) :: s.start < i + n && s.end > i
  }

  predicate Overlaps(s: Span, taken: seq<Range>) {
    exists k | 0 <= k < |taken| :: s.start < taken[k].end && s.end > taken[k].start
  }

  function NotOverlapping(spans: seq<Span>, taken: seq<Range>): seq<Span> {
    if spans == [] then []
    else
      var (rest, last) := (NotOverlapping(spans[..|spans| - 1], taken), spans[|spans| - 1]);
      if Overlaps(last, taken) then rest else rest + [last]
  }

  lemma {:induction false} NotOverlappingHolds(spans: seq<Span>, taken: seq<Range>)
    ensures forall s :: s in NotOverlapping(spans, taken) <==> s in spans && !Overlaps(s, taken)
  {
    if spans != [] {
      var n := |spans| - 1;
      NotOverlappingHolds(spans[..n], taken);
      assert spans == spans[..n] + [spans[n]];
    }
  }

  lemma RangesAreTokens(text: string, taken: seq<Range>, s: Span)
    requires forall k | 0 <= k < |taken| :: IsTokenRange(text, taken[k])
    requires forall i: nat, n: nat | TokenAt(text, i, n) :: Range(i, i + n) in taken
    ensures Overlaps(s, taken) <==> Touches(text, s)
  {}

  /** The spans to redact: the detected ones that touch no placeholder, cleaned. */
  method SpansToRedact(detected: seq<Span>, text: string) returns (spans: seq<Span>)
    ensures Chain(spans, |text|)
    ensures forall s | s in spans :: s in detected && !Touches(text, s)
    ensures forall s | s in detected && !Touches(text, s) :: Decided(spans, s, |text|)
  {
    var taken := TakenRanges(text);
    var free := if |taken| == 0 then detected else NotOverlapping(detected, taken);
    forall s ensures s in free <==> s in detected && !Touches(text, s) {
      RangesAreTokens(text, taken, s);
      NotOverlappingHolds(detected, taken);
    }
    CleaningIsGreedy(free, |text|);
    spans := CleanSpans(free, |text|);
  }

  // ── Replacing spans ───────────────────────────────────────────────────────────────────────

  /** The text up to the end of the last span, with each span replaced. */
  function Spliced(text: string, spans: seq<Span>, used: seq<string>): string
    requires Chain(spans, |text|) && |used| == |spans|
  {
    if spans == [] then ""
    else
      var n := |spans| - 1;
      Spliced(text, spans[..n], used[..n]) + text[LastEnd(spans[..n])..spans[n].start] + used[n]
  }

  function Redacted(text: string, spans: seq<Span>, used: seq<string>): string
    requires Chain(spans, |text|) && |used| == |spans|
  {
    Spliced(text, spans, used) + text[LastEnd(spans)..]
  }

  /** Every replacement is a placeholder that resolves to the text its span covers. */
  ghost predicate Undoes(r: Resolver, text: string, spans: seq<Span>, used: seq<string>)
    requires Chain(spans, |text|) && |used| == |spans|
  {
    forall k | 0 <= k < |spans| :: IsToken(used[k]) && r(used[k]) == Some(text[spans[k].start..spans[k].end])
  }

  lemma UntouchedCuts(text: string, s: Span)
    requires ValidSpan(s, |text|) && !Touches(text, s)
    ensures !Straddles(text, s.start) && !Straddles(text, s.end)
  {}

  lemma UntouchedHasNoToken(text: string, s: Span, i: nat, n: nat)
    requires ValidSpan(s, |text|) && !Touches(text, s)
    ensures !TokenAt(text[s.start..s.end], i, n)
  {
    SlicesOfTake(text, s.start, s.end);
    if TokenAt(text[s.start..s.end], i, n) {
      TokenHasLength(text[s.start..s.end], i, n);
      TokenAtDrop(text[..s.end], s.start, i, n);
      TokenAtTake(text, s.end, s.start + i, n);
    }
  }

  lemma UntouchedStays(r: Resolver, text: string, s: Span)
    requires ValidSpan(s, |text|) && !Touches(text, s)
    ensures Rehydrated(r, text[s.start..s.end]) == text[s.start..s.end]
  {
    forall i, n ensures !TokenAt(text[s.start..s.end], i, n) { UntouchedHasNoToken(text, s, i, n); }
    NoTokenNoChange(r, text[s.start..s.end]);
  }

  /** The text up to the end of a span that touches no placeholder. */
  lemma TextUpToSpan(r: Resolver, text: string, from: nat, s: Span)
    requires ValidSpan(s, |text|) && !Touches(text, s) && from <= s.start && !Straddles(text, from)
    ensures Rehydrated(r, text[..s.end])
         == Rehydrated(r, text[..from]) + Rehydrated(r, text[from..s.start]) + text[s.start..s.end]
  {
    UntouchedCuts(text, s);
    TakeKeepsWhole(text, s.end, s.start);
    SlicesOfTake(text, s.start, s.end);
    RehydratedAt(r, text[..s.end], s.start, text[..s.start], text[s.start..s.end]);
    UntouchedStays(r, text, s);
    TakeKeepsWhole(text, s.start, from);
    SlicesOfTake(text, from, s.start);
    RehydratedAt(r, text[..s.start], from, text[..from], text[from..s.start]);
  }

  lemma TokenAtEnd(before: string, token: string)
    requires IsToken(token)
    ensures TokenAt(before + token, |before|, |token|)
  {
    assert (before + token)[|before|..|before| + |token|] == token;
  }

  /** A placeholder put after a text cuts nothing of it. */
  lemma TextThenToken(r: Resolver, before: string, token: string)
    requires IsToken(token)
    ensures Rehydrated(r, before + token) == Rehydrated(r, before) + Shown(r, token)
  {
    TokenAtEnd(before, token);
    TokenEdgesAreCuts(before + token, |before|, |token|);
    RehydratedInParts(r, before, token);
    TokenRehydrates(r, token);
  }

  /** A text put after a spliced one, which is empty or ends with a placeholder, joins it at a clean cut. */
  lemma SplicedThenText(r: Resolver, text: string, spans: seq<Span>, used: seq<string>, after: string)
    requires Chain(spans, |text|) && |used| == |spans| && forall k | 0 <= k < |used| :: IsToken(used[k])
    ensures Rehydrated(r, Spliced(text, spans, used) + after) ==
            Rehydrated(r, Spliced(text, spans, used)) + Rehydrated(r, after)
  {
    var spliced := Spliced(text, spans, used);
    if spans == [] {
      assert spliced + after == after;
    } else {
      var token := used[|used| - 1];
      var start := |spliced| - |token|;
      assert (spliced + after)[start..start + |token|] == token;
      assert TokenAt(spliced + after, start, |token|);
      TokenEdgesAreCuts(spliced + after, start, |token|);
      RehydratedInParts(r, spliced, after);
    }
  }

  lemma ChainPrefix(spans: seq<Span>, n: nat, length: nat)
    requires Chain(spans, length) && n <= |spans|
    ensures Chain(spans[..n], length) && 0 <= LastEnd(spans[..n]) <= length
    ensures n < |spans| ==> LastEnd(spans[..n]) <= spans[n].start
  {}

  lemma LastEndIsCut(text: string, spans: seq<Span>)
    requires Chain(spans, |text|) && forall k | 0 <= k < |spans| :: !Touches(text, spans[k])
    ensures 0 <= LastEnd(spans) <= |text| && !Straddles(text, LastEnd(spans))
  {}

  /** One more span spliced in, from what was spliced before it. */
  lemma SpliceOne(r: Resolver, text: string, spans: seq<Span>, used: seq<string>, s: Span, token: string)
    requires Chain(spans, |text|) && |used| == |spans| && forall k | 0 <= k < |used| :: IsToken(used[k])
    requires ValidSpan(s, |text|) && !Touches(text, s) && IsToken(token) && r(token) == Some(text[s.start..s.end])
    requires 0 <= LastEnd(spans) <= s.start && !Straddles(text, LastEnd(spans))
    requires Rehydrated(r, Spliced(text, spans, used)) == Rehydrated(r, text[..LastEnd(spans)])
    ensures Rehydrated(r, Spliced(text, spans, used) + text[LastEnd(spans)..s.start] + token) ==
            Rehydrated(r, text[..s.end])
  {
    var (before, gap) := (Spliced(text, spans, used), text[LastEnd(spans)..s.start]);
    TextUpToSpan(r, text, LastEnd(spans), s);
    SplicedThenText(r, text, spans, used, gap);
    TextThenToken(r, before + gap, token);
  }

  lemma {:induction false} SplicedIsUndone(r: Resolver, text: string, spans: seq<Span>, used: seq<string>)
    requires Chain(spans, |text|) && |used| == |spans| && Undoes(r, text, spans, used)
    requires forall k | 0 <= k < |spans| :: !Touches(text, spans[k])
    ensures 0 <= LastEnd(spans) <= |text|
    ensures Rehydrated(r, Spliced(text, spans, used)) == Rehydrated(r, text[..LastEnd(spans)])
    decreases |spans|
  {
    LastEndIsCut(text, spans);
    if spans != [] {
      var n := |spans| - 1;
      ChainPrefix(spans, n, |text|);
      LastEndIsCut(text, spans[..n]);
      SplicedIsUndone(r, text, spans[..n], used[..n]);
      SpliceOne(r, text, spans[..n], used[..n], spans[n], used[n]);
    }
  }

  /** Whatever else the resolver does, replacing spans by placeholders that resolve to what they covered
      is undone by rehydration. */
  lemma RedactionIsUndone(r: Resolver, text: string, spans: seq<Span>, used: seq<string>)
    requires Chain(spans, |text|) && |used| == |spans| && Undoes(r, text, spans, used)
    requires forall k | 0 <= k < |spans| :: !Touches(text, spans[k])
    ensures Rehydrated(r, Redacted(text, spans, used)) == Rehydrated(r, text)
  {
    var end := LastEnd(spans);
    LastEndIsCut(text, spans);
    SplicedIsUndone(r, text, spans, used);
    SplicedThenText(r, text, spans, used, text[end..]);
    RehydratedAt(r, text, end, text[..end], text[end..]);
  }

  ghost predicate Occurs(piece: string, text: string) {
    exists before, after :: text == before + piece + after
  }

  lemma OccursInPart(piece: string, a: string, b: string, c: string)
    requires Occurs(piece, a) || Occurs(piece, b)
    ensures Occurs(piece, a + b + c)
  {
    if Occurs(piece, a) {
      var x, y :| a == x + piece + y;
      assert a + b + c == x + piece + (y + b + c);
    } else {
      var x, y :| b == x + piece + y;
      assert a + b + c == (a + x) + piece + (y + c);
    }
  }

  lemma SliceOccurs(text: string, from: nat, to: nat, i: nat, n: nat)
    requires from <= i && i + n <= to <= |text|
    ensures Occurs(text[i..i + n], text[from..to])
  {
    assert text[from..to] == text[from..i] + text[i..i + n] + text[i + n..to];
  }

  /** A placeholder that touches no span of a chain and ends after the last one starts after it. */
  lemma TokenAfterChain(text: string, spans: seq<Span>, i: nat, n: nat)
    requires Chain(spans, |text|) && forall k | 0 <= k < |spans| :: !Touches(text, spans[k])
    requires TokenAt(text, i, n) && i + n > LastEnd(spans)
    ensures LastEnd(spans) <= i
  {}

  lemma TokenBeforeLast(text: string, spans: seq<Span>, i: nat, n: nat)
    requires spans != [] && Chain(spans, |text|) && !Touches(text, spans[|spans| - 1])
    requires TokenAt(text, i, n) && i + n <= LastEnd(spans)
    ensures i + n <= spans[|spans| - 1].start
  {
    TokenHasLength(text, i, n);
  }

  lemma {:induction false} SplicedKeepsToken(text: string, spans: seq<Span>, used: seq<string>, i: nat, n: nat)
    requires Chain(spans, |text|) && |used| == |spans| && forall k | 0 <= k < |spans| :: !Touches(text, spans[k])
    requires TokenAt(text, i, n) && i + n <= LastEnd(spans)
    ensures Occurs(text[i..i + n], Spliced(text, spans, used))
    decreases |spans|
  {
    if spans == [] { TokenHasLength(text, i, n); }
    var last := |spans| - 1;
    var (s, from) := (spans[last], LastEnd(spans[..last]));
    ChainPrefix(spans, last, |text|);
    TokenBeforeLast(text, spans, i, n);
    if i + n <= from {
      SplicedKeepsToken(text, spans[..last], used[..last], i, n);
    } else {
      TokenAfterChain(text, spans[..last], i, n);
      SliceOccurs(text, from, s.start, i, n);
    }
    OccursInPart(text[i..i + n], Spliced(text, spans[..last], used[..last]), text[from..s.start], used[last]);
  }

  /** Every placeholder of the text is still there, character for character. */
  lemma RedactionKeepsPlaceholders(text: string, spans: seq<Span>, used: seq<string>, i: nat, n: nat)
    requires Chain(spans, |text|) && |used| == |spans| && forall k | 0 <= k < |spans| :: !Touches(text, spans[k])
    requires TokenAt(text, i, n)
    ensures Occurs(text[i..i + n], Redacted(text, spans, used))
  {
    var (before, end) := (Spliced(text, spans, used), LastEnd(spans));
    LastEndIsCut(text, spans);
    if i + n <= end {
      SplicedKeepsToken(text, spans, used, i, n);
    } else {
      TokenAfterChain(text, spans, i, n);
      SliceOccurs(text, end, |text|, i, n);
    }
    OccursInPart(text[i..i + n], before, text[end..|text|], "");
    assert Redacted(text, spans, used) == before + text[end..|text|] + "";
  }
}
