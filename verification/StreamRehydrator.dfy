/**
 Rehydration of a streamed text. Each delta joins a buffer; what lies before the last unclosed pair of
 opening braces is rehydrated and emitted, the rest is held. The stream equals rehydrating the whole text
 exactly when no delta ends right after the first brace of a placeholder while the buffer is emitted to
 its end.
 */
module StreamRehydrator {
  import opened Options
  import opened Placeholders

  // ── Push and flush ────────────────────────────────────────────────────────────────────────

  predicate PairAt(text: string, i: nat, c: char) { i + 1 < |text| && text[i] == c && text[i + 1] == c }

  /** Where the last pair of opening braces starts. */
  function LastOpen(text: string): (open: Option<nat>)
    ensures open.Some? ==> PairAt(text, open.value, '{')
    ensures forall i: nat :: PairAt(text, i, '{') ==> open.Some? && i <= open.value
  {
    if |text| < 2 then None
    else if PairAt(text, |text| - 2, '{') then Some(|text| - 2)
    else
      var open := LastOpen(text[..|text| - 1]);
      assert forall i: nat :: PairAt(text, i, '{') ==> PairAt(text[..|text| - 1], i, '{');
      open
  }

  predicate Closes(text: string, from: nat) { exists i | from <= i < |text| :: PairAt(text, i, '}') }

  /** How much of the buffer can be emitted. */
  function SafeEnd(buffer: string): (end: nat)
    ensures end <= |buffer|
  {
    var open := LastOpen(buffer);
    if open.None? || Closes(buffer, open.value) then |buffer| else open.value
  }

  class StreamRehydrator {
    const r: Resolver
    var buffer: string

    constructor (r: Resolver)
      ensures this.r == r && buffer == ""
    {
      this.r, buffer := r, "";
    }

    method Push(delta: string) returns (out: string)
      modifies this
      ensures var all := old(buffer) + delta;
        out == Rehydrated(r, all[..SafeEnd(all)]) && buffer == all[SafeEnd(all)..]
    {
      buffer := buffer + delta;
      var safeEnd := SafeEnd(buffer);
      var ready := buffer[..safeEnd];
      buffer := buffer[safeEnd..];
      out := Rehydrate(r, ready);
    }

    method Flush() returns (out: string)
      modifies this
      ensures out == Rehydrated(r, old(buffer)) && buffer == ""
    {
      var rest := buffer;
      buffer := "";
      out := Rehydrate(r, rest);
    }

    /** Every delta pushed in turn, then the flush. */
    method Stream(deltas: seq<string>) returns (out: string)
      requires buffer == ""
      modifies this
      ensures out == Emitted(r, "", deltas) && buffer == ""
    {
      out := "";
      var i := 0;
      assert deltas[0..] == deltas;
      while i < |deltas|
        invariant 0 <= i <= |deltas|
        invariant out + Emitted(r, buffer, deltas[i..]) == Emitted(r, "", deltas)
      {
        assert deltas[i..][1..] == deltas[i + 1..];
        var more := Push(deltas[i]);
        Reassociate(out, more, Emitted(r, buffer, deltas[i + 1..]));
        out := out + more;
        i := i + 1;
      }
      var tail := Flush();
      out := out + tail;
    }
  }

  function Emitted(r: Resolver, held: string, deltas: seq<string>): string
    decreases |deltas|
  {
    if deltas == [] then Rehydrated(r, held)
    else
      var buffer := held + deltas[0];
      var end := SafeEnd(buffer);
      Rehydrated(r, buffer[..end]) + Emitted(r, buffer[end..], deltas[1..])
  }

  function Text(deltas: seq<string>): string { if deltas == [] then "" else deltas[0] + Text(deltas[1..]) }

  // ── The harmful cut ───────────────────────────────────────────────────────────────────────

  /** The buffer is emitted to its end although it ends in the first brace of a placeholder. */
  predicate CutsToken(buffer: string, rest: string) {
    && SafeEnd(buffer) == |buffer| > 0
    && buffer[|buffer| - 1] == '{' && TokenLength(['{'] + rest).Some?
  }

  predicate Harmful(held: string, deltas: seq<string>)
    decreases |deltas|
  {
    deltas != [] &&
    var buffer := held + deltas[0];
    CutsToken(buffer, Text(deltas[1..])) || Harmful(buffer[SafeEnd(buffer)..], deltas[1..])
  }

  lemma HeldIsWhole(buffer: string, rest: string, i: nat, n: nat)
    requires TokenAt(buffer + rest, i, n) && i < SafeEnd(buffer) < i + n
    ensures SafeEnd(buffer) == |buffer| == i + 1
  {
    var (text, end, open) := (buffer + rest, SafeEnd(buffer), LastOpen(buffer));
    if end < |buffer| {
      assert PairAt(buffer, end, '{');
      TokenAtBraces(text, i, n, end);
      TokenAtBraces(text, i, n, i + 2);
      assert false;
    }
    if i + 1 < |buffer| {
      TokenAtBraces(text, i, n, i);
      TokenAtBraces(text, i, n, i + 1);
      assert PairAt(buffer, i, '{');
      var last := open.value;
      assert PairAt(buffer, last, '{');
      TokenAtBraces(text, i, n, last + 1);
      assert last == i;
      var j :| last <= j < |buffer| && PairAt(buffer, j, '}');
      TokenAtBraces(text, i, n, j);
      assert false;
    }
  }

  /** In `buffer + rest`, a placeholder that starts with the last character of the buffer. */
  lemma StartsWithLast(buffer: string, rest: string, n: nat)
    requires buffer != "" && buffer[|buffer| - 1] == '{'
    ensures TokenAt(buffer + rest, |buffer| - 1, n) <==> TokenLength(['{'] + rest) == Some(n)
  {
    var (text, last) := (buffer + rest, |buffer| - 1);
    assert text[last..] == ['{'] + rest;
    TokenLengthIsExact(text[last..], n);
    if last + n <= |text| { assert text[last..][..n] == text[last..last + n]; }
  }

  lemma StraddledCutsToken(buffer: string, rest: string)
    requires Straddles(buffer + rest, SafeEnd(buffer))
    ensures CutsToken(buffer, rest)
  {
    var (text, end) := (buffer + rest, SafeEnd(buffer));
    var i, n :| 0 <= i < end && end - i < n <= |text| - i && TokenAt(text, i, n);
    HeldIsWhole(buffer, rest, i, n);
    TokenAtBraces(text, i, n, i);
    StartsWithLast(buffer, rest, n);
  }

  /** A placeholder lies across the end of what is emitted exactly at a harmful cut. */
  lemma StraddledIffCutsToken(buffer: string, rest: string)
    ensures Straddles(buffer + rest, SafeEnd(buffer)) <==> CutsToken(buffer, rest)
  {
    if CutsToken(buffer, rest) {
      var n := TokenLength(['{'] + rest).value;
      StartsWithLast(buffer, rest, n);
      TokenLengthIsExact(['{'] + rest, n);
    } else if Straddles(buffer + rest, SafeEnd(buffer)) {
      StraddledCutsToken(buffer, rest);
    }
  }

  lemma Regroup(held: string, delta: string, rest: string, end: nat)
    requires end <= |held + delta|
    ensures var buffer := held + delta;
      held + (delta + rest) == buffer + rest == buffer[..end] + (buffer[end..] + rest)
  {}

  // ── Without a harmful cut ─────────────────────────────────────────────────────────────────

  lemma {:induction false} StreamsUnlessHarmful(r: Resolver, held: string, deltas: seq<string>)
    requires !Harmful(held, deltas)
    ensures Emitted(r, held, deltas) == Rehydrated(r, held + Text(deltas))
    decreases |deltas|
  {
    if deltas == [] {
      assert held + "" == held;
    } else {
      var (buffer, rest) := (held + deltas[0], Text(deltas[1..]));
      var end := SafeEnd(buffer);
      Regroup(held, deltas[0], rest, end);
      StraddledIffCutsToken(buffer, rest);
      RehydratedInParts(r, buffer[..end], buffer[end..] + rest);
      StreamsUnlessHarmful(r, buffer[end..], deltas[1..]);
    }
  }

  // ── With one ──────────────────────────────────────────────────────────────────────────────

  /** The resolver that maps every placeholder to nothing. */
  function Erase(token: string): Option<string> { Some("") }

  lemma PartHasNoToken(text: string, i: nat, n: nat, from: nat, to: nat, j: nat, m: nat)
    requires TokenAt(text, i, n) && i <= from <= to <= i + n && to - from < n
    ensures !TokenAt(text[from..to], j, m)
  {
    if TokenAt(text[from..to], j, m) {
      TokenHasLength(text[from..to], j, m);
      TokenOfPart(text, from, to, j, m);
      TokensAreApart(text, i, n, from + j, m);
    }
  }

  lemma TokenOfPart(text: string, from: nat, to: nat, j: nat, m: nat)
    requires from <= to <= |text| && TokenAt(text[from..to], j, m)
    ensures from + j + m <= to && TokenAt(text, from + j, m)
  {
    SlicesOfTake(text, from, to);
    TokenAtDrop(text[..to], from, j, m);
    TokenAtTake(text, to, from + j, m);
  }

  /** A part of a placeholder that holds none of it whole is left as it is. */
  lemma PartOfToken(r: Resolver, text: string, i: nat, n: nat, from: nat, to: nat)
    requires TokenAt(text, i, n) && i <= from <= to <= i + n && to - from < n
    ensures Rehydrated(r, text[from..to]) == text[from..to]
  {
    forall j, m ensures !TokenAt(text[from..to], j, m) { PartHasNoToken(text, i, n, from, to, j, m); }
    NoTokenNoChange(r, text[from..to]);
  }

  /** Erasing leaves nothing of a whole placeholder, and something of its beginning. */
  lemma ErasedPieces(text: string, i: nat, n: nat, cut: nat)
    requires TokenAt(text, i, n) && i < cut < i + n
    ensures Emits(text[i..i + n]) == 0 && Emits(text[i..cut]) > 0
  {
    TokenRehydrates(Erase, text[i..i + n]);
    PartOfToken(Erase, text, i, n, i, cut);
  }

  function Emits(text: string): nat { |Rehydrated(Erase, text)| }

  lemma EmitsAt(text: string, cut: nat)
    requires cut <= |text| && !Straddles(text, cut)
    ensures Emits(text) == Emits(text[..cut]) + Emits(text[cut..])
  {
    RehydratedAt(Erase, text, cut, text[..cut], text[cut..]);
  }

  lemma EmitsLeft(text: string, cut: nat, end: nat)
    requires cut <= end <= |text| && !Straddles(text, cut)
    ensures Emits(text[..end]) == Emits(text[..cut]) + Emits(text[cut..end])
  {
    TakeKeepsWhole(text, end, cut);
    SlicesOfTake(text, cut, end);
    EmitsAt(text[..end], cut);
  }

  lemma EmitsRight(text: string, start: nat, cut: nat)
    requires start <= cut <= |text| && !Straddles(text, cut)
    ensures Emits(text[start..]) == Emits(text[start..cut]) + Emits(text[cut..])
  {
    DropKeepsWhole(text, cut, start);
    SlicesOfDrop(text, start, cut);
    EmitsAt(text[start..], cut - start);
  }

  /** A cut through a piece that is erased whole but not in part emits more. */
  lemma CutThroughEmitsMore(text: string, cut: nat, i: nat, j: nat)
    requires i < cut < j <= |text| && !Straddles(text, i) && !Straddles(text, j)
    requires Emits(text[i..j]) == 0 && Emits(text[i..cut]) > 0
    ensures Emits(text[..cut]) + Emits(text[cut..]) > Emits(text)
  {
    EmitsAt(text, j);
    EmitsLeft(text, i, j);
    EmitsLeft(text, i, cut);
    EmitsRight(text, cut, j);
  }

  lemma CutThroughToken(text: string, cut: nat, i: nat, n: nat)
    requires TokenAt(text, i, n) && i < cut < i + n
    ensures Emits(text[..cut]) + Emits(text[cut..]) > Emits(text)
  {
    TokenEdgesAreCuts(text, i, n);
    ErasedPieces(text, i, n, cut);
    CutThroughEmitsMore(text, cut, i, i + n);
  }

  /** Two parts emit no less than the whole, and more when a placeholder lies across the cut. */
  lemma CutEmitsNoLess(a: string, b: string)
    ensures Emits(a) + Emits(b) >= Emits(a + b)
    ensures Straddles(a + b, |a|) ==> Emits(a) + Emits(b) > Emits(a + b)
  {
    var text := a + b;
    assert text[..|a|] == a && text[|a|..] == b;
    if Straddles(text, |a|) {
      var i, n :| 0 <= i < |a| && |a| - i < n <= |text| - i && TokenAt(text, i, n);
      CutThroughToken(text, |a|, i, n);
    } else {
      EmitsAt(text, |a|);
    }
  }

  lemma {:induction false} HarmfulEmitsMore(held: string, deltas: seq<string>)
    ensures |Emitted(Erase, held, deltas)| >= Emits(held + Text(deltas))
    ensures Harmful(held, deltas) ==> |Emitted(Erase, held, deltas)| > Emits(held + Text(deltas))
    decreases |deltas|
  {
    if deltas == [] {
      assert held + "" == held;
    } else {
      var (buffer, rest) := (held + deltas[0], Text(deltas[1..]));
      var end := SafeEnd(buffer);
      Regroup(held, deltas[0], rest, end);
      StraddledIffCutsToken(buffer, rest);
      CutEmitsNoLess(buffer[..end], buffer[end..] + rest);
      HarmfulEmitsMore(buffer[end..], deltas[1..]);
    }
  }

  /** Whatever the mappings, the stream shows the rehydrated text exactly when no delta ends at a harmful
      cut. */
  lemma StreamsIffNotHarmful(deltas: seq<string>)
    ensures (forall r: Resolver :: Emitted(r, "", deltas) == Rehydrated(r, Text(deltas))) <==> !Harmful("", deltas)
  {
    if Harmful("", deltas) {
      HarmfulDiffers(deltas);
    } else {
      forall r: Resolver ensures Emitted(r, "", deltas) == Rehydrated(r, Text(deltas)) {
        StreamsUnlessHarmful(r, "", deltas);
        assert "" + Text(deltas) == Text(deltas);
      }
    }
  }

  lemma HarmfulDiffers(deltas: seq<string>)
    requires Harmful("", deltas)
    ensures Emitted(Erase, "", deltas) != Rehydrated(Erase, Text(deltas))
  {
    HarmfulEmitsMore("", deltas);
    assert "" + Text(deltas) == Text(deltas);
  }

  // ── Deltas that never split an opening pair ───────────────────────────────────────────────

  /** Some delta ends in an opening brace and the text goes on with another. */
  predicate SplitsPair(before: string, deltas: seq<string>)
    decreases |deltas|
  {
    deltas != [] &&
    var (now, rest) := (before + deltas[0], Text(deltas[1..]));
    || (now != "" && rest != "" && now[|now| - 1] == '{' && rest[0] == '{')
    || SplitsPair(now, deltas[1..])
  }

  lemma {:induction false} HarmfulSplitsPair(shown: string, held: string, deltas: seq<string>)
    requires Harmful(held, deltas)
    ensures SplitsPair(shown + held, deltas)
    decreases |deltas|
  {
    var (buffer, rest) := (held + deltas[0], Text(deltas[1..]));
    var end := SafeEnd(buffer);
    var now := shown + held + deltas[0];
    assert now == shown + buffer == shown + buffer[..end] + buffer[end..];
    if CutsToken(buffer, rest) {
      var n := TokenLength(['{'] + rest).value;
      TokenLengthIsExact(['{'] + rest, n);
      TokenBraces((['{'] + rest)[..n], 1);
    } else {
      HarmfulSplitsPair(shown + buffer[..end], buffer[end..], deltas[1..]);
    }
  }

  /** When no boundary between deltas falls between two adjacent opening braces, the stream shows the
      rehydrated text. */
  lemma StreamsUnlessPairSplit(r: Resolver, deltas: seq<string>)
    requires !SplitsPair("", deltas)
    ensures Emitted(r, "", deltas) == Rehydrated(r, Text(deltas))
  {
    assert "" + "" == "" && "" + Text(deltas) == Text(deltas);
    if Harmful("", deltas) { HarmfulSplitsPair("", "", deltas); }
    StreamsUnlessHarmful(r, "", deltas);
  }

  /** Two deltas that split a placeholder between its opening braces are such a stream: its first brace is
      emitted alone, and a mapping that knows the placeholder is never asked for it. */
  lemma SplitOpeningIsHarmful(deltas: seq<string>)
    requires deltas == ["{", "{pii:a}}"]
    ensures Harmful("", deltas) && Emitted(Erase, "", deltas) != Rehydrated(Erase, Text(deltas))
  {
    assert deltas[1..] == ["{pii:a}}"] && deltas[1..][1..] == [] && Text(deltas[1..]) == "{pii:a}}" + "";
    var (token, body) := ("{{pii:a}}", "a");
    assert token[..6] == OPEN && token[6..7] == body && token[7..] == "}}" && IsBody(body);
    TokenLengthIsExact(token, 9);
    assert token[..9] == token && ['{'] + Text(deltas[1..]) == token;
    assert "" + deltas[0] == "{" && SafeEnd("{") == 1;
    assert CutsToken("{", Text(deltas[1..]));
    HarmfulDiffers(deltas);
  }
}
