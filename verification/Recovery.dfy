/**
 Snapping a mangled placeholder frame back to its mapping, from a frame already split into its kind and
 its words. The candidate codes are the exact product of what each word repairs to, up to a cap, and a
 repair is used only when every candidate that resolves gives one value, so a substitution is always an
 original of the caller's own container and a frame that recovers nothing stays as it was.
 */
module Recovery {
  import opened Options
  import opened PiiMappings
  import opened Strings
  import E = EditDistance

  // ── The candidate codes ───────────────────────────────────────────────────────────────────

  const MAX_CANDIDATES: nat := 24

  /** One more slot: every combination with every word, combination first. */
  function Times(combos: seq<seq<string>>, slot: seq<string>): seq<seq<string>> {
    if combos == [] then []
    else
      var last := |combos| - 1;
      Times(combos[..last], slot) + seq(|slot|, i requires 0 <= i < |slot| => combos[last] + [slot[i]])
  }

  function Product(slots: seq<seq<string>>): seq<seq<string>> {
    if slots == [] then [[]] else Times(Product(slots[..|slots| - 1]), slots[|slots| - 1])
  }

  /** The number of ways to choose one word of each slot. */
  function Choices(slots: seq<seq<string>>): nat {
    if slots == [] then 1 else Choices(slots[..|slots| - 1]) * |slots[|slots| - 1]|
  }

  lemma {:induction false} TimesSize(combos: seq<seq<string>>, slot: seq<string>)
    ensures |Times(combos, slot)| == |combos| * |slot|
  {
    if combos != [] {
      TimesSize(combos[..|combos| - 1], slot);
      assert |combos| * |slot| == (|combos| - 1) * |slot| + |slot|;
    }
  }

  lemma {:induction false} ProductSize(slots: seq<seq<string>>)
    ensures |Product(slots)| == Choices(slots)
  {
    if slots != [] {
      var n := |slots| - 1;
      ProductSize(slots[..n]);
      TimesSize(Product(slots[..n]), slots[n]);
    }
  }

  lemma {:induction false} TimesHolds(combos: seq<seq<string>>, slot: seq<string>, code: seq<string>)
    ensures code in Times(combos, slot) <==> code != [] && code[..|code| - 1] in combos && code[|code| - 1] in slot
  {
    if combos != [] {
      var last := |combos| - 1;
      var added := seq(|slot|, i requires 0 <= i < |slot| => combos[last] + [slot[i]]);
      TimesHolds(combos[..last], slot, code);
      assert combos == combos[..last] + [combos[last]];
      if code in added {
        var i :| 0 <= i < |slot| && added[i] == code;
        assert code[..|code| - 1] == combos[last] && code[|code| - 1] == slot[i];
      }
      if code != [] && code[..|code| - 1] == combos[last] && code[|code| - 1] in slot {
        var i :| 0 <= i < |slot| && slot[i] == code[|code| - 1];
        assert added[i] == code;
      }
    }
  }

  /** `code` takes one word of each slot. */
  predicate Chooses(code: seq<string>, slots: seq<seq<string>>) {
    |code| == |slots| && forall i :: 0 <= i < |slots| ==> code[i] in slots[i]
  }

  lemma ChoosesOneMore(code: seq<string>, slots: seq<seq<string>>)
    requires slots != []
    ensures Chooses(code, slots) <==>
      code != [] && Chooses(code[..|code| - 1], slots[..|slots| - 1]) && code[|code| - 1] in slots[|slots| - 1]
  {}

  /** The product holds exactly the codes that take one word of each slot. */
  lemma {:induction false} ProductIsExact(slots: seq<seq<string>>, code: seq<string>)
    ensures code in Product(slots) <==> Chooses(code, slots)
  {
    if slots != [] {
      var n := |slots| - 1;
      TimesHolds(Product(slots[..n]), slots[n], code);
      ChoosesOneMore(code, slots);
      if code != [] {
        ProductIsExact(slots[..n], code[..|code| - 1]);
      }
    }
  }

  /** Some prefix of the slots already has more combinations than the cap. */
  predicate Explodes(slots: seq<seq<string>>) {
    exists k | 0 <= k <= |slots| :: |Product(slots[..k])| > MAX_CANDIDATES
  }

  function Candidates(slots: seq<seq<string>>): Option<seq<seq<string>>> {
    if Explodes(slots) then None else Some(Product(slots))
  }

  lemma TimesPrefix(combos: seq<seq<string>>, slot: seq<string>, c: nat)
    requires c < |combos|
    ensures Times(combos[..c + 1], slot)
         == Times(combos[..c], slot) + seq(|slot|, i requires 0 <= i < |slot| => combos[c] + [slot[i]])
  {
    assert combos[..c + 1][..c] == combos[..c] && combos[..c + 1][c] == combos[c];
  }

  lemma {:induction false} TimesGrows(combos: seq<seq<string>>, slot: seq<string>, c: nat)
    requires c <= |combos|
    ensures |Times(combos[..c], slot)| <= |Times(combos, slot)|
  {
    TimesSize(combos[..c], slot);
    TimesSize(combos, slot);
    assert c * |slot| <= |combos| * |slot|;
  }

  /** The round for one slot: every combination is extended by every word, up to the cap. */
  method Extend(combos: seq<seq<string>>, slot: seq<string>) returns (next: Option<seq<seq<string>>>)
    ensures next == if |Times(combos, slot)| > MAX_CANDIDATES then None else Some(Times(combos, slot))
  {
    var out: seq<seq<string>> := [];
    var c := 0;
    while c < |combos|
      invariant 0 <= c <= |combos|
      invariant out == Times(combos[..c], slot) && |out| <= MAX_CANDIDATES
    {
      TimesPrefix(combos, slot, c);
      TimesGrows(combos, slot, c + 1);
      var w := 0;
      ghost var before := out;
      while w < |slot|
        invariant 0 <= w <= |slot|
        invariant out == before + seq(w, i requires 0 <= i < w => combos[c] + [slot[i]])
        invariant |out| <= MAX_CANDIDATES
      {
        out := out + [combos[c] + [slot[w]]];
        w := w + 1;
        if |out| > MAX_CANDIDATES { return None; }
      }
      c := c + 1;
    }
    assert combos[..|combos|] == combos;
    return Some(out);
  }

  method CandidateCodes(slots: seq<seq<string>>) returns (codes: Option<seq<seq<string>>>)
    ensures codes == Candidates(slots)
  {
    var combos: seq<seq<string>> := [[]];
    var s := 0;
    while s < |slots|
      invariant 0 <= s <= |slots|
      invariant combos == Product(slots[..s])
      invariant forall k :: 0 <= k <= s ==> |Product(slots[..k])| <= MAX_CANDIDATES
    {
      assert slots[..s + 1][..s] == slots[..s];
      assert Product(slots[..s + 1]) == Times(combos, slots[s]);
      var next := Extend(combos, slots[s]);
      if next.None? { return None; }
      combos := next.value;
      s := s + 1;
    }
    assert slots[..|slots|] == slots;
    return Some(combos);
  }

  lemma {:induction false} ChoicesGrow(slots: seq<seq<string>>, k: nat)
    requires k <= |slots| && forall i :: 0 <= i < |slots| ==> slots[i] != []
    ensures 1 <= Choices(slots[..k]) <= Choices(slots)
    decreases |slots|
  {
    var n := |slots| - 1;
    if k == |slots| {
      assert slots[..k] == slots;
      if k > 0 { ChoicesGrow(slots[..n], n); assert slots[..n][..n] == slots[..n]; }
    } else {
      ChoicesGrow(slots[..n], k);
      assert slots[..n][..k] == slots[..k];
    }
  }

  /** With a word for every slot, as the caller makes sure, enumeration is refused exactly when there are
      more than 24 codes. */
  lemma RefusedIffTooMany(slots: seq<seq<string>>)
    requires forall i :: 0 <= i < |slots| ==> slots[i] != []
    ensures Candidates(slots).None? <==> Choices(slots) > MAX_CANDIDATES
  {
    forall k | 0 <= k <= |slots| ensures |Product(slots[..k])| <= Choices(slots) {
      ProductSize(slots[..k]);
      ChoicesGrow(slots, k);
    }
    ProductSize(slots);
    assert slots[..|slots|] == slots;
  }

  /** A later empty slot makes the product empty, but not before the cap is passed. */
  lemma EmptySlotCanStillRefuse(slots: seq<seq<string>>, big: seq<string>)
    requires slots == [big, []] && |big| > MAX_CANDIDATES
    ensures Choices(slots) == 0 && Candidates(slots).None?
  {
    ProductSize(slots[..1]);
    assert slots[..1] == [big] && slots[..1][..0] == [] && slots[..1][0] == big;
    assert slots[1] == [];
    assert Choices(slots[..1]) == |big|;
  }

  // ── Recovering a frame ────────────────────────────────────────────────────────────────────

  /** The word list of names, and the one of every other kind. */
  datatype Books = Books(name: seq<string>, generic: seq<string>)

  function BookFor(books: Books, kind: string): seq<string> { if kind == "name" then books.name else books.generic }

  function Join(words: seq<string>): string {
    if words == [] then "" else if |words| == 1 then words[0] else words[0] + "-" + Join(words[1..])
  }

  /** What each word repairs to. */
  function Slots(words: seq<string>, book: seq<string>): seq<seq<string>> {
    seq(|words|, i requires 0 <= i < |words| => E.Repaired(Lower(words[i]), book))
  }

  /** The caller's view of the mapping store. */
  datatype View = View(rows: Rows, container: Container)

  function Lookup(v: View, kind: string, code: string): Option<string> {
    Resolve(v.rows, v.container, Format(kind, code))
  }

  /** The values that the codes resolve to. */
  function Values(v: View, kind: string, codes: seq<seq<string>>): set<string> {
    set i | 0 <= i < |codes| && Lookup(v, kind, Join(codes[i])).Some? :: Lookup(v, kind, Join(codes[i])).value
  }

  /** Some code resolves, and all that resolve give this value. */
  predicate Agree(v: View, kind: string, codes: seq<seq<string>>, value: string) {
    && (exists code | code in codes :: Lookup(v, kind, Join(code)) == Some(value))
    && (forall code | code in codes :: Lookup(v, kind, Join(code)).Some? ==> Lookup(v, kind, Join(code)) == Some(value))
  }

  lemma OneValueIffAgree(v: View, kind: string, codes: seq<seq<string>>, value: string)
    ensures Values(v, kind, codes) == {value} <==> Agree(v, kind, codes, value)
  {
    var values := Values(v, kind, codes);
    if values == {value} {
      assert value in values;
      forall code | code in codes && Lookup(v, kind, Join(code)).Some?
        ensures Lookup(v, kind, Join(code)) == Some(value)
      {
        var i :| 0 <= i < |codes| && codes[i] == code;
        assert Lookup(v, kind, Join(codes[i])).value in values;
      }
    }
    if Agree(v, kind, codes, value) {
      var code :| code in codes && Lookup(v, kind, Join(code)) == Some(value);
      var i :| 0 <= i < |codes| && codes[i] == code;
      assert value in values;
      forall x | x in values ensures x == value {
        var j :| 0 <= j < |codes| && Lookup(v, kind, Join(codes[j])) == Some(x);
        assert codes[j] in codes;
      }
    }
  }

  lemma SizeOneIsSingleton(values: set<string>, value: string)
    requires |values| == 1 && value in values
    ensures values == {value}
  {
    assert |values - {value}| == 0;
  }

  /** The words of the frame as they stand, under a kind that is one of the kinds. */
  function AsWritten(v: View, kindRaw: string, words: seq<string>): Option<string> {
    if Lower(kindRaw) in KINDS then Lookup(v, Lower(kindRaw), Join(words)) else None
  }

  /** The codes the repair may try, when it may try any. */
  function Repairs(books: Books, kindRaw: string, words: seq<string>): Option<(string, seq<seq<string>>)> {
    var kind := E.Kind(Lower(kindRaw), KINDS);
    if kind.None? then None
    else
      var slots := Slots(words, BookFor(books, kind.value));
      if [] in slots || Candidates(slots).None? then None else Some((kind.value, Candidates(slots).value))
  }

  /** What a frame's kind and lower-case words recover to. */
  ghost function Recovered(v: View, books: Books, kindRaw: string, words: seq<string>): Option<string> {
    var repairs := Repairs(books, kindRaw, words);
    if words == [] then None
    else if AsWritten(v, kindRaw, words).Some? then AsWritten(v, kindRaw, words)
    else if repairs.Some? then Unanimous(v, repairs.value.0, repairs.value.1)
    else None
  }

  ghost function Unanimous(v: View, kind: string, codes: seq<seq<string>>): Option<string> {
    if value :| Agree(v, kind, codes, value) then Some(value) else None
  }

  lemma ValuesOfOneMore(v: View, kind: string, codes: seq<seq<string>>, n: nat)
    requires n < |codes|
    ensures var last := Lookup(v, kind, Join(codes[n]));
      Values(v, kind, codes[..n + 1]) == Values(v, kind, codes[..n]) + if last.Some? then {last.value} else {}
  {}

  /** Resolves every candidate and accepts only one distinct value. */
  method ResolveAll(v: View, kind: string, codes: seq<seq<string>>) returns (recovered: Option<string>)
    ensures recovered == Unanimous(v, kind, codes)
  {
    var values: set<string> := {};
    recovered := None;
    var i := 0;
    while i < |codes|
      invariant 0 <= i <= |codes|
      invariant values == Values(v, kind, codes[..i])
      invariant if recovered.Some? then recovered.value in values else values == {}
    {
      var original := Lookup(v, kind, Join(codes[i]));
      ValuesOfOneMore(v, kind, codes, i);
      if original.Some? {
        values := values + {original.value};
        recovered := original;
      }
      i := i + 1;
    }
    assert codes[..|codes|] == codes;
    forall value ensures values == {value} <==> Agree(v, kind, codes, value) {
      OneValueIffAgree(v, kind, codes, value);
    }
    if |values| == 1 {
      SizeOneIsSingleton(values, recovered.value);
    } else {
      recovered := None;
    }
  }

  method RecoverFrame(v: View, books: Books, kindRaw: string, words: seq<string>) returns (recovered: Option<string>)
    ensures recovered == Recovered(v, books, kindRaw, words)
  {
    if words == [] { return None; }
    var kindLower := Lower(kindRaw);
    if kindLower in KINDS {
      var asIs := Lookup(v, kindLower, Join(words));
      if asIs.Some? { return asIs; }
    }
    var kind := E.RepairKind(kindRaw, KINDS);
    if kind.None? { return None; }
    var slots := Slots(words, BookFor(books, kind.value));
    if [] in slots { return None; }
    var codes := CandidateCodes(slots);
    if codes.None? { return None; }
    recovered := ResolveAll(v, kind.value, codes.value);
  }

  // ── What recovery can and cannot do ───────────────────────────────────────────────────────

  /** A repaired substitution, one that the words as written do not resolve to, is a value that every
      resolving choice of repaired words gives, and at least one does; and any such value is taken. */
  lemma RepairedIffUnanimous(v: View, books: Books, kindRaw: string, words: seq<string>, value: string)
    requires words != [] && AsWritten(v, kindRaw, words).None?
    ensures Recovered(v, books, kindRaw, words) == Some(value) <==>
      var kind := E.Kind(Lower(kindRaw), KINDS);
      kind.Some? &&
      var slots := Slots(words, BookFor(books, kind.value));
      && [] !in slots && Choices(slots) <= MAX_CANDIDATES
      && (exists code | Chooses(code, slots) :: Lookup(v, kind.value, Join(code)) == Some(value))
      && (forall code | Chooses(code, slots) :: Lookup(v, kind.value, Join(code)) in {None, Some(value)})
  {
    var kind := E.Kind(Lower(kindRaw), KINDS);
    if kind.Some? {
      var slots := Slots(words, BookFor(books, kind.value));
      if [] !in slots {
        RefusedIffTooMany(slots);
        forall code ensures code in Product(slots) <==> Chooses(code, slots) { ProductIsExact(slots, code); }
        UnanimousIffAgree(v, kind.value, Product(slots), value);
      }
    }
  }

  lemma UnanimousIffAgree(v: View, kind: string, codes: seq<seq<string>>, value: string)
    ensures Unanimous(v, kind, codes) == Some(value) <==> Agree(v, kind, codes, value)
  {}

  /** The text put in place of a frame: its exact mapping, else what it recovers to, else the frame. */
  ghost function Substitute(v: View, books: Books, f: Frame): string {
    var exact := Resolve(v.rows, v.container, f.whole);
    if exact.Some? then exact.value
    else
      var recovered := Recovered(v, books, f.kindRaw, f.words);
      if recovered.Some? then recovered.value else f.whole
  }

  /** Some mapping of the caller's own container has this original. */
  ghost predicate OwnOriginal(v: View, value: string) {
    exists key | key in v.rows :: key.container == v.container && v.rows[key].original == value
  }

  /** A frame is left byte for byte or replaced by an original of the caller's own container. */
  lemma SubstitutionIsOwn(v: View, books: Books, f: Frame)
    ensures Substitute(v, books, f) == f.whole || OwnOriginal(v, Substitute(v, books, f))
  {}

  /** Rows of other containers have no say: two stores that agree on the caller's container substitute
      the same text for every frame. */
  lemma OtherContainersAreInert(v: View, w: View, books: Books, f: Frame)
    requires v.container == w.container
    requires forall p :: Resolve(v.rows, v.container, p) == Resolve(w.rows, w.container, p)
    ensures Substitute(v, books, f) == Substitute(w, books, f)
  {
    assert AsWritten(v, f.kindRaw, f.words) == AsWritten(w, f.kindRaw, f.words);
    var repairs := Repairs(books, f.kindRaw, f.words);
    if repairs.Some? {
      var (kind, codes) := repairs.value;
      forall value ensures Agree(v, kind, codes, value) <==> Agree(w, kind, codes, value) {}
      forall value ensures Unanimous(v, kind, codes) == Some(value) <==> Unanimous(w, kind, codes) == Some(value) {
        UnanimousIffAgree(v, kind, codes, value);
        UnanimousIffAgree(w, kind, codes, value);
      }
      if Unanimous(v, kind, codes).Some? {
        assert Unanimous(w, kind, codes) == Some(Unanimous(v, kind, codes).value);
      } else if Unanimous(w, kind, codes).Some? {
        assert Unanimous(v, kind, codes) == Some(Unanimous(w, kind, codes).value);
      }
    }
  }

  // ── A whole text of frames ────────────────────────────────────────────────────────────────

  /** One match of the loose scan: the text before it, the match, its kind and its words. */
  datatype Frame = Frame(gap: string, whole: string, kindRaw: string, words: seq<string>)

  function Text(frames: seq<Frame>): string {
    if frames == [] then "" else Text(frames[..|frames| - 1]) + frames[|frames| - 1].gap + frames[|frames| - 1].whole
  }

  ghost function Substituted(v: View, books: Books, frames: seq<Frame>): string {
    if frames == [] then ""
    else
      var last := frames[|frames| - 1];
      Substituted(v, books, frames[..|frames| - 1]) + last.gap + Substitute(v, books, last)
  }

  /** One match of the loose scan: exact, else recovered, else as it stands. */
  method SubstituteFrame(v: View, books: Books, f: Frame) returns (shown: string)
    ensures shown == Substitute(v, books, f)
  {
    var exact := Resolve(v.rows, v.container, f.whole);
    if exact.Some? { return exact.value; }
    var recovered := RecoverFrame(v, books, f.kindRaw, f.words);
    shown := if recovered.Some? then recovered.value else f.whole;
  }

  method RehydrateFrames(v: View, books: Books, frames: seq<Frame>, tail: string) returns (out: string)
    ensures out == Substituted(v, books, frames) + tail
  {
    out := "";
    var i := 0;
    while i < |frames|
      invariant 0 <= i <= |frames|
      invariant out == Substituted(v, books, frames[..i])
    {
      SubstitutedOneMore(v, books, frames, i);
      var shown := SubstituteFrame(v, books, frames[i]);
      out := out + frames[i].gap + shown;
      i := i + 1;
    }
    assert frames[..|frames|] == frames;
    out := out + tail;
  }

  lemma SubstitutedOneMore(v: View, books: Books, frames: seq<Frame>, i: nat)
    requires i < |frames|
    ensures Substituted(v, books, frames[..i + 1])
         == Substituted(v, books, frames[..i]) + frames[i].gap + Substitute(v, books, frames[i])
  {
    assert frames[..i + 1][..i] == frames[..i];
  }

  /** A container with no mappings, never filled or wholly erased, changes no text. */
  lemma {:induction false} EmptyContainerChangesNothing(v: View, books: Books, frames: seq<Frame>)
    requires forall key | key in v.rows :: key.container != v.container
    ensures Substituted(v, books, frames) == Text(frames)
  {
    if frames != [] {
      EmptyContainerChangesNothing(v, books, frames[..|frames| - 1]);
      SubstitutionIsOwn(v, books, frames[|frames| - 1]);
    }
  }

  // ── One edit a word is always undone ──────────────────────────────────────────────────────

  /** Every written word is one edit from its code word and not diverted to another. */
  predicate Mangled(words: seq<string>, code: seq<string>, book: seq<string>) {
    && |words| == |code|
    && forall i :: 0 <= i < |words| ==>
         && code[i] in book && E.Levenshtein(Lower(words[i]), code[i]) <= 1
         && (Lower(words[i]) == code[i] || !E.Diverted(book, Lower(words[i]), code[i]))
  }

  /** A frame with its kind intact and each word within one edit of a code resolves to what that code
      maps to, when the words as written are not themselves a code in use. */
  lemma OneEditAWordIsUndone(v: View, books: Books, kind: string, words: seq<string>, code: seq<string>, value: string)
    requires kind in KINDS && E.Separated(BookFor(books, kind)) && words != []
    requires Mangled(words, code, BookFor(books, kind))
    requires Lookup(v, kind, Join(code)) == Some(value)
    requires Lookup(v, kind, Join(words)) in {None, Some(value)}
    ensures Recovered(v, books, kind, words) == Some(value)
  {
    KindsAreLower(kind);
    if Lookup(v, kind, Join(words)).None? {
      KindOfItself(kind);
      var book := BookFor(books, kind);
      var slots := Slots(words, book);
      forall i | 0 <= i < |words| ensures slots[i] == [code[i]] {
        E.RepairsOneEdit(book, Lower(words[i]), code[i]);
      }
      OneChoice(slots, code);
      RepairedIffUnanimous(v, books, kind, words, value);
    }
  }

  lemma {:induction false} OneChoice(slots: seq<seq<string>>, code: seq<string>)
    requires |slots| == |code| && forall i :: 0 <= i < |slots| ==> slots[i] == [code[i]]
    ensures Choices(slots) == 1
    ensures forall c :: Chooses(c, slots) <==> c == code
  {
    if slots != [] {
      OneChoice(slots[..|slots| - 1], code[..|code| - 1]);
      assert slots[|slots| - 1] == [code[|slots| - 1]];
    }
    forall c ensures Chooses(c, slots) <==> c == code {
      if Chooses(c, slots) {
        forall i | 0 <= i < |slots| ensures c[i] == code[i] { assert c[i] in slots[i]; }
      }
    }
  }

  lemma KindsAreLower(kind: string)
    requires kind in KINDS
    ensures Lower(kind) == kind
  {}

  lemma KindOfItself(kind: string)
    requires kind in KINDS
    ensures E.Kind(kind, KINDS) == Some(kind)
  {
    var i :| 0 <= i < |KINDS| && KINDS[i] == kind;
    forall j | 0 <= j < |KINDS| && j != i ensures E.Levenshtein(kind, KINDS[i]) < E.Levenshtein(kind, KINDS[j]) {
      E.ZeroIffEqual(kind, KINDS[i]);
      E.ZeroIffEqual(kind, KINDS[j]);
      KindsDiffer(i, j);
    }
    E.ZeroIffEqual(kind, kind);
    assert E.OnlyNearestKind(kind, KINDS, i);
    E.KindIsOnlyNearest(kind, KINDS);
  }

  lemma KindsDiffer(i: nat, j: nat)
    requires i < |KINDS| && j < |KINDS| && i != j
    ensures KINDS[i] != KINDS[j]
  {
    assert |KINDS| == 9;
  }
}
