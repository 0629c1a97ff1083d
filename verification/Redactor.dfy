/**
 The redactor at work on its mapping store: each span to redact is looked up by its hash or given a
 freshly minted placeholder, and the mapping is saved before the next span is looked at.
 */
module Redactor {
  import opened Options
  import opened Placeholders
  import opened PiiMappings
  import opened Redaction
  import S = PiiStores

  // ── The store between redactions ──────────────────────────────────────────────────────────

  /** Rows are filed under their own key, their placeholders match the pattern, a hash is the hash of the
      original, and a container holds one mapping per hash. */
  ghost predicate WellKept(rows: Rows) {
    && (forall key | key in rows :: KeyOf(rows[key]) == key && IsToken(key.placeholder) && HashFits(rows[key]))
    && (forall a, b | a in rows && b in rows :: SameHash(rows, a, b) ==> a == b)
  }

  predicate HashFits(m: Mapping) { m.hash.Some? ==> m.hash.value.kind == m.kind && m.hash.value.value == m.original }

  predicate SameHash(rows: Rows, a: Key, b: Key)
    requires a in rows && b in rows
  {
    a.container == b.container && rows[a].hash.Some? && rows[a].hash == rows[b].hash
  }

  /** Every mapping of `rows` is still there. */
  ghost predicate Keeps(rows: Rows, later: Rows) {
    forall key | key in rows :: key in later && later[key] == rows[key]
  }

  function Own(rows: Rows, container: Container): Resolver { p => Resolve(rows, container, p) }

  /** In the store as it is, and in every store that still keeps its mappings, `out` rehydrates to what
      `text` rehydrates to. */
  ghost predicate UndoneEverAfter(rows: Rows, container: Container, text: string, out: string) {
    forall later: Rows | Keeps(rows, later) ::
      Rehydrated(Own(later, container), out) == Rehydrated(Own(later, container), text)
  }

  // ── Minting ───────────────────────────────────────────────────────────────────────────────

  const ATTEMPTS: nat := 24

  /** The code drawn for a span, a kind and an attempt. */
  type Draws = (nat, string, nat) -> string

  ghost predicate DrawnBefore(draws: Draws, n: nat, placeholder: string) {
    exists i, kind, a | 0 <= i < n && kind in KINDS && 0 <= a <= ATTEMPTS ::
      placeholder == Format(kind, draws(i, kind, a))
  }

  /** The store has gained nothing but what was drawn for the first `n` spans. */
  ghost predicate OnlyDrawn(was: Rows, rows: Rows, draws: Draws, n: nat) {
    forall key | key in rows :: key in was || DrawnBefore(draws, n, key.placeholder)
  }

  lemma OneMoreDrawn(draws: Draws, n: nat)
    ensures forall p | DrawnBefore(draws, n, p) :: DrawnBefore(draws, n + 1, p)
    ensures forall kind, a: nat | kind in KINDS && a <= ATTEMPTS ::
      DrawnBefore(draws, n + 1, Format(kind, draws(n, kind, a)))
  {}

  /** Codes are ids, and the one drawn unchecked after all attempts collided is new. */
  ghost predicate FairDraws(draws: Draws, rows: Rows, container: Container) {
    && (forall i, kind, a :: IsId(draws(i, kind, a)))
    && (forall i, kind | kind in KINDS :: LastResortIsNew(draws, rows, container, i, kind))
  }

  ghost predicate LastResortIsNew(draws: Draws, rows: Rows, container: Container, i: nat, kind: string) {
    var placeholder := Format(kind, draws(i, kind, ATTEMPTS));
    Key(container, placeholder) !in rows && !DrawnBefore(draws, i, placeholder)
  }

  lemma FormatIsToken(kind: string, code: string)
    requires kind in KINDS && IsId(code)
    ensures IsToken(Format(kind, code))
  {
    var (t, body) := (Format(kind, code), kind + ":" + code);
    assert IsKind(kind);
    assert body[|kind|] == ':' && body[..|kind|] == kind && body[|kind| + 1..] == code;
    assert IsBody(body);
    assert t == OPEN + body + "}}";
    assert t[..6] == OPEN && t[6..|t| - 2] == body && t[|t| - 2..] == "}}";
  }

  class Redactor {
    const detect: string -> seq<Span>
    const indexKey: Option<string>
    const store: S.MemoryStore

    constructor (detect: string -> seq<Span>, indexKey: Option<string>, store: S.MemoryStore)
      ensures this.detect == detect && this.indexKey == indexKey && this.store == store
    {
      this.detect, this.indexKey, this.store := detect, indexKey, store;
    }

    function HashOf(kind: string, value: string): Option<Hash> {
      if indexKey.None? then None else Some(Hash(indexKey.value, kind, value))
    }

    /** The first drawn placeholder that the container does not use; after 24 collisions, the next one. */
    method Mint(kind: string, container: Container, draws: Draws, n: nat) returns (placeholder: string)
      requires kind in KINDS && forall a :: IsId(draws(n, kind, a))
      ensures IsToken(placeholder)
      ensures exists a | 0 <= a <= ATTEMPTS :: placeholder == Format(kind, draws(n, kind, a))
      ensures Key(container, placeholder) in store.byKey ==> placeholder == Format(kind, draws(n, kind, ATTEMPTS))
    {
      var attempt := 0;
      while attempt < ATTEMPTS
        invariant 0 <= attempt <= ATTEMPTS
      {
        placeholder := Format(kind, draws(n, kind, attempt));
        FormatIsToken(kind, draws(n, kind, attempt));
        var taken := store.ResolvePlaceholder(placeholder, container);
        if taken.None? { return; }
        attempt := attempt + 1;
      }
      FormatIsToken(kind, draws(n, kind, ATTEMPTS));
      placeholder := Format(kind, draws(n, kind, ATTEMPTS));
    }

    /** A placeholder for a value the container holds no mapping of, minted and saved. */
    method MintAndSave(s: Span, container: Container, subjects: seq<string>, draws: Draws, n: nat)
      returns (placeholder: string)
      requires s.kind in KINDS && WellKept(store.byKey)
      requires forall a :: IsId(draws(n, s.kind, a))
      requires Key(container, Format(s.kind, draws(n, s.kind, ATTEMPTS))) !in store.byKey
      requires HashOf(s.kind, s.value).Some? ==> forall key | key in store.byKey ::
        !(store.byKey[key].hash == HashOf(s.kind, s.value) && store.byKey[key].container == container)
      modifies store
      ensures WellKept(store.byKey)
      ensures exists a | 0 <= a <= ATTEMPTS :: placeholder == Format(s.kind, draws(n, s.kind, a))
      ensures var key := Key(container, placeholder);
        && key !in old(store.byKey)
        && store.byKey ==
           old(store.byKey)[key := Mapping(placeholder, s.value, HashOf(s.kind, s.value), s.kind, container)]
    {
      placeholder := Mint(s.kind, container, draws, n);
      var m := Mapping(placeholder, s.value, HashOf(s.kind, s.value), s.kind, container);
      assert KeyOf(m) !in store.byKey;
      NewMappingIsKept(store.byKey, m);
      store.SaveMapping(m, subjects);
    }

    /** The placeholder for one span: the one its hash already has, or a minted one, saved. */
    method PlaceholderFor(s: Span, container: Container, subjects: seq<string>, draws: Draws, n: nat)
      returns (placeholder: string)
      requires s.kind in KINDS && WellKept(store.byKey)
      requires forall a :: IsId(draws(n, s.kind, a))
      requires Key(container, Format(s.kind, draws(n, s.kind, ATTEMPTS))) !in store.byKey
      modifies store
      ensures WellKept(store.byKey) && Keeps(old(store.byKey), store.byKey)
      ensures var key := Key(container, placeholder);
        && key in store.byKey && store.byKey[key].original == s.value
        && store.byKey[key].hash == HashOf(s.kind, s.value)
        && (forall k | k in store.byKey :: k in old(store.byKey) || k == key)
        && (key !in old(store.byKey) ==>
            exists a | 0 <= a <= ATTEMPTS :: placeholder == Format(s.kind, draws(n, s.kind, a)))
    {
      var hash := HashOf(s.kind, s.value);
      var existing: Option<Mapping> := None;
      if hash.Some? { existing := store.FindByHash(hash.value, container); }
      if existing.Some? {
        placeholder := existing.value.placeholder;
        var key :| key in store.byKey && store.byKey[key] == existing.value;
        assert KeyOf(existing.value) == key && HashFits(store.byKey[key]);
        if |subjects| > 0 {
          store.SaveMapping(existing.value, subjects);
          assert store.byKey == old(store.byKey);
        }
      } else {
        placeholder := MintAndSave(s, container, subjects, draws, n);
      }
    }

    /** The placeholder is the container's mapping of the span's value, under its hash. */
    ghost predicate Serves(rows: Rows, container: Container, placeholder: string, s: Span) {
      var key := Key(container, placeholder);
      && key in rows && IsToken(placeholder) && rows[key].original == s.value
      && rows[key].hash == HashOf(s.kind, s.value)
    }

    /** One span of the loop: the store only gains what was drawn for it. */
    method ReplaceOne(s: Span, container: Container, subjects: seq<string>, draws: Draws, n: nat, ghost was: Rows)
      returns (placeholder: string)
      requires s.kind in KINDS && WellKept(store.byKey)
      requires FairDraws(draws, was, container) && OnlyDrawn(was, store.byKey, draws, n)
      modifies store
      ensures WellKept(store.byKey) && Keeps(old(store.byKey), store.byKey)
      ensures OnlyDrawn(was, store.byKey, draws, n + 1) && Serves(store.byKey, container, placeholder, s)
    {
      assert LastResortIsNew(draws, was, container, n, s.kind);
      placeholder := PlaceholderFor(s, container, subjects, draws, n);
      var key := Key(container, placeholder);
      assert KeyOf(store.byKey[key]) == key;
      OneMoreDrawn(draws, n);
    }

    /** The loop over the spans to redact. */
    method ReplaceSpans(text: string, spans: seq<Span>, container: Container, subjects: seq<string>, draws: Draws)
      returns (out: string, ghost used: seq<string>)
      requires WellKept(store.byKey) && FairDraws(draws, store.byKey, container)
      requires Chain(spans, |text|) && forall s | s in spans :: s.kind in KINDS
      modifies store
      ensures WellKept(store.byKey) && Keeps(old(store.byKey), store.byKey)
      ensures |used| == |spans| && out == Redacted(text, spans, used)
      ensures ServesAll(store.byKey, container, used, spans)
    {
      var result, last, i := "", 0, 0;
      used := [];
      while i < |spans|
        invariant 0 <= i <= |spans| && |used| == i
        invariant WellKept(store.byKey) && Keeps(old(store.byKey), store.byKey)
        invariant OnlyDrawn(old(store.byKey), store.byKey, draws, i)
        invariant ServesAll(store.byKey, container, used, spans[..i])
        invariant last == LastEnd(spans[..i]) && result == SplicedFirst(text, spans, used)
      {
        var span := spans[i];
        assert span in spans;
        ghost var before := store.byKey;
        var placeholder := ReplaceOne(span, container, subjects, draws, i, old(store.byKey));
        ServesOneMore(before, store.byKey, container, used, spans, i, placeholder);
        SplicedOneMore(text, spans, used, i, placeholder);
        result := result + text[last..span.start] + placeholder;
        last := span.end;
        used := used + [placeholder];
        i := i + 1;
      }
      assert spans[..i] == spans;
      ChainPrefix(spans, i, |text|);
      out := result + text[last..];
    }

    ghost predicate ServesAll(rows: Rows, container: Container, used: seq<string>, spans: seq<Span>) {
      |used| == |spans| && forall k | 0 <= k < |used| :: Serves(rows, container, used[k], spans[k])
    }

    lemma ServesOneMore(rows: Rows, later: Rows, container: Container, used: seq<string>, spans: seq<Span>,
                        i: nat, p: string)
      requires i < |spans| && ServesAll(rows, container, used, spans[..i])
      requires Keeps(rows, later) && Serves(later, container, p, spans[i])
      ensures ServesAll(later, container, used + [p], spans[..i + 1])
    {}

    /** Redacts one text. None is the error for a detector that returns a kind it may not. */
    method RedactText(text: string, container: Container, subjects: seq<string>, draws: Draws)
      returns (out: Option<string>, ghost spans: seq<Span>, ghost used: seq<string>)
      requires WellKept(store.byKey) && FairDraws(draws, store.byKey, container)
      requires forall s | s in detect(text) && ValidSpan(s, |text|) :: s.value == text[s.start..s.end]
      modifies store
      ensures out.None? <==> exists s | s in detect(text) :: s.kind !in KINDS
      ensures out.None? ==> store.State() == old(store.State())
      ensures WellKept(store.byKey) && Keeps(old(store.byKey), store.byKey)
      ensures out.Some? ==> |used| == |spans| && Chain(spans, |text|) && out.value == Redacted(text, spans, used)
      ensures out.Some? ==> forall s | s in detect(text) && !Touches(text, s) :: Decided(spans, s, |text|)
      ensures out.Some? ==> forall i: nat, n: nat | TokenAt(text, i, n) :: Occurs(text[i..i + n], out.value)
      ensures out.Some? ==> ServesAll(store.byKey, container, used, spans)
      ensures out.Some? ==> UndoneEverAfter(store.byKey, container, text, out.value)
    {
      var detected := detect(text);
      spans, used := [], [];
      if exists s | s in detected :: s.kind !in KINDS { return None, spans, used; }
      var toRedact := SpansToRedact(detected, text);
      spans := toRedact;
      var result;
      result, used := ReplaceSpans(text, toRedact, container, subjects, draws);
      forall s | s in spans ensures s.value == text[s.start..s.end] {
        assert ValidSpan(s, |text|);
      }
      ServedIsUndone(store.byKey, container, text, spans, used);
      forall i: nat, n: nat | TokenAt(text, i, n) ensures Occurs(text[i..i + n], result) {
        RedactionKeepsPlaceholders(text, spans, used, i, n);
      }
      out := Some(result);
    }

    /** With an index key, one value of one kind has one placeholder in its container, whenever it is
        redacted. */
    lemma OneValueOnePlaceholder(rows: Rows, container: Container, p: string, q: string, s: Span, t: Span)
      requires WellKept(rows) && indexKey.Some? && s.kind == t.kind && s.value == t.value
      requires Serves(rows, container, p, s) && Serves(rows, container, q, t)
      ensures p == q
    {
      assert SameHash(rows, Key(container, p), Key(container, q));
    }

    lemma ServedIsUndone(rows: Rows, container: Container, text: string, spans: seq<Span>, used: seq<string>)
      requires Chain(spans, |text|) && |used| == |spans| && forall s | s in spans :: !Touches(text, s)
      requires ServesAll(rows, container, used, spans)
      requires forall s | s in spans :: ValidSpan(s, |text|) && s.value == text[s.start..s.end]
      ensures UndoneEverAfter(rows, container, text, Redacted(text, spans, used))
    {
      forall later: Rows | Keeps(rows, later)
        ensures Rehydrated(Own(later, container), Redacted(text, spans, used)) ==
                Rehydrated(Own(later, container), text)
      {
        forall k | 0 <= k < |spans|
          ensures IsToken(used[k]) && Own(later, container)(used[k]) == Some(text[spans[k].start..spans[k].end])
        {
          assert Serves(rows, container, used[k], spans[k]) && spans[k] in spans;
        }
        RedactionIsUndone(Own(later, container), text, spans, used);
      }
    }
  }

  /** The spans that `used` has replacements for, spliced. */
  function SplicedFirst(text: string, spans: seq<Span>, used: seq<string>): string
    requires Chain(spans, |text|) && |used| <= |spans|
  {
    ChainPrefix(spans, |used|, |text|);
    Spliced(text, spans[..|used|], used)
  }

  lemma SplicedOneMore(text: string, spans: seq<Span>, used: seq<string>, i: nat, placeholder: string)
    requires Chain(spans, |text|) && |used| == i < |spans|
    ensures 0 <= LastEnd(spans[..i]) <= spans[i].start <= |text| && LastEnd(spans[..i + 1]) == spans[i].end
    ensures SplicedFirst(text, spans, used + [placeholder])
         == SplicedFirst(text, spans, used) + text[LastEnd(spans[..i])..spans[i].start] + placeholder
  {
    ChainPrefix(spans, i, |text|);
    ChainPrefix(spans, i + 1, |text|);
    assert ValidSpan(spans[i], |text|);
    assert spans[..i + 1][..i] == spans[..i] && (used + [placeholder])[..i] == used;
  }

  lemma NewMappingIsKept(rows: Rows, m: Mapping)
    requires WellKept(rows) && KeyOf(m) !in rows && IsToken(m.placeholder) && HashFits(m)
    requires m.hash.Some? ==>
      forall key | key in rows :: !(rows[key].hash == m.hash && rows[key].container == m.container)
    ensures WellKept(rows[KeyOf(m) := m]) && Keeps(rows, rows[KeyOf(m) := m])
  {}
}
