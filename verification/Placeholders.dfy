/**
 The exact placeholder pattern as a hand matcher, and exact rehydration. A placeholder opens with two
 braces and has none after them until it closes, so two placeholders never overlap, and a text can be
 rehydrated in parts wherever no placeholder lies across the cut.
 */
module Placeholders {
  import opened Options

  // ── The pattern ───────────────────────────────────────────────────────────────────────────

  const OPEN := "{{pii:"

  predicate IsLetter(c: char) { 'a' <= c <= 'z' }

  predicate IsIdChar(c: char) { IsLetter(c) || '0' <= c <= '9' || c == '-' }

  predicate IsId(s: string) { s != "" && forall c | c in s :: IsIdChar(c) }

  predicate IsKind(s: string) { s != "" && forall c | c in s :: IsLetter(c) }

  /** An id, with or without a kind before it. */
  predicate IsBody(b: string) {
    IsId(b) || exists k | 0 <= k < |b| :: b[k] == ':' && IsKind(b[..k]) && IsId(b[k + 1..])
  }

  predicate IsToken(t: string) {
    |t| >= 8 && t[..6] == OPEN && t[|t| - 2..] == "}}" && IsBody(t[6..|t| - 2])
  }

  /** The first closing brace from `i` on, or the end of the text. */
  function Close(text: string, i: nat): (e: nat)
    requires i <= |text|
    ensures i <= e <= |text|
    decreases |text| - i
  {
    if i == |text| || text[i] == '}' then i else Close(text, i + 1)
  }

  lemma {:induction false} CloseIsFirst(text: string, i: nat)
    requires i <= |text|
    ensures Close(text, i) < |text| ==> text[Close(text, i)] == '}'
    ensures forall k :: i <= k < Close(text, i) ==> text[k] != '}'
    decreases |text| - i
  {
    if i < |text| && text[i] != '}' { CloseIsFirst(text, i + 1); }
  }

  /** The length of the placeholder that starts the text, when one does. */
  function TokenLength(text: string): Option<nat> {
    if |text| < 6 || text[..6] != OPEN then None
    else
      var e := Close(text, 6);
      if e + 1 < |text| && text[e + 1] == '}' && IsBody(text[6..e]) then Some(e + 2) else None
  }

  lemma BodyHasNoBraces(b: string, i: nat)
    requires IsBody(b) && i < |b|
    ensures b[i] != '{' && b[i] != '}'
  {
    if IsId(b) {
      assert b[i] in b;
    } else {
      var k :| 0 <= k < |b| && b[k] == ':' && IsKind(b[..k]) && IsId(b[k + 1..]);
      if i < k { assert b[..k][i] in b[..k]; }
      if i > k { assert b[k + 1..][i - k - 1] in b[k + 1..]; }
    }
  }

  /** Braces open a placeholder in its first two characters and close it in its last two. */
  lemma TokenBraces(t: string, i: nat)
    requires IsToken(t) && i < |t|
    ensures t[i] == '{' <==> i < 2
    ensures t[i] == '}' <==> i >= |t| - 2
  {
    var b := t[6..|t| - 2];
    if i < 6 {
      assert t[i] == OPEN[i];
    } else if i < |t| - 2 {
      BodyHasNoBraces(b, i - 6);
      assert t[i] == b[i - 6];
    } else {
      assert t[i] == t[|t| - 2..][i - (|t| - 2)];
    }
  }

  lemma SliceOfPrefix(text: string, n: nat, i: nat, j: nat)
    requires i <= j <= n <= |text|
    ensures text[..n][i..j] == text[i..j]
  {}

  /** The matcher finds exactly the placeholders of the pattern, and at most one at a place. */
  lemma TokenLengthIsExact(text: string, n: nat)
    ensures TokenLength(text) == Some(n) <==> n <= |text| && IsToken(text[..n])
  {
    if |text| >= 6 { CloseIsFirst(text, 6); }
    if TokenLength(text) == Some(n) {
      var t := text[..n];
      assert text[n - 2] == '}' && text[n - 1] == '}';
      assert t[n - 2..] == [text[n - 2], text[n - 1]];
      SliceOfPrefix(text, n, 0, 6);
      SliceOfPrefix(text, n, 6, n - 2);
    }
    if n <= |text| && IsToken(text[..n]) {
      var t := text[..n];
      SliceOfPrefix(text, n, 0, 6);
      SliceOfPrefix(text, n, 6, n - 2);
      var e := Close(text, 6);
      forall k | 6 <= k < n - 2 ensures text[k] != '}' { TokenBraces(t, k); assert t[k] == text[k]; }
      TokenBraces(t, n - 2);
      TokenBraces(t, n - 1);
      assert text[n - 2] == t[n - 2] && text[n - 1] == t[n - 1];
      assert e == n - 2;
    }
  }

  /** A placeholder of length `n` starts at `i`. */
  predicate TokenAt(text: string, i: nat, n: nat) {
    i + n <= |text| && IsToken(text[i..i + n])
  }

  lemma TokenHasLength(text: string, i: nat, n: nat)
    requires TokenAt(text, i, n)
    ensures n >= 8
  {}

  lemma TokenAtBraces(text: string, i: nat, n: nat, k: nat)
    requires TokenAt(text, i, n) && i <= k < i + n
    ensures text[k] == '{' <==> k < i + 2
    ensures text[k] == '}' <==> k >= i + n - 2
    ensures n >= 8
  {
    TokenBraces(text[i..i + n], k - i);
  }

  lemma TokensDoNotOverlap(text: string, i: nat, n: nat, j: nat, m: nat)
    requires TokenAt(text, i, n) && TokenAt(text, j, m) && i <= j < i + n
    ensures i == j && n == m
  {
    TokenAtBraces(text, j, m, j);
    TokenAtBraces(text, j, m, j + 1);
    TokenAtBraces(text, i, n, j);
    if j + 1 < i + n { TokenAtBraces(text, i, n, j + 1); }
    TokenLengthIsExact(text[i..], n);
    TokenLengthIsExact(text[i..], m);
    assert text[i..][..n] == text[i..i + n];
    if i == j { assert text[i..][..m] == text[j..j + m]; }
  }

  /** Two placeholders of a text are the same one or apart. */
  lemma TokensAreApart(text: string, i: nat, n: nat, j: nat, m: nat)
    requires TokenAt(text, i, n) && TokenAt(text, j, m)
    ensures (i == j && n == m) || i + n <= j || j + m <= i
  {
    if i <= j < i + n {
      TokensDoNotOverlap(text, i, n, j, m);
    } else if j <= i < j + m {
      TokensDoNotOverlap(text, j, m, i, n);
    }
  }

  // ── Exact rehydration ─────────────────────────────────────────────────────────────────────

  type Resolver = string -> Option<string>

  /** A placeholder the resolver does not know stays as it is. */
  function Shown(r: Resolver, token: string): string {
    var original := r(token);
    if original.Some? then original.value else token
  }

  function Rehydrated(r: Resolver, text: string): string
    decreases |text|
  {
    if text == "" then ""
    else
      var n := TokenLength(text);
      if n.Some? then Shown(r, text[..n.value]) + Rehydrated(r, text[n.value..])
      else [text[0]] + Rehydrated(r, text[1..])
  }

  /** Where the first placeholder starts, or the end of the text. */
  function FirstMatch(text: string): (i: nat)
    ensures i <= |text|
  {
    if text == "" || TokenLength(text).Some? then 0 else 1 + FirstMatch(text[1..])
  }

  lemma {:induction false} FirstMatchIsToken(text: string)
    ensures var i := FirstMatch(text); i < |text| ==> TokenLength(text[i..]).Some?
  {
    if text == "" || TokenLength(text).Some? {
      assert text[0..] == text;
    } else {
      FirstMatchIsToken(text[1..]);
      assert text[1..][FirstMatch(text[1..])..] == text[FirstMatch(text)..];
    }
  }

  lemma {:induction false} UpToFirstMatch(r: Resolver, text: string, i: nat)
    requires i == FirstMatch(text)
    ensures Rehydrated(r, text) == text[..i] + Rehydrated(r, text[i..])
  {
    if text == "" || TokenLength(text).Some? {
      assert text[..0] == "" && text[0..] == text;
    } else {
      var (c, rest) := ([text[0]], text[1..]);
      UpToFirstMatch(r, rest, i - 1);
      SliceOfDrop(text, i);
      Reassociate(c, rest[..i - 1], Rehydrated(r, rest[i - 1..]));
    }
  }

  lemma SliceOfDrop(text: string, i: nat)
    requires 1 <= i <= |text|
    ensures text[1..][i - 1..] == text[i..] && [text[0]] + text[1..][..i - 1] == text[..i]
  {}

  lemma Reassociate(a: string, b: string, c: string)
    ensures a + (b + c) == a + b + c
  {}

  lemma PastMatch(r: Resolver, done: string, text: string, i: nat)
    requires i == FirstMatch(text) < |text|
    ensures TokenLength(text[i..]).Some?
    ensures var n := TokenLength(text[i..]).value;
      done + Rehydrated(r, text) == done + text[..i] + Shown(r, text[i..][..n]) + Rehydrated(r, text[i..][n..])
  {
    UpToFirstMatch(r, text, i);
    FirstMatchIsToken(text);
    var found := text[i..];
    var n := TokenLength(found).value;
    Reassociate(done, text[..i], Rehydrated(r, found));
    Reassociate(done + text[..i], Shown(r, found[..n]), Rehydrated(r, found[n..]));
  }

  /** Each match in turn: the text before it as it is, then what the match resolves to. */
  method Rehydrate(r: Resolver, text: string) returns (out: string)
    ensures out == Rehydrated(r, text)
  {
    out := "";
    var rest := text;
    while true
      invariant out + Rehydrated(r, rest) == Rehydrated(r, text)
      decreases |rest|
    {
      var start := FirstMatch(rest);
      if start == |rest| {
        UpToFirstMatch(r, rest, start);
        assert rest[..start] == rest && rest[start..] == "";
        break;
      }
      PastMatch(r, out, rest, start);
      var found := rest[start..];
      var n := TokenLength(found).value;
      out := out + rest[..start];
      out := out + Shown(r, found[..n]);
      rest := found[n..];
    }
    out := out + rest;
  }

  // ── Cutting a text ────────────────────────────────────────────────────────────────────────

  /** A placeholder of `text` starts before `cut` and ends after it. */
  predicate Straddles(text: string, cut: nat) {
    exists i, n | 0 <= i < cut && cut - i < n <= |text| - i :: TokenAt(text, i, n)
  }

  lemma TokenOfPrefix(a: string, b: string, n: nat)
    requires n <= |a|
    ensures TokenLength(a) == Some(n) <==> TokenLength(a + b) == Some(n)
  {
    TokenLengthIsExact(a, n);
    TokenLengthIsExact(a + b, n);
    assert (a + b)[..n] == a[..n];
  }

  lemma TokenAtDrop(text: string, d: nat, i: nat, n: nat)
    requires d <= |text|
    ensures TokenAt(text[d..], i, n) <==> TokenAt(text, d + i, n)
  {
    if d + i + n <= |text| {
      assert text[d..][i..i + n] == text[d + i..d + i + n];
    }
  }

  lemma DropKeepsWhole(text: string, cut: nat, d: nat)
    requires d <= cut <= |text| && !Straddles(text, cut)
    ensures !Straddles(text[d..], cut - d)
  {
    forall i, n | 0 <= i < cut - d && cut - d - i < n <= |text[d..]| - i ensures !TokenAt(text[d..], i, n) {
      TokenAtDrop(text, d, i, n);
      assert !TokenAt(text, d + i, n);
    }
  }

  /** The ends of a placeholder cut no placeholder. */
  lemma TokenEdgesAreCuts(text: string, i: nat, n: nat)
    requires TokenAt(text, i, n)
    ensures !Straddles(text, i) && !Straddles(text, i + n)
  {
    forall j, m | 0 <= j && 0 <= m && TokenAt(text, j, m) ensures (i == j && n == m) || j + m <= i || i + n <= j {
      TokensAreApart(text, i, n, j, m);
    }
  }

  lemma TokenAtTake(text: string, c: nat, i: nat, n: nat)
    requires c <= |text|
    ensures TokenAt(text[..c], i, n) <==> i + n <= c && TokenAt(text, i, n)
  {
    if i + n <= c { assert text[..c][i..i + n] == text[i..i + n]; }
  }

  lemma TakeKeepsWhole(text: string, c: nat, cut: nat)
    requires cut <= c <= |text| && !Straddles(text, cut)
    ensures !Straddles(text[..c], cut)
  {
    forall i, n | 0 <= i < cut && cut - i < n <= c - i ensures !TokenAt(text[..c], i, n) {
      TokenAtTake(text, c, i, n);
      assert !TokenAt(text, i, n);
    }
  }

  /** Where no placeholder lies across the cut, the two parts rehydrate on their own. */
  lemma {:induction false} RehydratedInParts(r: Resolver, a: string, b: string)
    requires !Straddles(a + b, |a|)
    ensures Rehydrated(r, a + b) == Rehydrated(r, a) + Rehydrated(r, b)
    decreases |a|
  {
    if a == "" {
      assert a + b == b;
    } else {
      var (text, n) := (a + b, TokenLength(a + b));
      if n.Some? {
        TokenLengthIsExact(text, n.value);
        assert text[0..0 + n.value] == text[..n.value];
        assert TokenAt(text, 0, n.value);
        assert n.value <= |a|;
        TokenOfPrefix(a, b, n.value);
        DropKeepsWhole(text, |a|, n.value);
        assert text[n.value..] == a[n.value..] + b && text[..n.value] == a[..n.value];
        RehydratedInParts(r, a[n.value..], b);
      } else {
        if TokenLength(a).Some? {
          TokenLengthIsExact(a, TokenLength(a).value);
          TokenOfPrefix(a, b, TokenLength(a).value);
        }
        DropKeepsWhole(text, |a|, 1);
        assert text[1..] == a[1..] + b;
        RehydratedInParts(r, a[1..], b);
      }
    }
  }

  lemma RehydratedAt(r: Resolver, text: string, cut: nat, a: string, b: string)
    requires cut <= |text| && !Straddles(text, cut) && a == text[..cut] && b == text[cut..]
    ensures Rehydrated(r, text) == Rehydrated(r, a) + Rehydrated(r, b)
  {
    assert text == a + b;
    RehydratedInParts(r, a, b);
  }

  lemma SlicesOfTake(text: string, a: nat, b: nat)
    requires a <= b <= |text|
    ensures text[..b][..a] == text[..a] && text[..b][a..] == text[a..b]
  {}

  lemma SlicesOfDrop(text: string, a: nat, b: nat)
    requires a <= b <= |text|
    ensures text[a..][..b - a] == text[a..b] && text[a..][b - a..] == text[b..]
  {}

  lemma {:induction false} NoTokenNoChange(r: Resolver, text: string)
    requires forall i, n :: !TokenAt(text, i, n)
    ensures Rehydrated(r, text) == text
    decreases |text|
  {
    if text != "" {
      var n := TokenLength(text);
      if n.Some? {
        TokenLengthIsExact(text, n.value);
        assert text[0..0 + n.value] == text[..n.value];
        assert TokenAt(text, 0, n.value);
        assert false;
      }
      forall i, n ensures !TokenAt(text[1..], i, n) { TokenAtDrop(text, 1, i, n); }
      NoTokenNoChange(r, text[1..]);
    }
  }

  lemma TokenRehydrates(r: Resolver, token: string)
    requires IsToken(token)
    ensures Rehydrated(r, token) == Shown(r, token)
  {
    assert token[..|token|] == token && token[|token|..] == "";
    TokenLengthIsExact(token, |token|);
  }
}
