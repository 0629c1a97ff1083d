/**
 Levenshtein distance by two rolling rows, and what a redactor repairs with it: a mangled word is
 snapped to its codebook word, a mangled kind to its kind.

 The rows compute the recursive distance; that distance is the least number of single-character edits,
 so it is a metric; and from the metric follows exactly when a word one edit away from a codebook word
 is repaired to that word alone.
 */
module EditDistance {
  import opened Options
  import opened Strings

  // ── The distance ──────────────────────────────────────────────────────────────────────────

  function Min3(x: nat, y: nat, z: nat): nat {
    if x <= y && x <= z then x else if y <= z then y else z
  }

  function Cost(x: char, y: char): nat { if x == y then 0 else 1 }

  function Levenshtein(a: string, b: string): nat
    decreases |a| + |b|
  {
    if a == [] then |b|
    else if b == [] then |a|
    else
      var (a', b') := (a[..|a| - 1], b[..|b| - 1]);
      Min3(Levenshtein(a', b) + 1, Levenshtein(a, b') + 1,
           Levenshtein(a', b') + Cost(a[|a| - 1], b[|b| - 1]))
  }

  /** A table with the borders and the recurrence of edit distance over the prefixes of `a` and `b`. */
  ghost predicate IsTable(a: string, b: string, table: (nat, nat) -> nat) {
    && (forall j: nat :: table(0, j) == j)
    && (forall i: nat :: table(i, 0) == i)
    && (forall i, j | 0 < i <= |a| && 0 < j <= |b| :: Recurs(a, b, table, i, j))
  }

  ghost predicate Recurs(a: string, b: string, table: (nat, nat) -> nat, i: nat, j: nat)
    requires 0 < i <= |a| && 0 < j <= |b|
  {
    IsLeast(table(i, j), table(i - 1, j) + 1, table(i, j - 1) + 1, table(i - 1, j - 1) + Cost(a[i - 1], b[j - 1]))
  }

  predicate IsLeast(m: nat, x: nat, y: nat, z: nat) {
    m <= x && m <= y && m <= z && (m == x || m == y || m == z)
  }

  ghost function Distances(a: string, b: string): (nat, nat) -> nat {
    (i: nat, j: nat) => if i == 0 then j else if j == 0 then i
              else if i <= |a| && j <= |b| then Levenshtein(a[..i], b[..j]) else 0
  }

  lemma Unfold(a: string, b: string)
    requires a != [] && b != []
    ensures var (a', b') := (a[..|a| - 1], b[..|b| - 1]);
      IsLeast(Levenshtein(a, b), Levenshtein(a', b) + 1, Levenshtein(a, b') + 1,
              Levenshtein(a', b') + Cost(a[|a| - 1], b[|b| - 1]))
  {}

  lemma DistancesRecur(a: string, b: string, i: nat, j: nat)
    requires 0 < i <= |a| && 0 < j <= |b|
    ensures Recurs(a, b, Distances(a, b), i, j)
  {
    var (x, y) := (a[..i], b[..j]);
    assert x[..i - 1] == a[..i - 1] && y[..j - 1] == b[..j - 1];
    assert x[i - 1] == a[i - 1] && y[j - 1] == b[j - 1];
    Unfold(x, y);
  }

  lemma DistancesAreATable(a: string, b: string)
    ensures IsTable(a, b, Distances(a, b))
  {
    forall i, j | 0 < i <= |a| && 0 < j <= |b| ensures Recurs(a, b, Distances(a, b), i, j) {
      DistancesRecur(a, b, i, j);
    }
  }

  /** The two rolling rows end with the last cell of the table. */
  method LastCell(a: string, b: string, ghost table: (nat, nat) -> nat) returns (d: nat)
    requires IsTable(a, b, table)
    ensures d == table(|a|, |b|)
  {
    var n := |b|;
    var prev: array<nat>, curr: array<nat> := new nat[n + 1](j requires j >= 0 => j), new nat[n + 1](_ => 0);
    var i := 1;
    while i <= |a|
      invariant 1 <= i <= |a| + 1 && prev != curr && fresh(prev) && fresh(curr)
      invariant prev.Length == curr.Length == n + 1
      invariant forall k :: 0 <= k <= n ==> prev[k] == table(i - 1, k)
    {
      curr[0] := i;
      var j := 1;
      while j <= n
        invariant 1 <= j <= n + 1
        invariant forall k :: 0 <= k <= n ==> prev[k] == table(i - 1, k)
        invariant forall k :: 0 <= k < j ==> curr[k] == table(i, k)
      {
        assert Recurs(a, b, table, i, j);
        var cost := if a[i - 1] == b[j - 1] then 0 else 1;
        curr[j] := Min3(prev[j] + 1, curr[j - 1] + 1, prev[j - 1] + cost);
        j := j + 1;
      }
      prev, curr := curr, prev;
      i := i + 1;
    }
    return prev[n];
  }

  method Distance(a: string, b: string) returns (d: nat)
    ensures d == Levenshtein(a, b)
  {
    DistancesAreATable(a, b);
    d := LastCell(a, b, Distances(a, b));
    assert a[..|a|] == a && b[..|b|] == b;
  }

  // ── It is a metric ────────────────────────────────────────────────────────────────────────

  lemma {:induction false} Symmetric(a: string, b: string)
    ensures Levenshtein(a, b) == Levenshtein(b, a)
    decreases |a| + |b|
  {
    if a != [] && b != [] {
      var (a', b') := (a[..|a| - 1], b[..|b| - 1]);
      Symmetric(a', b);
      Symmetric(a, b');
      Symmetric(a', b');
    }
  }

  /** The lengths bound the distance on both sides. */
  lemma {:induction false} LengthBounds(a: string, b: string)
    ensures |a| - |b| <= Levenshtein(a, b) && |b| - |a| <= Levenshtein(a, b)
    ensures Levenshtein(a, b) <= |a| + |b|
    decreases |a| + |b|
  {
    if a != [] && b != [] {
      var (a', b') := (a[..|a| - 1], b[..|b| - 1]);
      LengthBounds(a', b);
      LengthBounds(a, b');
      LengthBounds(a', b');
    }
  }

  lemma {:induction false} ZeroIffEqual(a: string, b: string)
    ensures Levenshtein(a, b) == 0 <==> a == b
    decreases |a| + |b|
  {
    if a != [] && b != [] {
      var (a', b') := (a[..|a| - 1], b[..|b| - 1]);
      ZeroIffEqual(a', b');
      assert a == a' + [a[|a| - 1]] && b == b' + [b[|b| - 1]];
    }
  }

  lemma {:induction false} Triangle(a: string, b: string, c: string)
    ensures Levenshtein(a, c) <= Levenshtein(a, b) + Levenshtein(b, c)
    decreases |a| + |b| + |c|
  {
    if a == [] || b == [] || c == [] {
      LengthBounds(a, b);
      LengthBounds(b, c);
      LengthBounds(a, c);
    } else {
      TriangleByLasts(a, b, c);
    }
  }

  /** An optimal last edit on either side is undone, and the rest is shorter. */
  lemma {:induction false} TriangleByLasts(a: string, b: string, c: string)
    requires a != [] && b != [] && c != []
    ensures Levenshtein(a, c) <= Levenshtein(a, b) + Levenshtein(b, c)
    decreases |a| + |b| + |c|, 0
  {
    var (a', b', c') := (a[..|a| - 1], b[..|b| - 1], c[..|c| - 1]);
    Unfold(a, b);
    Unfold(b, c);
    Unfold(a, c);
    if Levenshtein(a, b) == Levenshtein(a', b) + 1 {
      Triangle(a', b, c);
    } else if Levenshtein(b, c) == Levenshtein(b, c') + 1 {
      Triangle(a, b, c');
    } else if Levenshtein(a, b) == Levenshtein(a, b') + 1 {
      if Levenshtein(b, c) == Levenshtein(b', c) + 1 { Triangle(a, b', c); } else { Triangle(a, b', c'); }
    } else {
      if Levenshtein(b, c) == Levenshtein(b', c) + 1 { Triangle(a', b', c); } else { Triangle(a', b', c'); }
    }
  }

  // ── It counts edits ───────────────────────────────────────────────────────────────────────

  /** One insertion, deletion or substitution turns `a` into `b`. */
  predicate OneEdit(a: string, b: string) {
    || (exists i | 0 <= i < |b| :: a == b[..i] + b[i + 1..])
    || (exists i | 0 <= i < |a| :: b == a[..i] + a[i + 1..])
    || (exists i | 0 <= i < |a| && |b| == |a| :: b == a[i := b[i]])
  }

  /** A chain of single edits. */
  predicate EditPath(path: seq<string>) {
    path != [] && forall k :: 0 < k < |path| ==> OneEdit(path[k - 1], path[k])
  }

  lemma SharedLast(a: string, b: string, x: char, y: char)
    ensures Levenshtein(a + [x], b + [y]) <= Levenshtein(a, b) + Cost(x, y)
  {}

  lemma {:induction false} SharedEnding(a: string, b: string, end: string)
    ensures Levenshtein(a + end, b + end) <= Levenshtein(a, b)
    decreases |end|
  {
    if end == [] {
      assert a + end == a && b + end == b;
    } else {
      var x := end[0];
      SharedLast(a, b, x, x);
      SharedEnding(a + [x], b + [x], end[1..]);
      assert a + end == a + [x] + end[1..];
      assert b + end == b + [x] + end[1..];
    }
  }

  lemma DeletionIsNear(head: string, x: char, end: string)
    ensures Levenshtein(head + [x] + end, head + end) <= 1
  {
    var longer := head + [x];
    ZeroIffEqual(head, head);
    assert longer[..|head|] == head;
    if head != [] { Unfold(longer, head); }
    SharedEnding(longer, head, end);
  }

  lemma SubstitutionIsNear(head: string, x: char, y: char, end: string)
    ensures Levenshtein(head + [x] + end, head + [y] + end) <= 1
  {
    ZeroIffEqual(head, head);
    SharedLast(head, head, x, y);
    SharedEnding(head + [x], head + [y], end);
  }

  lemma OneEditIsNear(a: string, b: string)
    requires OneEdit(a, b)
    ensures Levenshtein(a, b) <= 1
  {
    if i :| 0 <= i < |b| && a == b[..i] + b[i + 1..] {
      assert b == b[..i] + [b[i]] + b[i + 1..];
      DeletionIsNear(b[..i], b[i], b[i + 1..]);
      Symmetric(a, b);
    } else if i :| 0 <= i < |a| && b == a[..i] + a[i + 1..] {
      assert a == a[..i] + [a[i]] + a[i + 1..];
      DeletionIsNear(a[..i], a[i], a[i + 1..]);
    } else {
      var i :| 0 <= i < |a| && |b| == |a| && b == a[i := b[i]];
      assert a == a[..i] + [a[i]] + a[i + 1..];
      assert b == a[..i] + [b[i]] + a[i + 1..];
      SubstitutionIsNear(a[..i], a[i], b[i], a[i + 1..]);
    }
  }

  lemma {:induction false} NoShorterPath(path: seq<string>)
    requires EditPath(path)
    ensures Levenshtein(path[0], path[|path| - 1]) <= |path| - 1
    decreases |path|
  {
    var last := path[|path| - 1];
    if |path| == 1 {
      ZeroIffEqual(last, last);
    } else {
      var init := path[..|path| - 1];
      NoShorterPath(init);
      OneEditIsNear(path[|path| - 2], last);
      Triangle(path[0], path[|path| - 2], last);
    }
  }

  /** Every word of the path with `end` added. */
  function Extend(path: seq<string>, end: string): seq<string> {
    seq(|path|, k requires 0 <= k < |path| => path[k] + end)
  }

  lemma ExtendIsPath(path: seq<string>, end: string)
    requires EditPath(path)
    ensures EditPath(Extend(path, end))
  {
    var longer := Extend(path, end);
    forall k | 0 < k < |longer| ensures OneEdit(longer[k - 1], longer[k]) {
      var (x, y) := (path[k - 1], path[k]);
      assert OneEdit(x, y);
      if i :| 0 <= i < |y| && x == y[..i] + y[i + 1..] {
        assert x + end == (y + end)[..i] + (y + end)[i + 1..];
      } else if i :| 0 <= i < |x| && y == x[..i] + x[i + 1..] {
        assert y + end == (x + end)[..i] + (x + end)[i + 1..];
      } else {
        var i :| 0 <= i < |x| && |y| == |x| && y == x[i := y[i]];
        assert y + end == (x + end)[i := (y + end)[i]];
      }
    }
  }

  lemma Append(path: seq<string>, next: string)
    requires EditPath(path) && OneEdit(path[|path| - 1], next)
    ensures EditPath(path + [next])
  {}

  lemma Prepend(first: string, path: seq<string>)
    requires EditPath(path) && OneEdit(first, path[0])
    ensures EditPath([first] + path)
  {}

  lemma {:induction false} PathOfLeastLength(a: string, b: string) returns (path: seq<string>)
    ensures EditPath(path) && path[0] == a && path[|path| - 1] == b
    ensures |path| - 1 == Levenshtein(a, b)
    decreases |a| + |b|
  {
    if a == [] && b == [] {
      path := [a];
    } else if b == [] {
      path := PathByDeletion(a, b);
    } else if a == [] {
      path := PathByInsertion(a, b);
    } else {
      Unfold(a, b);
      if Levenshtein(a, b) == Levenshtein(a[..|a| - 1], b) + 1 {
        path := PathByDeletion(a, b);
      } else if Levenshtein(a, b) == Levenshtein(a, b[..|b| - 1]) + 1 {
        path := PathByInsertion(a, b);
      } else {
        path := PathByLasts(a, b);
      }
    }
  }

  lemma {:induction false} PathByDeletion(a: string, b: string) returns (path: seq<string>)
    requires a != [] && Levenshtein(a, b) == Levenshtein(a[..|a| - 1], b) + 1
    ensures EditPath(path) && path[0] == a && path[|path| - 1] == b
    ensures |path| - 1 == Levenshtein(a, b)
    decreases |a| + |b|, 0
  {
    var n := |a| - 1;
    var rest := PathOfLeastLength(a[..n], b);
    assert rest[0] == a[..n] + a[n + 1..];
    Prepend(a, rest);
    path := [a] + rest;
  }

  lemma {:induction false} PathByInsertion(a: string, b: string) returns (path: seq<string>)
    requires b != [] && Levenshtein(a, b) == Levenshtein(a, b[..|b| - 1]) + 1
    ensures EditPath(path) && path[0] == a && path[|path| - 1] == b
    ensures |path| - 1 == Levenshtein(a, b)
    decreases |a| + |b|, 0
  {
    var n := |b| - 1;
    var rest := PathOfLeastLength(a, b[..n]);
    assert rest[|rest| - 1] == b[..n] + b[n + 1..];
    Append(rest, b);
    path := rest + [b];
  }

  lemma {:induction false} PathByLasts(a: string, b: string) returns (path: seq<string>)
    requires a != [] && b != []
    requires Levenshtein(a, b) == Levenshtein(a[..|a| - 1], b[..|b| - 1]) + Cost(a[|a| - 1], b[|b| - 1])
    ensures EditPath(path) && path[0] == a && path[|path| - 1] == b
    ensures |path| - 1 == Levenshtein(a, b)
    decreases |a| + |b|, 0
  {
    var (a', b', x, y) := (a[..|a| - 1], b[..|b| - 1], a[|a| - 1], b[|b| - 1]);
    assert a == a' + [x] && b == b' + [y];
    var rest := PathOfLeastLength(a', b');
    ExtendIsPath(rest, [x]);
    path := Extend(rest, [x]);
    if x != y {
      var from := path[|path| - 1];
      assert b == from[|b'| := b[|b'|]];
      Append(path, b);
      path := path + [b];
    }
  }

  /** The distance is the least number of single-character edits that turn `a` into `b`. */
  lemma LeastNumberOfEdits(a: string, b: string, n: nat)
    ensures Levenshtein(a, b) <= n <==>
      exists path :: EditPath(path) && path[0] == a && path[|path| - 1] == b && |path| - 1 <= n
  {
    var shortest := PathOfLeastLength(a, b);
    forall path | EditPath(path) && path[0] == a && path[|path| - 1] == b
      ensures Levenshtein(a, b) <= |path| - 1
    {
      NoShorterPath(path);
    }
  }

  // ── Repairing a word ──────────────────────────────────────────────────────────────────────

  const MAX_EDITS: nat := 2

  function Prefix4(w: string): string { if |w| <= 4 then w else w[..4] }

  /** The prefix index of a word list: the last word listed under a prefix is the one it returns. */
  function ByPrefix(list: seq<string>, prefix: string): Option<string> {
    if list == [] then None
    else
      var last := list[|list| - 1];
      if Prefix4(last) == prefix then Some(last) else ByPrefix(list[..|list| - 1], prefix)
  }

  /** The smallest distance from `w` to a listed word, or `cap` when none is below it. */
  function Best(w: string, list: seq<string>, cap: nat): (best: nat)
    ensures best <= cap
  {
    if list == [] then cap
    else
      var (rest, d) := (Best(w, list[..|list| - 1], cap), Levenshtein(w, list[|list| - 1]));
      if d < rest then d else rest
  }

  /** The listed words at exactly that distance, in list order. */
  function At(w: string, list: seq<string>, distance: nat): seq<string> {
    if list == [] then []
    else
      var last := list[|list| - 1];
      At(w, list[..|list| - 1], distance) + if Levenshtein(w, last) == distance then [last] else []
  }

  lemma {:induction false} BestIsBelow(w: string, list: seq<string>, cap: nat)
    ensures forall word | word in list :: Best(w, list, cap) <= Levenshtein(w, word)
    ensures Best(w, list, cap) == cap || exists word | word in list :: Best(w, list, cap) == Levenshtein(w, word)
  {
    if list != [] {
      var n := |list| - 1;
      BestIsBelow(w, list[..n], cap);
      assert list == list[..n] + [list[n]];
      assert list[n] in list;
    }
  }

  lemma {:induction false} NoneNearer(w: string, list: seq<string>, distance: nat)
    requires forall word | word in list :: distance < Levenshtein(w, word)
    ensures At(w, list, distance) == []
  {
    if list != [] {
      NoneNearer(w, list[..|list| - 1], distance);
    }
  }

  /** What a word, already lower-case, is repaired to. */
  function Repaired(w: string, list: seq<string>): seq<string> {
    var byPrefix := ByPrefix(list, Prefix4(w));
    if w in list then [w]
    else if byPrefix.Some? && Levenshtein(w, byPrefix.value) <= MAX_EDITS then [byPrefix.value]
    else
      var best := Best(w, list, MAX_EDITS + 1);
      if best <= MAX_EDITS then At(w, list, best) else []
  }

  lemma OneMoreListed(w: string, list: seq<string>, i: nat, cap: nat)
    requires i < |list|
    ensures var d := Levenshtein(w, list[i]);
      Best(w, list[..i + 1], cap) == if d < Best(w, list[..i], cap) then d else Best(w, list[..i], cap)
    ensures forall d: nat :: At(w, list[..i + 1], d)
                             == At(w, list[..i], d) + if Levenshtein(w, list[i]) == d then [list[i]] else []
  {
    assert list[..i + 1][..i] == list[..i] && list[..i + 1][i] == list[i];
  }

  /** The scan over the whole list: a nearer word starts the matches over, an equally near one joins them. */
  method Nearest(w: string, list: seq<string>, cap: nat) returns (best: nat, matches: seq<string>)
    ensures best == Best(w, list, cap) && matches == At(w, list, best)
  {
    best, matches := cap, [];
    var i := 0;
    while i < |list|
      invariant 0 <= i <= |list|
      invariant best == Best(w, list[..i], cap)
      invariant matches == At(w, list[..i], best)
    {
      var d := Distance(w, list[i]);
      OneMoreListed(w, list, i, cap);
      if d < best {
        BestIsBelow(w, list[..i], cap);
        NoneNearer(w, list[..i], d);
        best, matches := d, [list[i]];
      } else if d == best {
        matches := matches + [list[i]];
      }
      i := i + 1;
    }
    assert list[..|list|] == list;
  }

  method RepairWord(raw: string, list: seq<string>) returns (matches: seq<string>)
    ensures matches == Repaired(Lower(raw), list)
  {
    var w := Lower(raw);
    if w in list { return [w]; }
    var byPrefix := ByPrefix(list, Prefix4(w));
    if byPrefix.Some? {
      var d := Distance(w, byPrefix.value);
      if d <= MAX_EDITS { return [byPrefix.value]; }
    }
    var best;
    best, matches := Nearest(w, list, MAX_EDITS + 1);
    if best > MAX_EDITS { matches := []; }
  }

  /** Any two entries of the codebook are at least three edits apart. */
  predicate Separated(list: seq<string>) {
    forall i, j :: 0 <= i < j < |list| ==> Levenshtein(list[i], list[j]) >= 3
  }

  lemma SeparatedPair(list: seq<string>, u: string, v: string)
    requires Separated(list) && u in list && v in list && u != v
    ensures Levenshtein(u, v) >= 3
  {
    var i :| 0 <= i < |list| && list[i] == u;
    var j :| 0 <= j < |list| && list[j] == v;
    Symmetric(u, v);
    assert i < j || j < i;
  }

  lemma {:induction false} ByPrefixIsListed(list: seq<string>, prefix: string)
    ensures var found := ByPrefix(list, prefix);
      if found.Some? then found.value in list && Prefix4(found.value) == prefix
      else forall word | word in list :: Prefix4(word) != prefix
  {
    if list != [] && Prefix4(list[|list| - 1]) != prefix {
      ByPrefixIsListed(list[..|list| - 1], prefix);
    }
  }

  /** With the codebook separated, a word within one edit of `v` is nearer to `v` than to any other. */
  lemma OthersAreFarther(list: seq<string>, w: string, v: string, u: string)
    requires Separated(list) && v in list && u in list && u != v && Levenshtein(w, v) <= 1
    ensures Levenshtein(w, u) >= 2
  {
    SeparatedPair(list, v, u);
    Triangle(v, w, u);
    Symmetric(v, w);
  }

  lemma {:induction false} OnlyNearest(list: seq<string>, w: string, v: string)
    requires Separated(list) && v in list && Levenshtein(w, v) <= 1
    ensures At(w, list, Levenshtein(w, v)) == [v]
  {
    var n := |list| - 1;
    var (init, last) := (list[..n], list[n]);
    assert Separated(init);
    if last == v {
      forall u | u in init ensures Levenshtein(w, v) < Levenshtein(w, u) {
        var i :| 0 <= i < n && init[i] == u;
        EntriesDiffer(list, i, n);
        OthersAreFarther(list, w, v, u);
      }
      NoneNearer(w, init, Levenshtein(w, v));
    } else {
      assert v in init;
      OthersAreFarther(list, w, v, last);
      OnlyNearest(init, w, v);
    }
  }

  lemma EntriesDiffer(list: seq<string>, i: nat, j: nat)
    requires Separated(list) && i < j < |list|
    ensures list[i] != list[j]
  {
    assert Levenshtein(list[i], list[j]) >= 3;
    ZeroIffEqual(list[i], list[j]);
  }

  /** The four-letter prefix of `w` is listed for another word than `v` that is within two edits of it. */
  predicate Diverted(list: seq<string>, w: string, v: string) {
    var byPrefix := ByPrefix(list, Prefix4(w));
    byPrefix.Some? && byPrefix.value != v && Levenshtein(w, byPrefix.value) <= MAX_EDITS
  }

  lemma BestIsOwn(list: seq<string>, w: string, v: string)
    requires Separated(list) && v in list && Levenshtein(w, v) <= 1
    ensures Best(w, list, MAX_EDITS + 1) == Levenshtein(w, v)
  {
    BestIsBelow(w, list, MAX_EDITS + 1);
    forall u | u in list ensures Levenshtein(w, v) <= Levenshtein(w, u) {
      if u != v { OthersAreFarther(list, w, v, u); }
    }
  }

  /** In a separated codebook, a word within one edit of `v` is repaired to `v` and nothing else exactly
      when it is `v` itself or the prefix lookup does not divert it. */
  lemma RepairsOneEdit(list: seq<string>, w: string, v: string)
    requires Separated(list) && v in list && Levenshtein(w, v) <= 1
    ensures Repaired(w, list) == [v] <==> w == v || !Diverted(list, w, v)
  {
    if w in list {
      if w != v {
        OthersAreFarther(list, w, v, w);
        ZeroIffEqual(w, w);
        assert false;
      }
    } else {
      BestIsOwn(list, w, v);
      OnlyNearest(list, w, v);
    }
  }

  /** Whatever the codebook, every repair is a listed word within two edits. */
  lemma RepairsAreListed(list: seq<string>, w: string)
    ensures forall word | word in Repaired(w, list) :: word in list && Levenshtein(w, word) <= MAX_EDITS
  {
    ZeroIffEqual(w, w);
    ByPrefixIsListed(list, Prefix4(w));
    AtIsListed(w, list, Best(w, list, MAX_EDITS + 1));
  }

  lemma {:induction false} AtIsListed(w: string, list: seq<string>, distance: nat)
    ensures forall word :: word in At(w, list, distance) <==> word in list && Levenshtein(w, word) == distance
  {
    if list != [] {
      AtIsListed(w, list[..|list| - 1], distance);
      assert list == list[..|list| - 1] + [list[|list| - 1]];
    }
  }

  predicate DistinctPrefixes(list: seq<string>) {
    forall i, j :: 0 <= i < j < |list| ==> Prefix4(list[i]) != Prefix4(list[j])
  }

  /** Separation and distinct four-letter prefixes do not make every one-edit corruption snap back: one
      that completes another word's prefix, within two edits of that word, is repaired to that word. */
  lemma CompletedPrefixDiverts(list: seq<string>, v: string, w: string, u: string)
    requires Separated(list) && DistinctPrefixes(list) && v in list && u in list
    requires OneEdit(v, w) && v != w && Prefix4(w) == Prefix4(u) && Levenshtein(w, u) <= MAX_EDITS
    ensures Repaired(w, list) == [u]
  {
    OneEditIsNear(v, w);
    if w in list {
      SeparatedPair(list, v, w);
      assert false;
    }
    ByPrefixIsOnly(list, u);
  }

  lemma TwoEditsDivert(list: seq<string>, v: string, w: string, mid: string, u: string)
    requires Separated(list) && DistinctPrefixes(list) && v in list && u in list
    requires OneEdit(v, w) && v != w && Prefix4(w) == Prefix4(u) && OneEdit(w, mid) && OneEdit(mid, u)
    ensures Repaired(w, list) == [u]
  {
    TwoEdits(w, mid, u);
    CompletedPrefixDiverts(list, v, w, u);
  }

  /** In any such codebook with "daily" and "daringly", as the generic one has, a letter inserted into the
      first makes it the second. */
  lemma PrefixLookupCanDivert(list: seq<string>)
    requires Separated(list) && DistinctPrefixes(list) && "daily" in list && "daringly" in list
    ensures OneEdit("daily", "darily") && Repaired("darily", list) == ["daringly"]
  {
    EditsOfDaily();
    TwoEditsDivert(list, "daily", "darily", "darinly", "daringly");
  }

  lemma EditsOfDaily()
    ensures OneEdit("daily", "darily") && OneEdit("darily", "darinly") && OneEdit("darinly", "daringly")
    ensures "daily" != "darily" && Prefix4("darily") == Prefix4("daringly")
  {
    var (v, w, mid, u) := ("daily", "darily", "darinly", "daringly");
    assert v == w[..2] + w[2 + 1..];
    assert w == mid[..4] + mid[4 + 1..];
    assert mid == u[..5] + u[5 + 1..];
    assert |v| != |w|;
    assert Prefix4(u) == "dari" == Prefix4(w);
  }

  lemma ByPrefixIsOnly(list: seq<string>, word: string)
    requires DistinctPrefixes(list) && word in list
    ensures ByPrefix(list, Prefix4(word)) == Some(word)
  {
    ByPrefixIsListed(list, Prefix4(word));
    var found := ByPrefix(list, Prefix4(word)).value;
    var i, j :| 0 <= i < |list| && 0 <= j < |list| && list[i] == found && list[j] == word;
    assert i == j;
  }

  /** The two words alone are such a codebook. */
  lemma DivertedWordsAreSeparated(list: seq<string>)
    requires list == ["daily", "daringly"]
    ensures Separated(list) && DistinctPrefixes(list)
  {
    LengthBounds(list[0], list[1]);
    assert Prefix4(list[0])[2] != Prefix4(list[1])[2];
  }

  lemma TwoEdits(a: string, b: string, c: string)
    requires OneEdit(a, b) && OneEdit(b, c)
    ensures Levenshtein(a, c) <= 2
  {
    OneEditIsNear(a, b);
    OneEditIsNear(b, c);
    Triangle(a, b, c);
  }

  // ── Repairing a kind ──────────────────────────────────────────────────────────────────────

  /** The kind found among `kinds` when exactly one is nearest and within one edit. */
  function Kind(k: string, kinds: seq<string>): Option<string> {
    var best := Best(k, kinds, 2);
    var nearest := At(k, kinds, best);
    if best < 2 && |nearest| == 1 then Some(nearest[0]) else None
  }

  /** A kind within one edit, and strictly nearer than every other. */
  predicate OnlyNearestKind(k: string, kinds: seq<string>, i: nat)
    requires i < |kinds|
  {
    && Levenshtein(k, kinds[i]) <= 1
    && forall j :: 0 <= j < |kinds| && j != i ==> Levenshtein(k, kinds[i]) < Levenshtein(k, kinds[j])
  }

  method RepairKind(raw: string, kinds: seq<string>) returns (kind: Option<string>)
    ensures kind == Kind(Lower(raw), kinds)
  {
    var k := Lower(raw);
    var best: nat := 2;
    kind := None;
    var n := 0;
    while n < |kinds|
      invariant 0 <= n <= |kinds| && best == Best(k, kinds[..n], 2)
      invariant kind == Kind(k, kinds[..n])
      invariant best < 2 ==> At(k, kinds[..n], best) != []
    {
      var d := Distance(k, kinds[n]);
      OneMoreListed(k, kinds, n, 2);
      if d < best {
        BestIsBelow(k, kinds[..n], 2);
        NoneNearer(k, kinds[..n], d);
        best, kind := d, Some(kinds[n]);
      } else if d == best {
        kind := None;
      }
      n := n + 1;
    }
    assert kinds[..|kinds|] == kinds;
  }

  lemma {:induction false} OneAt(k: string, kinds: seq<string>, d: nat) returns (i: nat)
    requires |At(k, kinds, d)| == 1
    ensures i < |kinds| && Levenshtein(k, kinds[i]) == d && At(k, kinds, d) == [kinds[i]]
    ensures forall j :: 0 <= j < |kinds| && j != i ==> Levenshtein(k, kinds[j]) != d
  {
    var n := |kinds| - 1;
    if Levenshtein(k, kinds[n]) == d {
      i := n;
      AtIsListed(k, kinds[..n], d);
      forall j | 0 <= j < n ensures Levenshtein(k, kinds[j]) != d { assert kinds[..n][j] in kinds[..n]; }
    } else {
      i := OneAt(k, kinds[..n], d);
    }
  }

  lemma {:induction false} AtOne(k: string, kinds: seq<string>, i: nat)
    requires i < |kinds| && OnlyNearestKind(k, kinds, i)
    ensures At(k, kinds, Levenshtein(k, kinds[i])) == [kinds[i]]
  {
    var n := |kinds| - 1;
    if i == n {
      NoneNearer(k, kinds[..n], Levenshtein(k, kinds[i]));
    } else {
      AtOne(k, kinds[..n], i);
    }
  }

  /** A kind is returned exactly when it is within one edit and nearer than every other: a tie, like a
      kind too far off, returns none. */
  lemma KindIsOnlyNearest(k: string, kinds: seq<string>)
    ensures Kind(k, kinds).Some? ==>
      exists i | 0 <= i < |kinds| :: OnlyNearestKind(k, kinds, i) && kinds[i] == Kind(k, kinds).value
    ensures forall i | 0 <= i < |kinds| :: OnlyNearestKind(k, kinds, i) ==> Kind(k, kinds) == Some(kinds[i])
  {
    var best := Best(k, kinds, 2);
    BestIsBelow(k, kinds, 2);
    if Kind(k, kinds).Some? {
      var i := OneAt(k, kinds, best);
      forall j | 0 <= j < |kinds| && j != i ensures best < Levenshtein(k, kinds[j]) { assert kinds[j] in kinds; }
      assert OnlyNearestKind(k, kinds, i);
    }
    forall i | 0 <= i < |kinds| && OnlyNearestKind(k, kinds, i) ensures Kind(k, kinds) == Some(kinds[i]) {
      AtOne(k, kinds, i);
      assert kinds[i] in kinds;
      forall word | word in kinds ensures Levenshtein(k, kinds[i]) <= Levenshtein(k, word) {
        var j :| 0 <= j < |kinds| && kinds[j] == word;
      }
    }
  }
}
