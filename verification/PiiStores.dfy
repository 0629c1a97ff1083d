/**
 The two mapping stores: one in memory, whose subject index is a map from subjects to sets of keys, and
 one on two tables, whose junction rows link a mapping to a subject. Both are measured against the
 history of saves and erasures alone.

 The table store holds exactly what the history says as long as its where clauses hit only what is their
 own, which they do in containers with both halves set. The memory store empties the erased subject's own
 key set while it is still reading it, so the subjects indexed later keep stale keys; the stores agree
 exactly as long as no erasure meets a stale key in use.
 */
module PiiStores {
  import opened Options
  import opened PiiMappings

  datatype Op = Save(mapping: Mapping, subjects: seq<string>) | Erase(subject: string)

  // ── What the history says ─────────────────────────────────────────────────────────────────

  /** The subject was linked to the key by a save, and the key has not been erased since. */
  predicate LinkedBy(ops: seq<Op>, subject: string, key: Key) {
    if ops == [] then false
    else
      var before := ops[..|ops| - 1];
      match ops[|ops| - 1]
      case Save(m, subjects) => (KeyOf(m) == key && subject in subjects) || LinkedBy(before, subject, key)
      case Erase(s) => LinkedBy(before, subject, key) && !LinkedBy(before, s, key)
  }

  /** The original last saved under the key, unless a subject linked to it has been erased since. */
  function Kept(ops: seq<Op>, key: Key): Option<string> {
    if ops == [] then None
    else
      var before := ops[..|ops| - 1];
      match ops[|ops| - 1]
      case Save(m, _) => if KeyOf(m) == key then Some(m.original) else Kept(before, key)
      case Erase(s) => if LinkedBy(before, s, key) then None else Kept(before, key)
  }

  // ── The table store ───────────────────────────────────────────────────────────────────────

  datatype Link = Link(key: Key, subject: string)

  datatype Tables = Tables(rows: seq<Mapping>, links: seq<Link>)

  /** The where clause built from a key: an absent scope or scope id puts no condition on the row. */
  predicate Hits(pattern: Key, key: Key) {
    && key.placeholder == pattern.placeholder
    && (pattern.container.scope.Some? ==> key.container.scope == pattern.container.scope)
    && (pattern.container.scopeId.Some? ==> key.container.scopeId == pattern.container.scopeId)
  }

  predicate HitsAny(patterns: set<Key>, key: Key) { exists p | p in patterns :: Hits(p, key) }

  /** An update keeps the old hash when the new mapping brings none. */
  function Updated(row: Mapping, m: Mapping): Mapping {
    Mapping(m.placeholder, m.original, if m.hash.Some? then m.hash else row.hash, m.kind,
            Container(if m.container.scope.Some? then m.container.scope else row.container.scope,
                      if m.container.scopeId.Some? then m.container.scopeId else row.container.scopeId))
  }

  /** The first row the pattern hits is updated. */
  function UpdateFirst(rows: seq<Mapping>, m: Mapping): seq<Mapping> {
    if rows == [] then []
    else if Hits(KeyOf(m), KeyOf(rows[0])) then [Updated(rows[0], m)] + rows[1..]
    else [rows[0]] + UpdateFirst(rows[1..], m)
  }

  predicate HasRow(rows: seq<Mapping>, key: Key) { exists i | 0 <= i < |rows| :: KeyOf(rows[i]) == key }

  function SaveRow(rows: seq<Mapping>, m: Mapping): seq<Mapping> {
    if HasRow(rows, KeyOf(m)) then UpdateFirst(rows, m) else rows + [m]
  }

  function LinkOne(links: seq<Link>, key: Key, subject: string): seq<Link> {
    if exists i | 0 <= i < |links| :: Hits(key, links[i].key) && links[i].subject == subject then links
    else links + [Link(key, subject)]
  }

  function LinkAll(links: seq<Link>, key: Key, subjects: seq<string>): seq<Link> {
    if subjects == [] then links
    else LinkOne(LinkAll(links, key, subjects[..|subjects| - 1]), key, subjects[|subjects| - 1])
  }

  function RowsWithout(rows: seq<Mapping>, patterns: set<Key>): seq<Mapping> {
    if rows == [] then []
    else
      var (rest, last) := (RowsWithout(rows[..|rows| - 1], patterns), rows[|rows| - 1]);
      if HitsAny(patterns, KeyOf(last)) then rest else rest + [last]
  }

  function LinksWithout(links: seq<Link>, patterns: set<Key>): seq<Link> {
    if links == [] then []
    else
      var (rest, last) := (LinksWithout(links[..|links| - 1], patterns), links[|links| - 1]);
      if HitsAny(patterns, last.key) then rest else rest + [last]
  }

  function KeysLinked(links: seq<Link>, subject: string): set<Key> {
    set i | 0 <= i < |links| && links[i].subject == subject :: links[i].key
  }

  function TableApply(t: Tables, op: Op): Tables {
    match op
    case Save(m, subjects) => Tables(SaveRow(t.rows, m), LinkAll(t.links, KeyOf(m), subjects))
    case Erase(s) =>
      var keys := KeysLinked(t.links, s);
      Tables(RowsWithout(t.rows, keys), LinksWithout(t.links, keys))
  }

  function TableRun(ops: seq<Op>): Tables {
    if ops == [] then Tables([], []) else TableApply(TableRun(ops[..|ops| - 1]), ops[|ops| - 1])
  }

  function FindRow(rows: seq<Mapping>, key: Key): Option<Mapping> {
    if rows == [] then None else if KeyOf(rows[0]) == key then Some(rows[0]) else FindRow(rows[1..], key)
  }

  function TableResolve(t: Tables, key: Key): Option<string> {
    var row := FindRow(t.rows, key);
    if row.Some? then Some(row.value.original) else None
  }

  class TableStore {
    var rows: seq<Mapping>
    var links: seq<Link>

    constructor ()
      ensures State() == TableRun([])
    {
      rows, links := [], [];
    }

    function State(): Tables
      reads this
    {
      Tables(rows, links)
    }

    method SaveMapping(m: Mapping, subjects: seq<string>)
      modifies this
      ensures State() == TableApply(old(State()), Save(m, subjects))
    {
      if HasRow(rows, KeyOf(m)) { rows := UpdateFirst(rows, m); } else { rows := rows + [m]; }
      ghost var saved := rows;
      var i := 0;
      while i < |subjects|
        invariant 0 <= i <= |subjects|
        invariant rows == saved && links == LinkAll(old(links), KeyOf(m), subjects[..i])
      {
        assert subjects[..i + 1][..i] == subjects[..i];
        if !(exists k | 0 <= k < |links| :: Hits(KeyOf(m), links[k].key) && links[k].subject == subjects[i]) {
          links := links + [Link(KeyOf(m), subjects[i])];
        }
        i := i + 1;
      }
      assert subjects[..|subjects|] == subjects;
    }

    method DeleteForSubject(subject: string)
      modifies this
      ensures State() == TableApply(old(State()), Erase(subject))
    {
      var found := links;
      var seen: set<Key> := {};
      RowsWithoutNone(rows);
      LinksWithoutNone(links);
      var i := 0;
      while i < |found|
        invariant 0 <= i <= |found| && found == old(links)
        invariant seen == KeysLinked(found[..i], subject)
        invariant rows == RowsWithout(old(rows), seen) && links == LinksWithout(old(links), seen)
      {
        var link := found[i];
        KeysOfOneMore(found, subject, i);
        if link.subject == subject && link.key !in seen {
          RowsWithoutMore(old(rows), seen, link.key);
          LinksWithoutMore(old(links), seen, link.key);
          seen := seen + {link.key};
          rows := RowsWithout(rows, {link.key});
          links := LinksWithout(links, {link.key});
        }
        i := i + 1;
      }
      assert found[..|found|] == found;
    }

    method ResolvePlaceholder(placeholder: string, container: Container) returns (original: Option<string>)
      ensures original == TableResolve(State(), Key(container, placeholder))
    {
      var row := FindRow(rows, Key(container, placeholder));
      original := if row.Some? then Some(row.value.original) else None;
    }
  }

  lemma KeysOfOneMore(links: seq<Link>, subject: string, n: nat)
    requires n < |links|
    ensures KeysLinked(links[..n + 1], subject)
         == KeysLinked(links[..n], subject) + if links[n].subject == subject then {links[n].key} else {}
  {}

  lemma {:induction false} RowsWithoutNone(rows: seq<Mapping>)
    ensures RowsWithout(rows, {}) == rows
  {
    if rows != [] { RowsWithoutNone(rows[..|rows| - 1]); }
  }

  lemma {:induction false} LinksWithoutNone(links: seq<Link>)
    ensures LinksWithout(links, {}) == links
  {
    if links != [] { LinksWithoutNone(links[..|links| - 1]); }
  }

  lemma HitsOneMore(patterns: set<Key>, more: Key, key: Key)
    ensures HitsAny(patterns + {more}, key) <==> HitsAny(patterns, key) || Hits(more, key)
  {}

  lemma {:induction false} RowsWithoutMore(rows: seq<Mapping>, patterns: set<Key>, more: Key)
    ensures RowsWithout(RowsWithout(rows, patterns), {more}) == RowsWithout(rows, patterns + {more})
  {
    if rows != [] {
      var (n, rest) := (|rows| - 1, RowsWithout(rows[..|rows| - 1], patterns));
      RowsWithoutMore(rows[..n], patterns, more);
      HitsOneMore(patterns, more, KeyOf(rows[n]));
      if !HitsAny(patterns, KeyOf(rows[n])) {
        assert (rest + [rows[n]])[..|rest|] == rest;
      }
    }
  }

  lemma {:induction false} LinksWithoutMore(links: seq<Link>, patterns: set<Key>, more: Key)
    ensures LinksWithout(LinksWithout(links, patterns), {more}) == LinksWithout(links, patterns + {more})
  {
    if links != [] {
      var (n, rest) := (|links| - 1, LinksWithout(links[..|links| - 1], patterns));
      LinksWithoutMore(links[..n], patterns, more);
      HitsOneMore(patterns, more, links[n].key);
      if !HitsAny(patterns, links[n].key) {
        assert (rest + [links[n]])[..|rest|] == rest;
      }
    }
  }

  // ── When the table store is exact ─────────────────────────────────────────────────────────

  function FirstHit(rows: seq<Mapping>, pattern: Key): Option<Mapping> {
    if rows == [] then None else if Hits(pattern, KeyOf(rows[0])) then Some(rows[0]) else FirstHit(rows[1..], pattern)
  }

  lemma {:induction false} FirstHitFinds(rows: seq<Mapping>, pattern: Key)
    ensures FirstHit(rows, pattern).None? <==> forall row | row in rows :: !Hits(pattern, KeyOf(row))
    ensures var hit := FirstHit(rows, pattern);
      hit.Some? ==> Hits(pattern, KeyOf(hit.value)) && FindRow(rows, KeyOf(hit.value)) == hit
  {
    if rows != [] {
      FirstHitFinds(rows[1..], pattern);
      assert rows == [rows[0]] + rows[1..];
    }
  }

  lemma UpdatedKeepsKey(row: Mapping, m: Mapping)
    requires Hits(KeyOf(m), KeyOf(row))
    ensures KeyOf(Updated(row, m)) == KeyOf(row)
  {}

  /** The update changes what the key of the first row it hits resolves to, and nothing else. */
  lemma {:induction false} UpdateFirstResolves(rows: seq<Mapping>, m: Mapping, key: Key)
    requires FirstHit(rows, KeyOf(m)).Some?
    ensures var found := FindRow(UpdateFirst(rows, m), key);
      if key == KeyOf(FirstHit(rows, KeyOf(m)).value) then found.Some? && found.value.original == m.original
      else found == FindRow(rows, key)
  {
    if Hits(KeyOf(m), KeyOf(rows[0])) {
      UpdatedKeepsKey(rows[0], m);
    } else {
      FirstHitFinds(rows[1..], KeyOf(m));
      UpdateFirstResolves(rows[1..], m, key);
    }
  }

  lemma {:induction false} AppendedRow(rows: seq<Mapping>, m: Mapping, key: Key)
    ensures FindRow(rows + [m], key)
         == if FindRow(rows, key).Some? then FindRow(rows, key) else if KeyOf(m) == key then Some(m) else None
    ensures HasRow(rows, key) <==> FindRow(rows, key).Some?
  {
    if rows == [] {
      assert rows + [m] == [m];
    } else {
      assert (rows + [m])[0] == rows[0] && (rows + [m])[1..] == rows[1..] + [m];
      AppendedRow(rows[1..], m, key);
      if HasRow(rows, key) && KeyOf(rows[0]) != key {
        var i :| 0 <= i < |rows| && KeyOf(rows[i]) == key;
        assert rows[1..][i - 1] == rows[i];
      }
    }
  }

  /** An update that comes first to the row of its own key, or leaves every original as it was. */
  predicate UpdatesOwn(t: Tables, m: Mapping) {
    HasRow(t.rows, KeyOf(m)) ==>
      var hit := FirstHit(t.rows, KeyOf(m));
      hit.Some? &&
      (KeyOf(hit.value) == KeyOf(m) ||
       (hit.value.original == m.original && TableResolve(t, KeyOf(m)) == Some(m.original)))
  }

  /** The save is resolved under its key, and every other key resolves as before. */
  ghost predicate SavesExactly(t: Tables, m: Mapping) {
    forall key :: TableResolve(Tables(SaveRow(t.rows, m), t.links), key)
               == if key == KeyOf(m) then Some(m.original) else TableResolve(t, key)
  }

  /** A save leaves every other key's resolution alone exactly when the row it updates is its own. */
  lemma SavesExactlyIffUpdatesOwn(t: Tables, m: Mapping)
    ensures SavesExactly(t, m) <==> UpdatesOwn(t, m)
  {
    var (own, t') := (KeyOf(m), Tables(SaveRow(t.rows, m), t.links));
    FirstHitFinds(t.rows, own);
    if HasRow(t.rows, own) {
      var i :| 0 <= i < |t.rows| && KeyOf(t.rows[i]) == own;
      assert t.rows[i] in t.rows && Hits(own, own);
      var hit := FirstHit(t.rows, own).value;
      forall key ensures TableResolve(t', key) == if key == KeyOf(hit) then Some(m.original) else TableResolve(t, key) {
        UpdateFirstResolves(t.rows, m, key);
      }
      if SavesExactly(t, m) {
        assert TableResolve(t', own) == Some(m.original);
        assert TableResolve(t', KeyOf(hit)) == Some(m.original);
      }
    } else {
      forall key ensures TableResolve(t', key) == if key == own then Some(m.original) else TableResolve(t, key) {
        AppendedRow(t.rows, m, key);
      }
    }
  }

  /** No link under another key stands in for one that the save should add. */
  ghost predicate LinksOwn(links: seq<Link>, key: Key, subjects: seq<string>) {
    forall link | link in links && Hits(key, link.key) && link.subject in subjects :: Link(key, link.subject) in links
  }

  /** The save adds the links of its own key and no others. */
  ghost predicate LinksExactly(links: seq<Link>, key: Key, subjects: seq<string>) {
    forall link ::
      link in LinkAll(links, key, subjects) <==> link in links || (link.key == key && link.subject in subjects)
  }

  lemma {:induction false} LinksAreAdded(links: seq<Link>, key: Key, subjects: seq<string>)
    requires LinksOwn(links, key, subjects)
    ensures LinksExactly(links, key, subjects)
  {
    if subjects != [] {
      var (n, rest) := (|subjects| - 1, LinkAll(links, key, subjects[..|subjects| - 1]));
      LinksAreAdded(links, key, subjects[..n]);
      assert subjects == subjects[..n] + [subjects[n]];
      if i :| 0 <= i < |rest| && Hits(key, rest[i].key) && rest[i].subject == subjects[n] {
        assert rest[i] in rest;
        assert Link(key, subjects[n]) in rest;
      }
    }
  }

  /** A namesake's link that the where clause hits is taken for the link of the saved key, which is then
      never added. */
  lemma {:induction false} NamesakeTakesTheLink(links: seq<Link>, key: Key, subjects: seq<string>, link: Link)
    requires link in links && Hits(key, link.key) && Link(key, link.subject) !in links
    ensures forall l :: l in links ==> l in LinkAll(links, key, subjects)
    ensures Link(key, link.subject) !in LinkAll(links, key, subjects)
  {
    if subjects != [] { NamesakeTakesTheLink(links, key, subjects[..|subjects| - 1], link); }
  }

  lemma LinksExactlyIffOwn(links: seq<Link>, key: Key, subjects: seq<string>)
    ensures LinksExactly(links, key, subjects) <==> LinksOwn(links, key, subjects)
  {
    if LinksOwn(links, key, subjects) {
      LinksAreAdded(links, key, subjects);
    } else {
      var link :| link in links && Hits(key, link.key) && link.subject in subjects && Link(key, link.subject) !in links;
      NamesakeTakesTheLink(links, key, subjects, link);
      assert Link(key, link.subject).key == key;
    }
  }

  lemma {:induction false} RowsWithoutHold(rows: seq<Mapping>, patterns: set<Key>)
    ensures forall row :: row in RowsWithout(rows, patterns) <==> row in rows && !HitsAny(patterns, KeyOf(row))
  {
    if rows != [] {
      var n := |rows| - 1;
      RowsWithoutHold(rows[..n], patterns);
      assert rows == rows[..n] + [rows[n]];
    }
  }

  lemma {:induction false} LinksWithoutHold(links: seq<Link>, patterns: set<Key>)
    ensures forall link :: link in LinksWithout(links, patterns) <==> link in links && !HitsAny(patterns, link.key)
  {
    if links != [] {
      var n := |links| - 1;
      LinksWithoutHold(links[..n], patterns);
      assert links == links[..n] + [links[n]];
    }
  }

  lemma {:induction false} RowsWithoutResolve(rows: seq<Mapping>, patterns: set<Key>, key: Key)
    ensures FindRow(RowsWithout(rows, patterns), key) == if HitsAny(patterns, key) then None else FindRow(rows, key)
  {
    if rows != [] {
      var n := |rows| - 1;
      RowsWithoutResolve(rows[..n], patterns, key);
      assert rows == rows[..n] + [rows[n]];
      AppendedRow(rows[..n], rows[n], key);
      AppendedRow(RowsWithout(rows[..n], patterns), rows[n], key);
    }
  }

  lemma KeysLinkedHold(links: seq<Link>, subject: string, key: Key)
    ensures key in KeysLinked(links, subject) <==> Link(key, subject) in links
  {}

  /** Some row or link of the tables has the key. */
  predicate Stored(t: Tables, key: Key) {
    HasRow(t.rows, key) || exists i | 0 <= i < |t.links| :: t.links[i].key == key
  }

  /** No where clause built from a key of the subject hits a stored key that is not the subject's. */
  ghost predicate ErasesOwn(t: Tables, s: string) {
    forall key | Stored(t, key) && HitsAny(KeysLinked(t.links, s), key) :: key in KeysLinked(t.links, s)
  }

  /** Erasing the subject removes the rows and links under its linked keys, and no others. */
  ghost predicate ErasesExactly(t: Tables, s: string) {
    var (keys, t') := (KeysLinked(t.links, s), TableApply(t, Erase(s)));
    && (forall row | row in t.rows :: row in t'.rows <==> KeyOf(row) !in keys)
    && (forall link | link in t.links :: link in t'.links <==> link.key !in keys)
  }

  /** For containers with halves missing as well: an erasure is exact exactly when no where clause built from
      a key of the subject hits a stored key that is not the subject's. */
  lemma ErasesExactlyIffNoForeignHit(t: Tables, s: string)
    ensures ErasesExactly(t, s) <==> ErasesOwn(t, s)
  {
    var keys := KeysLinked(t.links, s);
    RowsWithoutHold(t.rows, keys);
    LinksWithoutHold(t.links, keys);
    forall key | key in keys ensures HitsAny(keys, key) { assert Hits(key, key); }
    forall row | row in t.rows ensures Stored(t, KeyOf(row)) {}
    forall link | link in t.links ensures Stored(t, link.key) {}
  }

  /** Without a scope the where clause reaches every container: erasing a subject linked to a token saved
      outside any container also erases every namesake, whatever container it is in. */
  lemma ContextlessLinkErasesNamesakes(t: Tables, own: Key, s: string, key: Key)
    requires own.container == Container(None, None) && own.placeholder == key.placeholder
    requires Link(own, s) in t.links
    ensures TableResolve(TableApply(t, Erase(s)), key).None?
  {
    KeysLinkedHold(t.links, s, own);
    assert Hits(own, key);
    RowsWithoutResolve(t.rows, KeysLinked(t.links, s), key);
  }

  // ── The table store against the history ───────────────────────────────────────────────────

  /** The tables hold what the history says. */
  ghost predicate TablesAre(t: Tables, ops: seq<Op>) {
    && (forall key :: TableResolve(t, key) == Kept(ops, key))
    && (forall key, subject :: Link(key, subject) in t.links <==> LinkedBy(ops, subject, key))
  }

  /** The operation's where clauses hit only what is its own. */
  ghost predicate HitsOwn(t: Tables, op: Op) {
    match op
    case Save(m, subjects) => UpdatesOwn(t, m) && LinksOwn(t.links, KeyOf(m), subjects)
    case Erase(s) => ErasesOwn(t, s)
  }

  lemma SaveStaysExactIff(t: Tables, ops: seq<Op>, m: Mapping, subjects: seq<string>)
    requires TablesAre(t, ops)
    ensures TablesAre(TableApply(t, Save(m, subjects)), ops + [Save(m, subjects)]) <==> HitsOwn(t, Save(m, subjects))
  {
    var (op, all, own) := (Save(m, subjects), ops + [Save(m, subjects)], KeyOf(m));
    var t' := TableApply(t, op);
    assert all[..|ops|] == ops && all[|ops|] == op;
    SavesExactlyIffUpdatesOwn(t, m);
    LinksExactlyIffOwn(t.links, own, subjects);
    assert forall key :: TableResolve(t', key) == TableResolve(Tables(SaveRow(t.rows, m), t.links), key);
    assert forall key :: Kept(all, key) == if key == own then Some(m.original) else TableResolve(t, key);
    forall key, s ensures LinkedBy(all, s, key) <==> Link(key, s) in t.links || (own == key && s in subjects) {
      assert Link(key, s) in t.links <==> LinkedBy(ops, s, key);
    }
    if forall key, s :: Link(key, s) in t'.links <==> LinkedBy(all, s, key) {
      forall link ensures link in t'.links <==> link in t.links || (link.key == own && link.subject in subjects) {
        assert link == Link(link.key, link.subject);
      }
    }
  }

  /** What an erasure does to one key and one link, in the tables and in the history. */
  lemma EraseOfOne(t: Tables, ops: seq<Op>, s: string, key: Key, subject: string)
    requires TablesAre(t, ops)
    ensures var (all, t') := (ops + [Erase(s)], TableApply(t, Erase(s)));
      var (keys, link) := (KeysLinked(t.links, s), Link(key, subject));
      && TableResolve(t', key) == (if HitsAny(keys, key) then None else TableResolve(t, key))
      && Kept(all, key) == (if key in keys then None else TableResolve(t, key))
      && (link in t'.links <==> link in t.links && !HitsAny(keys, key))
      && (LinkedBy(all, subject, key) <==> link in t.links && key !in keys)
      && (key in keys ==> HitsAny(keys, key))
      && (Stored(t, key) <==> TableResolve(t, key).Some? || exists other :: Link(key, other) in t.links)
  {
    var (all, keys) := (ops + [Erase(s)], KeysLinked(t.links, s));
    assert all[..|ops|] == ops && all[|ops|] == Erase(s);
    KeysLinkedHold(t.links, s, key);
    assert Link(key, s) in t.links <==> LinkedBy(ops, s, key);
    assert Link(key, subject) in t.links <==> LinkedBy(ops, subject, key);
    assert TableResolve(t, key) == Kept(ops, key);
    RowsWithoutResolve(t.rows, keys, key);
    LinksWithoutHold(t.links, keys);
    if key in keys { assert Hits(key, key); }
    StoredIff(t, key);
  }

  lemma StoredIff(t: Tables, key: Key)
    ensures Stored(t, key) <==> TableResolve(t, key).Some? || exists other :: Link(key, other) in t.links
  {
    if t.rows != [] { AppendedRow(t.rows, t.rows[0], key); }
    if i :| 0 <= i < |t.links| && t.links[i].key == key {
      assert Link(key, t.links[i].subject) == t.links[i];
    }
  }

  lemma EraseStaysExactIff(t: Tables, ops: seq<Op>, s: string)
    requires TablesAre(t, ops)
    ensures TablesAre(TableApply(t, Erase(s)), ops + [Erase(s)]) <==> HitsOwn(t, Erase(s))
  {
    var (all, t', keys) := (ops + [Erase(s)], TableApply(t, Erase(s)), KeysLinked(t.links, s));
    if ErasesOwn(t, s) {
      forall key ensures TableResolve(t', key) == Kept(all, key) { EraseOfOne(t, ops, s, key, s); }
      forall key, subject ensures Link(key, subject) in t'.links <==> LinkedBy(all, subject, key) {
        EraseOfOne(t, ops, s, key, subject);
      }
    } else if TablesAre(t', all) {
      var key :| Stored(t, key) && HitsAny(keys, key) && key !in keys;
      EraseOfOne(t, ops, s, key, s);
      assert TableResolve(t', key) == Kept(all, key);
      var subject :| Link(key, subject) in t.links;
      EraseOfOne(t, ops, s, key, subject);
      assert false;
    }
  }

  ghost predicate OnlyOwnHits(ops: seq<Op>) { forall i | 0 <= i < |ops| :: HitsOwn(TableRun(ops[..i]), ops[i]) }

  lemma StepStaysExactIff(ops: seq<Op>, i: nat)
    requires i < |ops| && TablesAre(TableRun(ops[..i]), ops[..i])
    ensures TablesAre(TableRun(ops[..i + 1]), ops[..i + 1]) <==> HitsOwn(TableRun(ops[..i]), ops[i])
  {
    var (before, t) := (ops[..i], TableRun(ops[..i]));
    assert ops[..i + 1] == before + [ops[i]] && (before + [ops[i]])[..i] == before;
    match ops[i]
    case Save(m, subjects) => SaveStaysExactIff(t, before, m, subjects);
    case Erase(s) => EraseStaysExactIff(t, before, s);
  }

  lemma {:induction false} ExactAfter(ops: seq<Op>, n: nat)
    requires n <= |ops| && OnlyOwnHits(ops)
    ensures TablesAre(TableRun(ops[..n]), ops[..n])
  {
    if n > 0 {
      ExactAfter(ops, n - 1);
      StepStaysExactIff(ops, n - 1);
    }
  }

  /** Whatever the containers, the table store resolves and links at every point of a history exactly what
      was saved and not erased, if and only if no save or erasure in it hits what is not its own. */
  lemma TablesAreExactIffOnlyOwnHits(ops: seq<Op>)
    ensures (forall n | 0 <= n <= |ops| :: TablesAre(TableRun(ops[..n]), ops[..n])) <==> OnlyOwnHits(ops)
  {
    if OnlyOwnHits(ops) {
      forall n | 0 <= n <= |ops| ensures TablesAre(TableRun(ops[..n]), ops[..n]) { ExactAfter(ops, n); }
    } else if forall n | 0 <= n <= |ops| :: TablesAre(TableRun(ops[..n]), ops[..n]) {
      var i :| 0 <= i < |ops| && !HitsOwn(TableRun(ops[..i]), ops[i]);
      assert TablesAre(TableRun(ops[..i + 1]), ops[..i + 1]);
      StepStaysExactIff(ops, i);
      assert false;
    }
  }

  // ── Full containers hit only their own ────────────────────────────────────────────────────

  predicate Full(key: Key) { key.container.scope.Some? && key.container.scopeId.Some? }

  predicate FullSaves(ops: seq<Op>) { forall i | 0 <= i < |ops| && ops[i].Save? :: Full(KeyOf(ops[i].mapping)) }

  predicate FullTables(t: Tables) {
    && (forall row | row in t.rows :: Full(KeyOf(row)))
    && (forall link | link in t.links :: Full(link.key))
  }

  lemma FullHits(pattern: Key, key: Key)
    requires Full(pattern)
    ensures Hits(pattern, key) <==> key == pattern
  {}

  lemma FullTablesHitOwn(t: Tables, op: Op)
    requires FullTables(t) && (op.Save? ==> Full(KeyOf(op.mapping)))
    ensures HitsOwn(t, op)
  {
    if op.Save? {
      FirstHitFinds(t.rows, KeyOf(op.mapping));
      forall key ensures Hits(KeyOf(op.mapping), key) <==> key == KeyOf(op.mapping) {
        FullHits(KeyOf(op.mapping), key);
      }
      forall link | link in t.links && link.key == KeyOf(op.mapping) ensures link == Link(link.key, link.subject) {}
      if HasRow(t.rows, KeyOf(op.mapping)) {
        var i :| 0 <= i < |t.rows| && KeyOf(t.rows[i]) == KeyOf(op.mapping);
        assert t.rows[i] in t.rows;
      }
    } else {
      forall key | HitsAny(KeysLinked(t.links, op.subject), key) ensures key in KeysLinked(t.links, op.subject) {
        var p :| p in KeysLinked(t.links, op.subject) && Hits(p, key);
        FullHits(p, key);
      }
    }
  }

  lemma {:induction false} UpdateFirstKeys(rows: seq<Mapping>, m: Mapping)
    ensures forall row | row in UpdateFirst(rows, m) :: exists r | r in rows :: KeyOf(r) == KeyOf(row)
  {
    if rows != [] {
      assert rows == [rows[0]] + rows[1..];
      if Hits(KeyOf(m), KeyOf(rows[0])) {
        UpdatedKeepsKey(rows[0], m);
      } else {
        UpdateFirstKeys(rows[1..], m);
      }
    }
  }

  lemma FullTablesStay(t: Tables, op: Op)
    requires FullTables(t) && (op.Save? ==> Full(KeyOf(op.mapping)))
    ensures FullTables(TableApply(t, op))
  {
    match op
    case Save(m, subjects) =>
      UpdateFirstKeys(t.rows, m);
      FullTablesHitOwn(t, op);
      LinksAreAdded(t.links, KeyOf(m), subjects);
    case Erase(s) =>
      RowsWithoutHold(t.rows, KeysLinked(t.links, s));
      LinksWithoutHold(t.links, KeysLinked(t.links, s));
  }

  lemma {:induction false} FullSavesFillTables(ops: seq<Op>)
    requires FullSaves(ops)
    ensures FullTables(TableRun(ops))
  {
    if ops != [] {
      FullSavesFillTables(ops[..|ops| - 1]);
      FullTablesStay(TableRun(ops[..|ops| - 1]), ops[|ops| - 1]);
    }
  }

  lemma FullSavesHitOwn(ops: seq<Op>)
    requires FullSaves(ops)
    ensures OnlyOwnHits(ops)
  {
    forall i | 0 <= i < |ops| ensures HitsOwn(TableRun(ops[..i]), ops[i]) {
      FullSavesFillTables(ops[..i]);
      FullTablesHitOwn(TableRun(ops[..i]), ops[i]);
    }
  }

  /** Over any saves in full containers and any erasures, the table store resolves exactly what was saved
      and not erased: an erasure removes the mappings linked to its subject and nothing else. */
  lemma TablesAreExact(ops: seq<Op>)
    requires FullSaves(ops)
    ensures TablesAre(TableRun(ops), ops) && FullTables(TableRun(ops))
  {
    FullSavesHitOwn(ops);
    ExactAfter(ops, |ops|);
    FullSavesFillTables(ops);
    assert ops[..|ops|] == ops;
  }

  /** Outside full containers a save can overwrite a namesake: saved again with no container, a mapping
      updates the first row with its placeholder, in whatever container that is. */
  lemma ResaveOverwritesNamesake(first: Mapping, m: Mapping, again: Mapping)
    requires KeyOf(first) != KeyOf(m) == KeyOf(again) && first.placeholder == m.placeholder
    requires m.container == Container(None, None)
    ensures var ops := [Save(first, []), Save(m, []), Save(again, [])];
      TableResolve(TableRun(ops), KeyOf(first)) == Some(again.original)
  {
    var ops := [Save(first, []), Save(m, []), Save(again, [])];
    assert ops[..2] == [Save(first, []), Save(m, [])] && ops[..2][..1] == [Save(first, [])] && ops[..1][..0] == [];
    assert TableRun(ops[..1]).rows == [first];
    assert !HasRow([first], KeyOf(m));
    assert TableRun(ops[..2]).rows == [first, m];
    assert HasRow([first, m], KeyOf(again)) by { assert KeyOf([first, m][1]) == KeyOf(again); }
    assert Hits(KeyOf(again), KeyOf(first));
    UpdateFirstResolves([first, m], again, KeyOf(first));
  }

  // ── The memory store ──────────────────────────────────────────────────────────────────────

  /** One subject's set of keys, in the order the subjects were first indexed. */
  datatype Entry = Entry(subject: string, keys: set<Key>)

  datatype Memory = Memory(byKey: Rows, index: seq<Entry>)

  function KeysOf(index: seq<Entry>, subject: string): set<Key> {
    if index == [] then {} else if index[0].subject == subject then index[0].keys else KeysOf(index[1..], subject)
  }

  function AddLink(index: seq<Entry>, subject: string, key: Key): seq<Entry> {
    if index == [] then [Entry(subject, {key})]
    else if index[0].subject == subject then [Entry(subject, index[0].keys + {key})] + index[1..]
    else [index[0]] + AddLink(index[1..], subject, key)
  }

  function AddLinks(index: seq<Entry>, subjects: seq<string>, key: Key): seq<Entry> {
    if subjects == [] then index
    else AddLink(AddLinks(index, subjects[..|subjects| - 1], key), subjects[|subjects| - 1], key)
  }

  /** Taking the erased subject's keys out of every set in turn. Its own set is the one being read, so
      once it has been emptied nothing is left to take out of the sets after it. */
  function Emptied(index: seq<Entry>, subject: string, keys: set<Key>): seq<Entry> {
    if index == [] then []
    else
      var left := if index[0].subject == subject then {} else keys;
      [Entry(index[0].subject, index[0].keys - keys)] + Emptied(index[1..], subject, left)
  }

  function Removed(index: seq<Entry>, subject: string): seq<Entry> {
    if index == [] then []
    else if index[0].subject == subject then index[1..]
    else [index[0]] + Removed(index[1..], subject)
  }

  function MemoryApply(mem: Memory, op: Op): Memory {
    match op
    case Save(m, subjects) => Memory(mem.byKey[KeyOf(m) := m], AddLinks(mem.index, subjects, KeyOf(m)))
    case Erase(s) =>
      var keys := KeysOf(mem.index, s);
      Memory(mem.byKey - keys, Removed(Emptied(mem.index, s, keys), s))
  }

  function MemoryRun(ops: seq<Op>): Memory {
    if ops == [] then Memory(map[], []) else MemoryApply(MemoryRun(ops[..|ops| - 1]), ops[|ops| - 1])
  }

  predicate Indexed(index: seq<Entry>, subject: string) {
    index != [] && (index[0].subject == subject || Indexed(index[1..], subject))
  }

  lemma {:induction false} NotIndexed(index: seq<Entry>, subject: string)
    requires !Indexed(index, subject)
    ensures KeysOf(index, subject) == {} && Removed(Emptied(index, subject, {}), subject) == index
  {
    if index != [] {
      NotIndexed(index[1..], subject);
      assert Entry(index[0].subject, index[0].keys - {}) == index[0];
      assert Emptied(index, subject, {})[1..] == Emptied(index[1..], subject, {});
    }
  }

  lemma EmptiedStep(index: seq<Entry>, i: nat, subject: string, keys: set<Key>, done: seq<Entry>, entry: Entry)
    requires i < |index| && entry == Entry(index[i].subject, index[i].keys - keys)
    ensures done + Emptied(index[i..], subject, keys)
         == done + [entry] + Emptied(index[i + 1..], subject, if entry.subject == subject then {} else keys)
  {
    assert index[i..][1..] == index[i + 1..];
  }

  class MemoryStore {
    var byKey: Rows
    var index: seq<Entry>

    constructor ()
      ensures State() == MemoryRun([])
    {
      byKey, index := map[], [];
    }

    function State(): Memory
      reads this
    {
      Memory(byKey, index)
    }

    method SaveMapping(m: Mapping, subjects: seq<string>)
      modifies this
      ensures State() == MemoryApply(old(State()), Save(m, subjects))
    {
      byKey := byKey[KeyOf(m) := m];
      var i := 0;
      while i < |subjects|
        invariant 0 <= i <= |subjects|
        invariant byKey == old(byKey)[KeyOf(m) := m] && index == AddLinks(old(index), subjects[..i], KeyOf(m))
      {
        assert subjects[..i + 1][..i] == subjects[..i];
        index := AddLink(index, subjects[i], KeyOf(m));
        i := i + 1;
      }
      assert subjects[..|subjects|] == subjects;
    }

    method DeleteForSubject(subject: string)
      modifies this
      ensures State() == MemoryApply(old(State()), Erase(subject))
    {
      if !Indexed(index, subject) {
        NotIndexed(index, subject);
        return;
      }
      var keys := KeysOf(index, subject);
      byKey := byKey - keys;
      index := EmptySets(index, subject, keys);
      index := Removed(index, subject);
    }

    /** The loop over all sets, reading the erased subject's own set while emptying it. */
    static method EmptySets(index: seq<Entry>, subject: string, own: set<Key>) returns (emptied: seq<Entry>)
      ensures emptied == Emptied(index, subject, own)
    {
      var keys := own;
      emptied := [];
      var i := 0;
      while i < |index|
        invariant 0 <= i <= |index|
        invariant emptied + Emptied(index[i..], subject, keys) == Emptied(index, subject, own)
      {
        var entry := Entry(index[i].subject, index[i].keys - keys);
        EmptiedStep(index, i, subject, keys, emptied, entry);
        emptied := emptied + [entry];
        if entry.subject == subject { keys := {}; }
        i := i + 1;
      }
    }

    method ResolvePlaceholder(placeholder: string, container: Container) returns (original: Option<string>)
      ensures original == Resolve(byKey, container, placeholder)
    {
      var key := Key(container, placeholder);
      original := if key in byKey then Some(byKey[key].original) else None;
    }

    /** Some mapping of the container with that hash, when there is one. */
    method FindByHash(hash: Hash, container: Container) returns (found: Option<Mapping>)
      ensures found.Some? ==> exists key | key in byKey ::
        byKey[key] == found.value && found.value.hash == Some(hash) && found.value.container == container
      ensures found.None? ==> forall key | key in byKey ::
        !(byKey[key].hash == Some(hash) && byKey[key].container == container)
    {
      if key :| key in byKey && byKey[key].hash == Some(hash) && byKey[key].container == container {
        return Some(byKey[key]);
      }
      return None;
    }
  }

  // ── Where the two stores agree ────────────────────────────────────────────────────────────

  /** No subject is indexed twice. */
  predicate Distinct(index: seq<Entry>) {
    index == [] || (!Indexed(index[1..], index[0].subject) && Distinct(index[1..]))
  }

  lemma {:induction false} AddLinkHolds(index: seq<Entry>, subject: string, key: Key)
    requires Distinct(index)
    ensures Distinct(AddLink(index, subject, key))
    ensures forall s :: Indexed(AddLink(index, subject, key), s) <==> s == subject || Indexed(index, s)
    ensures forall s :: KeysOf(AddLink(index, subject, key), s) == KeysOf(index, s) + if s == subject then {key} else {}
  {
    if index != [] {
      if index[0].subject == subject {
        assert AddLink(index, subject, key)[1..] == index[1..];
      } else {
        AddLinkHolds(index[1..], subject, key);
        assert AddLink(index, subject, key)[1..] == AddLink(index[1..], subject, key);
      }
    }
  }

  lemma {:induction false} AddLinksHold(index: seq<Entry>, subjects: seq<string>, key: Key)
    requires Distinct(index)
    ensures Distinct(AddLinks(index, subjects, key))
    ensures forall s ::
      KeysOf(AddLinks(index, subjects, key), s) == KeysOf(index, s) + if s in subjects then {key} else {}
  {
    if subjects != [] {
      var n := |subjects| - 1;
      AddLinksHold(index, subjects[..n], key);
      AddLinkHolds(AddLinks(index, subjects[..n], key), subjects[n], key);
      assert subjects == subjects[..n] + [subjects[n]];
    }
  }

  /** What an erasure leaves of every other subject's set: the sets indexed before lose the erased keys,
      the sets indexed after keep them. */
  lemma {:induction false} EraseFromIndex(index: seq<Entry>, s: string, keys: set<Key>, t: string)
    requires Distinct(index)
    ensures var left := Removed(Emptied(index, s, keys), s);
      && Distinct(left) && !Indexed(left, s)
      && (t != s ==> KeysOf(index, t) - keys <= KeysOf(left, t) <= KeysOf(index, t))
    ensures forall u :: Indexed(Removed(Emptied(index, s, keys), s), u) ==> Indexed(index, u)
  {
    if index != [] {
      var emptied := Emptied(index, s, keys);
      if index[0].subject == s {
        EmptiedKeepsSubjects(index[1..], s, {}, t);
        assert emptied[1..] == Emptied(index[1..], s, {});
      } else {
        EraseFromIndex(index[1..], s, keys, t);
        assert emptied[1..] == Emptied(index[1..], s, keys);
        assert Removed(emptied, s)[1..] == Removed(emptied[1..], s);
      }
    }
  }

  lemma {:induction false} EmptiedKeepsSubjects(index: seq<Entry>, s: string, keys: set<Key>, t: string)
    requires Distinct(index)
    ensures Distinct(Emptied(index, s, keys))
    ensures forall u :: Indexed(Emptied(index, s, keys), u) <==> Indexed(index, u)
    ensures KeysOf(index, t) - keys <= KeysOf(Emptied(index, s, keys), t) <= KeysOf(index, t)
  {
    if index != [] {
      var left := if index[0].subject == s then {} else keys;
      EmptiedKeepsSubjects(index[1..], s, left, t);
      assert Emptied(index, s, keys)[1..] == Emptied(index[1..], s, left);
    }
  }

  lemma NotIndexedHasNoKeys(index: seq<Entry>, s: string)
    requires !Indexed(index, s)
    ensures KeysOf(index, s) == {}
  {
    NotIndexed(index, s);
  }

  function MemoryResolve(mem: Memory, key: Key): Option<string> { Resolve(mem.byKey, key.container, key.placeholder) }

  /** The memory store holds what the history says, and perhaps stale keys beside the links. */
  ghost predicate MemoryIs(mem: Memory, ops: seq<Op>) {
    && Distinct(mem.index)
    && (forall key :: MemoryResolve(mem, key) == Kept(ops, key))
    && (forall key, s | LinkedBy(ops, s, key) :: key in KeysOf(mem.index, s))
  }

  /** Erasing `s` now would meet a key that the index still has for `s` although its link has been
      erased, and that has since been saved again. */
  ghost predicate MeetsStaleKey(ops: seq<Op>, s: string) {
    exists key | key in KeysOf(MemoryRun(ops).index, s) :: !LinkedBy(ops, s, key) && Kept(ops, key).Some?
  }

  ghost predicate NoStaleErasure(ops: seq<Op>) {
    forall i | 0 <= i < |ops| && ops[i].Erase? :: !MeetsStaleKey(ops[..i], ops[i].subject)
  }

  lemma {:induction false} LinkedIsKept(ops: seq<Op>, s: string, key: Key)
    requires LinkedBy(ops, s, key)
    ensures Kept(ops, key).Some?
  {
    var before := ops[..|ops| - 1];
    if LinkedBy(before, s, key) { LinkedIsKept(before, s, key); }
  }

  lemma MemorySaves(mem: Memory, ops: seq<Op>, m: Mapping, subjects: seq<string>)
    requires MemoryIs(mem, ops)
    ensures MemoryIs(MemoryApply(mem, Save(m, subjects)), ops + [Save(m, subjects)])
  {
    var (op, all) := (Save(m, subjects), ops + [Save(m, subjects)]);
    assert all[..|ops|] == ops && all[|ops|] == op;
    AddLinksHold(mem.index, subjects, KeyOf(m));
    forall key ensures MemoryResolve(MemoryApply(mem, op), key) == Kept(all, key) {
      assert MemoryResolve(mem, key) == Kept(ops, key);
    }
  }

  lemma MemoryErases(mem: Memory, ops: seq<Op>, s: string)
    requires MemoryIs(mem, ops) && mem == MemoryRun(ops) && !MeetsStaleKey(ops, s)
    ensures MemoryIs(MemoryApply(mem, Erase(s)), ops + [Erase(s)])
  {
    var all := ops + [Erase(s)];
    var (mem', keys) := (MemoryApply(mem, Erase(s)), KeysOf(mem.index, s));
    assert all[..|ops|] == ops && all[|ops|] == Erase(s);
    EraseFromIndex(mem.index, s, keys, s);
    forall key ensures MemoryResolve(mem', key) == Kept(all, key) {
      assert MemoryResolve(mem, key) == Kept(ops, key);
    }
    forall key, t | LinkedBy(all, t, key) ensures key in KeysOf(mem'.index, t) {
      LinkedIsKept(ops, t, key);
      EraseFromIndex(mem.index, s, keys, t);
    }
  }

  lemma {:induction false} MemoryIsExact(ops: seq<Op>)
    requires NoStaleErasure(ops)
    ensures MemoryIs(MemoryRun(ops), ops)
  {
    if ops != [] {
      var (before, last) := (ops[..|ops| - 1], ops[|ops| - 1]);
      forall i | 0 <= i < |before| && before[i].Erase? ensures !MeetsStaleKey(before[..i], before[i].subject) {
        assert before[..i] == ops[..i];
      }
      MemoryIsExact(before);
      assert ops == before + [last];
      match last
      case Save(m, subjects) => MemorySaves(MemoryRun(before), before, m, subjects);
      case Erase(s) => MemoryErases(MemoryRun(before), before, s);
    }
  }

  ghost predicate Agree(ops: seq<Op>) {
    forall key :: MemoryResolve(MemoryRun(ops), key) == TableResolve(TableRun(ops), key)
  }

  lemma PrefixNotStale(ops: seq<Op>, n: nat)
    requires n <= |ops| && NoStaleErasure(ops)
    ensures NoStaleErasure(ops[..n])
  {
    forall i | 0 <= i < n && ops[..n][i].Erase? ensures !MeetsStaleKey(ops[..n][..i], ops[..n][i].subject) {
      assert ops[..n][..i] == ops[..i];
    }
  }

  lemma AgreeAfter(ops: seq<Op>, n: nat)
    requires n <= |ops| && OnlyOwnHits(ops) && NoStaleErasure(ops)
    ensures Agree(ops[..n])
  {
    var before := ops[..n];
    ExactAfter(ops, n);
    PrefixNotStale(ops, n);
    MemoryIsExact(before);
    forall key ensures MemoryResolve(MemoryRun(before), key) == TableResolve(TableRun(before), key) {
      assert TableResolve(TableRun(before), key) == Kept(before, key);
      assert MemoryResolve(MemoryRun(before), key) == Kept(before, key);
    }
  }

  lemma DisagreeAfterStale(ops: seq<Op>, i: nat)
    requires OnlyOwnHits(ops) && i < |ops| && ops[i].Erase? && MeetsStaleKey(ops[..i], ops[i].subject)
    ensures !Agree(ops[..i + 1])
  {
    ExactAfter(ops, i + 1);
    StaleErasureDisagrees(ops[..i], ops[i].subject, ops[..i + 1]);
  }

  lemma StaleErasureDisagrees(before: seq<Op>, s: string, all: seq<Op>)
    requires all == before + [Erase(s)] && TablesAre(TableRun(all), all) && MeetsStaleKey(before, s)
    ensures !Agree(all)
  {
    assert all[..|before|] == before && all[|before|] == Erase(s);
    var key :| key in KeysOf(MemoryRun(before).index, s) && !LinkedBy(before, s, key) && Kept(before, key).Some?;
    assert MemoryResolve(MemoryRun(all), key).None?;
    assert TableResolve(TableRun(all), key) == Kept(all, key) == Kept(before, key);
  }

  /** As long as the tables hit only their own, as in full containers, the two stores resolve the same
      placeholders at every point of a history exactly when no erasure in it meets a stale key in use. */
  lemma StoresAgreeIffNoStaleErasure(ops: seq<Op>)
    requires OnlyOwnHits(ops)
    ensures (forall n | 0 <= n <= |ops| :: Agree(ops[..n])) <==> NoStaleErasure(ops)
  {
    if NoStaleErasure(ops) {
      forall n | 0 <= n <= |ops| ensures Agree(ops[..n]) { AgreeAfter(ops, n); }
    } else {
      var i :| 0 <= i < |ops| && ops[i].Erase? && MeetsStaleKey(ops[..i], ops[i].subject);
      DisagreeAfterStale(ops, i);
    }
  }

  // ── Tokens that are never saved again after erasure ───────────────────────────────────────

  predicate WasErased(ops: seq<Op>, key: Key) {
    exists i | 0 <= i < |ops| && ops[i].Erase? :: LinkedBy(ops[..i], ops[i].subject, key)
  }

  /** No mapping is saved under a key that an earlier erasure removed. */
  predicate NeverReused(ops: seq<Op>) {
    forall i | 0 <= i < |ops| && ops[i].Save? :: !WasErased(ops[..i], KeyOf(ops[i].mapping))
  }

  lemma WasErasedBefore(ops: seq<Op>, key: Key)
    requires ops != []
    ensures var (before, last) := (ops[..|ops| - 1], ops[|ops| - 1]);
      WasErased(ops, key) <==> WasErased(before, key) || (last.Erase? && LinkedBy(before, last.subject, key))
  {
    var n := |ops| - 1;
    if WasErased(ops, key) {
      var i :| 0 <= i < |ops| && ops[i].Erase? && LinkedBy(ops[..i], ops[i].subject, key);
      if i < n { assert ops[..n][..i] == ops[..i]; }
    }
    if WasErased(ops[..n], key) {
      var i :| 0 <= i < n && ops[..n][i].Erase? && LinkedBy(ops[..n][..i], ops[..n][i].subject, key);
      assert ops[..n][..i] == ops[..i];
    }
  }

  lemma {:induction false} ErasedStaysErased(ops: seq<Op>, key: Key)
    requires NeverReused(ops) && WasErased(ops, key)
    ensures Kept(ops, key).None?
  {
    var n := |ops| - 1;
    PrefixNeverReused(ops);
    WasErasedBefore(ops, key);
    if WasErased(ops[..n], key) { ErasedStaysErased(ops[..n], key); }
  }

  lemma PrefixNeverReused(ops: seq<Op>)
    requires NeverReused(ops) && ops != []
    ensures NeverReused(ops[..|ops| - 1])
    ensures ops[|ops| - 1].Save? ==> !WasErased(ops[..|ops| - 1], KeyOf(ops[|ops| - 1].mapping))
  {
    var n := |ops| - 1;
    forall i | 0 <= i < n && ops[..n][i].Save? ensures !WasErased(ops[..n][..i], KeyOf(ops[..n][i].mapping)) {
      assert ops[..n][..i] == ops[..i];
    }
  }

  /** A key in a subject's set is linked to it or has been erased. */
  ghost predicate OnlyErasedAreStale(ops: seq<Op>) {
    && Distinct(MemoryRun(ops).index)
    && (forall key, s | key in KeysOf(MemoryRun(ops).index, s) :: LinkedBy(ops, s, key) || WasErased(ops, key))
  }

  lemma {:induction false} StaleKeysWereErased(ops: seq<Op>)
    ensures OnlyErasedAreStale(ops)
  {
    if ops != [] {
      var (n, last) := (|ops| - 1, ops[|ops| - 1]);
      var mem := MemoryRun(ops[..n]);
      StaleKeysWereErased(ops[..n]);
      if last.Save? {
        AddLinksHold(mem.index, last.subjects, KeyOf(last.mapping));
      } else {
        EraseFromIndex(mem.index, last.subject, KeysOf(mem.index, last.subject), last.subject);
        NotIndexedHasNoKeys(MemoryRun(ops).index, last.subject);
      }
      forall key, s | key in KeysOf(MemoryRun(ops).index, s) ensures LinkedBy(ops, s, key) || WasErased(ops, key) {
        WasErasedBefore(ops, key);
        if last.Erase? { EraseFromIndex(mem.index, last.subject, KeysOf(mem.index, last.subject), s); }
      }
    }
  }

  /** With placeholders that are never saved again once erased, as fresh minting gives, the two stores
      agree throughout. */
  lemma NeverReusedStoresAgree(ops: seq<Op>)
    requires OnlyOwnHits(ops) && NeverReused(ops)
    ensures forall n | 0 <= n <= |ops| :: Agree(ops[..n])
  {
    forall i | 0 <= i < |ops| && ops[i].Erase? ensures !MeetsStaleKey(ops[..i], ops[i].subject) {
      var before := ops[..i];
      forall j | 0 <= j < i && before[j].Save? ensures !WasErased(before[..j], KeyOf(before[j].mapping)) {
        assert before[..j] == ops[..j];
      }
      StaleKeysWereErased(before);
      forall key | key in KeysOf(MemoryRun(before).index, ops[i].subject) && !LinkedBy(before, ops[i].subject, key)
        ensures Kept(before, key).None?
      {
        ErasedStaysErased(before, key);
      }
    }
    StoresAgreeIffNoStaleErasure(ops);
  }

  lemma TwoSubjectsIndexed(first: string, second: string, key: Key)
    requires first != second
    ensures var both := [Entry(first, {key}), Entry(second, {key})];
      && AddLinks([], [first, second], key) == both
      && KeysOf(both, first) == {key}
      && Removed(Emptied(both, first, {key}), first) == [Entry(second, {key})]
  {
    var (one, both) := ([Entry(first, {key})], [Entry(first, {key}), Entry(second, {key})]);
    assert [first, second][..1] == [first] && [first][..0] == [];
    assert AddLinks([], [first], key) == AddLink([], first, key) == one;
    assert one[1..] == [];
    assert AddLink(one, second, key) == one + AddLink([], second, key) == both;
    assert both[1..] == [Entry(second, {key})] && both[1..][1..] == [];
    assert {key} - {key} == {} && {key} - {} == {key};
    assert Emptied(both[1..], first, {}) == [Entry(second, {key})];
    assert Emptied(both, first, {key}) == [Entry(first, {})] + Emptied(both[1..], first, {});
  }

  /** The disagreement: a mapping shared by two subjects is erased through the first, saved again for
      nobody, and then lost from the memory store when the second is erased. */
  lemma StaleKeyErasesTooMuch(m: Mapping, first: string, second: string)
    requires first != second && Full(KeyOf(m))
    ensures var ops := [Save(m, [first, second]), Erase(first), Save(m, [])];
      FullSaves(ops + [Erase(second)]) && MeetsStaleKey(ops, second) && !Agree(ops + [Erase(second)])
  {
    var (a, b, c) := (Save(m, [first, second]), Erase(first), Save(m, []));
    var key := KeyOf(m);
    assert [a, b, c][..2] == [a, b] && [a, b][..1] == [a] && [a][..0] == [];
    assert [first, second][..1] == [first] && [first][..0] == [];
    TwoSubjectsIndexed(first, second, key);
    assert MemoryRun([a]) == MemoryApply(MemoryRun([]), a);
    assert MemoryRun([a]).index == [Entry(first, {key}), Entry(second, {key})];
    assert MemoryRun([a, b]) == MemoryApply(MemoryRun([a]), b);
    assert MemoryRun([a, b]).index == [Entry(second, {key})];
    assert MemoryRun([a, b, c]).index == [Entry(second, {key})];
    assert key in KeysOf(MemoryRun([a, b, c]).index, second);
    assert LinkedBy([a], first, key);
    assert !LinkedBy([a, b], second, key);
    assert !LinkedBy([a, b, c], second, key);
    assert Kept([a, b, c], key) == Some(m.original);
    TablesAreExact([a, b, c] + [Erase(second)]);
    StaleErasureDisagrees([a, b, c], second, [a, b, c] + [Erase(second)]);
  }
}
