/**
 The translation between logical fields and physical columns: names are mapped, JSON fields are stored as
 text, defaults fill a creation, on-update values fill an update, hidden columns are not read back.

 Queries keep their meaning, reading undoes creating, and immutable columns are never written by an update
 exactly when none of them has an on-update value. Field mapping is strict, the default.
 */
module SchemaAdapter {
  import opened Options
  import W = WhereTree

  type Value = W.Value

  /** A field's declaration. A default or on-update function counts as the value it returns. */
  datatype Field = Field(
    logical: string, physical: string, json: bool, required: bool, returned: bool, immutable: bool,
    default: Option<Value>, onUpdate: Option<Value>)

  /** JSON text of a value, and the value of a text when it is JSON. */
  datatype Codec = Codec(stringify: Value -> string, parse: string -> Option<Value>)

  ghost predicate RoundTrips(c: Codec) { forall v :: c.parse(c.stringify(v)) == Some(v) }

  datatype Error =
    | TwoFieldsOneColumn(field: string, other: string)
    | TwoModelsOneTable(model: string, other: string)
    | EmptyModelName
    | UnknownField(field: string)
    | IsRequired(field: string)
    | IsImmutable(field: string)
    | NotJson(field: string)

  datatype Result<T> = Ok(value: T) | Err(error: Error)

  // ── Preparing a schema ────────────────────────────────────────────────────────────────────

  datatype Table = Table(logical: string, physical: string, fields: seq<Field>)

  predicate OneColumnEach(fields: seq<Field>) {
    forall i, j :: 0 <= i < j < |fields| ==> fields[i].physical != fields[j].physical
  }

  /** Keys of a record are distinct. */
  predicate OneNameEach(fields: seq<Field>) {
    forall i, j :: 0 <= i < j < |fields| ==> fields[i].logical != fields[j].logical
  }

  predicate OneTableEach(tables: seq<Table>) {
    forall i, j :: 0 <= i < j < |tables| ==> tables[i].physical != tables[j].physical
  }

  predicate WellNamed(t: Table) { t.logical != "" && OneColumnEach(t.fields) }

  method PrepareFields(fields: seq<Field>) returns (byPhysical: Result<map<string, Field>>)
    ensures byPhysical.Ok? <==> OneColumnEach(fields)
    ensures byPhysical.Ok? ==> byPhysical.value.Keys == (set f | f in fields :: f.physical)
    ensures byPhysical.Ok? ==> forall f | f in fields :: byPhysical.value[f.physical] == f
  {
    var found: map<string, Field> := map[];
    var i := 0;
    while i < |fields|
      invariant 0 <= i <= |fields| && OneColumnEach(fields[..i])
      invariant forall k | 0 <= k < i :: fields[k].physical in found && found[fields[k].physical] == fields[k]
      invariant forall p | p in found :: exists k | 0 <= k < i :: fields[k].physical == p
    {
      var field := fields[i];
      if field.physical in found {
        var k :| 0 <= k < i && fields[k].physical == field.physical;
        return Err(TwoFieldsOneColumn(field.logical, found[field.physical].logical));
      }
      found := found[field.physical := field];
      i := i + 1;
    }
    assert fields[..|fields|] == fields;
    return Ok(found);
  }

  /** A schema is accepted exactly when models have names and tables of their own and so have fields
      columns. Model names are the keys of a record, so they are distinct. */
  method PrepareSchema(tables: seq<Table>) returns (error: Option<Error>)
    requires forall i, j :: 0 <= i < j < |tables| ==> tables[i].logical != tables[j].logical
    ensures error.None? <==> OneTableEach(tables) && forall i | 0 <= i < |tables| :: WellNamed(tables[i])
  {
    var owners: map<string, string> := map[];
    var i := 0;
    while i < |tables|
      invariant 0 <= i <= |tables|
      invariant forall k | 0 <= k < i :: WellNamed(tables[k]) && tables[k].physical in owners
      invariant forall p | p in owners ::
        exists k | 0 <= k < i :: tables[k].physical == p && owners[p] == tables[k].logical
      invariant forall j, k :: 0 <= j < k < i ==> tables[j].physical != tables[k].physical
    {
      var table := tables[i];
      if table.logical == "" {
        assert !WellNamed(tables[i]);
        return Some(EmptyModelName);
      }
      if table.physical in owners && owners[table.physical] != table.logical {
        var k :| 0 <= k < i && tables[k].physical == table.physical;
        assert !OneTableEach(tables);
        return Some(TwoModelsOneTable(table.logical, owners[table.physical]));
      }
      owners := owners[table.physical := table.logical];
      var fields := PrepareFields(table.fields);
      if fields.Err? {
        assert !WellNamed(tables[i]);
        return Some(fields.error);
      }
      i := i + 1;
    }
    return None;
  }

  // ── One model ─────────────────────────────────────────────────────────────────────────────

  datatype Model = Model(fields: seq<Field>, codec: Codec, native: bool)

  /** What the schema preparation and the records it came from guarantee. */
  predicate Prepared(m: Model) { OneNameEach(m.fields) && OneColumnEach(m.fields) }

  function Find(fields: seq<Field>, logical: string): Option<Field> {
    if fields == [] then None
    else if fields[|fields| - 1].logical == logical then Some(fields[|fields| - 1])
    else Find(fields[..|fields| - 1], logical)
  }

  lemma {:induction false} FindIsExact(fields: seq<Field>, logical: string)
    ensures var found := Find(fields, logical);
      found.Some? ==> found.value in fields && found.value.logical == logical
    ensures Find(fields, logical).None? <==> forall f | f in fields :: f.logical != logical
  {
    if fields != [] {
      FindIsExact(fields[..|fields| - 1], logical);
      assert fields == fields[..|fields| - 1] + [fields[|fields| - 1]];
    }
  }

  lemma {:induction false} FindOwn(fields: seq<Field>, f: Field)
    requires OneNameEach(fields) && f in fields
    ensures Find(fields, f.logical) == Some(f)
  {
    var n := |fields| - 1;
    if f != fields[n] {
      var i :| 0 <= i <= n && fields[i] == f;
      assert fields[i].logical != fields[n].logical && fields[..n][i] == f;
      FindOwn(fields[..n], f);
    }
  }

  function AtField(row: W.Row, f: Field): Option<Value> { if f.logical in row then Some(row[f.logical]) else None }

  function AtColumn(row: W.Row, f: Field): Option<Value> { if f.physical in row then Some(row[f.physical]) else None }

  predicate AsText(m: Model, f: Field) { f.json && !m.native }

  function Encoded(m: Model, f: Field, v: Value): Value { if AsText(m, f) then W.Str(m.codec.stringify(v)) else v }

  /** None within Ok is undefined: an optional null reads back as absent. */
  function Decoded(m: Model, f: Field, v: Value): Result<Option<Value>> {
    if v.Null? && !f.required then Ok(None)
    else if !AsText(m, f) || v.Null? then Ok(Some(v))
    else if v.Str? && m.codec.parse(v.s).Some? then Ok(m.codec.parse(v.s))
    else Err(NotJson(f.logical))
  }

  // ── Queries ───────────────────────────────────────────────────────────────────────────────

  function EncodedAll(m: Model, f: Field, items: seq<Value>): seq<Value> {
    seq(|items|, i requires 0 <= i < |items| => Encoded(m, f, items[i]))
  }

  function ClauseValue(m: Model, f: Field, w: W.Where): Value
    requires w.Clause?
  {
    if !AsText(m, f) then w.value
    else if w.value.Many? && (w.op.In? || w.op.NotIn?) then W.Many(EncodedAll(m, f, w.value.items))
    else if !w.value.Null? then Encoded(m, f, w.value)
    else w.value
  }

  function TransformNode(m: Model, w: W.Where): Result<W.Where>
    decreases w, 0
  {
    match w
    case Group(all, members, either) =>
      var inner := TransformWhere(m, members);
      if inner.Err? then Err(inner.error) else Ok(W.Group(all, inner.value, either))
    case Clause(field, value, op, insensitive, either) =>
      var f := Find(m.fields, field);
      if f.None? then Err(UnknownField(field))
      else Ok(W.Clause(f.value.physical, ClauseValue(m, f.value, w), op, insensitive, either))
  }

  function TransformWhere(m: Model, ws: seq<W.Where>): (r: Result<seq<W.Where>>)
    ensures r.Ok? ==> |r.value| == |ws|
    decreases ws
  {
    if ws == [] then Ok([])
    else
      var before := TransformWhere(m, ws[..|ws| - 1]);
      if before.Err? then before
      else
        var last := TransformNode(m, ws[|ws| - 1]);
        if last.Err? then Err(last.error) else Ok(before.value + [last.value])
  }

  /** The columns that hold a logical row. */
  function EncodeRow(m: Model, fields: seq<Field>, row: W.Row): W.Row {
    if fields == [] then map[]
    else
      var (rest, f) := (EncodeRow(m, fields[..|fields| - 1], row), fields[|fields| - 1]);
      if f.logical in row then rest[f.physical := Encoded(m, f, row[f.logical])] else rest
  }

  lemma {:induction false} EncodeRowLacks(m: Model, fields: seq<Field>, row: W.Row, p: string)
    requires forall i | 0 <= i < |fields| :: fields[i].physical != p
    ensures p !in EncodeRow(m, fields, row)
  {
    if fields != [] { EncodeRowLacks(m, fields[..|fields| - 1], row, p); }
  }

  lemma {:induction false} EncodeRowAt(m: Model, fields: seq<Field>, row: W.Row, i: nat)
    requires OneColumnEach(fields) && i < |fields|
    ensures AtColumn(EncodeRow(m, fields, row), fields[i])
         == if fields[i].logical in row then Some(Encoded(m, fields[i], row[fields[i].logical])) else None
    decreases |fields|
  {
    var n := |fields| - 1;
    if i < n {
      assert fields[i].physical != fields[n].physical;
      EncodeRowAt(m, fields[..n], row, i);
    } else {
      EncodeRowLacks(m, fields[..n], row, fields[n].physical);
    }
  }

  lemma EncodedAt(m: Model, row: W.Row, f: Field)
    requires Prepared(m) && f in m.fields
    ensures AtColumn(EncodeRow(m, m.fields, row), f)
         == if f.logical in row then Some(Encoded(m, f, row[f.logical])) else None
  {
    var i :| 0 <= i < |m.fields| && m.fields[i] == f;
    EncodeRowAt(m, m.fields, row, i);
  }

  /** A text-stored JSON field is compared for equality, case-sensitively, or for membership. */
  predicate ComparesTexts(w: W.Where)
    requires w.Clause?
  {
    w.op.In? || w.op.NotIn? || ((w.op.Eq? || w.op.Ne?) && !w.insensitive)
  }

  /** Where the stored text answers otherwise than the value: a stored null is a text, but a null query
      value stays null; and lists that are different objects have one text. */
  predicate TextDiffers(row: W.Row, w: W.Where)
    requires w.Clause?
  {
    w.field in row &&
    var v := row[w.field];
    if w.op.In? || w.op.NotIn? then v.Many? && w.value.Many? && v in w.value.items
    else v == w.value && (v.Null? || v.Many?)
  }

  /** Every clause on a text-stored JSON field is one that the texts answer as the values do. */
  predicate Portable(m: Model, row: W.Row, w: W.Where) {
    match w
    case Group(_, members, _) => forall i | 0 <= i < |members| :: Portable(m, row, members[i])
    case Clause(field, _, _, _, _) =>
      var f := Find(m.fields, field);
      f.Some? && AsText(m, f.value) ==> ComparesTexts(w) && !TextDiffers(row, w)
  }

  lemma StringifyIsInjective(c: Codec, v: Value, w: Value)
    requires RoundTrips(c) && c.stringify(v) == c.stringify(w)
    ensures v == w
  {
    assert c.parse(c.stringify(v)) == Some(v);
  }

  lemma EncodedMembership(m: Model, f: Field, v: Value, items: seq<Value>)
    requires RoundTrips(m.codec) && AsText(m, f)
    ensures v in items <==> Encoded(m, f, v) in EncodedAll(m, f, items)
  {
    var encoded := EncodedAll(m, f, items);
    if v in items {
      var i :| 0 <= i < |items| && items[i] == v;
      assert encoded[i] == Encoded(m, f, v);
    }
    if Encoded(m, f, v) in encoded {
      var i :| 0 <= i < |encoded| && encoded[i] == Encoded(m, f, v);
      StringifyIsInjective(m.codec, v, items[i]);
    }
  }

  /** The clause, translated, answers on the stored row as it does on the logical one. */
  predicate ClauseKept(m: Model, row: W.Row, w: W.Where)
    requires w.Clause? && Find(m.fields, w.field).Some?
  {
    W.MatchOne(EncodeRow(m, m.fields, row), TransformNode(m, w).value) == W.MatchOne(row, w)
  }

  /** A clause that compares the texts of a JSON field keeps its answer exactly when the texts do not
      differ from the values. */
  lemma TextClauseKeptIffNotDiffering(m: Model, row: W.Row, w: W.Where)
    requires Prepared(m) && RoundTrips(m.codec) && w.Clause? && ComparesTexts(w)
    requires Find(m.fields, w.field).Some? && AsText(m, Find(m.fields, w.field).value)
    ensures ClauseKept(m, row, w) <==> !TextDiffers(row, w)
  {
    var f := Find(m.fields, w.field).value;
    FindIsExact(m.fields, w.field);
    EncodedAt(m, row, f);
    if w.field in row {
      var v := row[w.field];
      if w.op.In? || w.op.NotIn? {
        if w.value.Many? { EncodedMembership(m, f, v, w.value.items); }
      } else {
        if m.codec.stringify(v) == m.codec.stringify(w.value) { StringifyIsInjective(m.codec, v, w.value); }
      }
    }
  }

  lemma ClauseKeepsMeaning(m: Model, row: W.Row, w: W.Where)
    requires Prepared(m) && RoundTrips(m.codec) && w.Clause? && Portable(m, row, w) && Find(m.fields, w.field).Some?
    ensures TransformNode(m, w).Ok? && TransformNode(m, w).value.Clause? && ClauseKept(m, row, w)
  {
    var f := Find(m.fields, w.field).value;
    FindIsExact(m.fields, w.field);
    EncodedAt(m, row, f);
    if AsText(m, f) { TextClauseKeptIffNotDiffering(m, row, w); }
  }

  /** A stored null is not found by a query for null, and a stored list is found by a query for its like,
      which no logical row is. */
  lemma NullsAndListsDiffer(m: Model, f: Field, items: seq<Value>)
    requires Prepared(m) && RoundTrips(m.codec) && Find(m.fields, f.logical) == Some(f) && AsText(m, f)
    ensures var (row, w) := (map[f.logical := W.Null], W.Clause(f.logical, W.Null, W.Eq, false, false));
      W.MatchOne(row, w) && !W.MatchOne(EncodeRow(m, m.fields, row), TransformNode(m, w).value)
    ensures var (row, w) := (map[f.logical := W.Many(items)], W.Clause(f.logical, W.Many(items), W.Eq, false, false));
      !W.MatchOne(row, w) && W.MatchOne(EncodeRow(m, m.fields, row), TransformNode(m, w).value)
  {
    TextClauseKeptIffNotDiffering(m, map[f.logical := W.Null], W.Clause(f.logical, W.Null, W.Eq, false, false));
    TextClauseKeptIffNotDiffering(
      m, map[f.logical := W.Many(items)], W.Clause(f.logical, W.Many(items), W.Eq, false, false));
  }

  /** Why only these comparisons: in text ten is below nine, a string's text begins with its quotation mark
      and ends with another, and lists are folded with all their strings. */
  lemma OtherComparisonsDiffer(m: Model, f: Field)
    requires Prepared(m) && Find(m.fields, f.logical) == Some(f) && AsText(m, f)
    requires m.codec.stringify(W.Num(9)) == "9" && m.codec.stringify(W.Num(10)) == "10"
    requires m.codec.stringify(W.Str("a")) == "\"a\"" && m.codec.stringify(W.Str("ab")) == "\"ab\""
    requires m.codec.stringify(W.Many([W.Str("a")])) == "[\"a\"]"
    requires m.codec.stringify(W.Many([W.Str("A")])) == "[\"A\"]"
    ensures !ClauseKept(m, map[f.logical := W.Num(9)], W.Clause(f.logical, W.Num(10), W.Lt, false, false))
    ensures !ClauseKept(m, map[f.logical := W.Str("ab")], W.Clause(f.logical, W.Str("a"), W.StartsWith, false, false))
    ensures !ClauseKept(m, map[f.logical := W.Many([W.Str("A")])],
                        W.Clause(f.logical, W.Many([W.Str("a")]), W.Eq, true, false))
  {
    FindIsExact(m.fields, f.logical);
    EncodedAt(m, map[f.logical := W.Num(9)], f);
    EncodedAt(m, map[f.logical := W.Str("ab")], f);
    EncodedAt(m, map[f.logical := W.Many([W.Str("A")])], f);
    assert "\"ab\""[2] != "\"a\""[2];
  }

  /** Every field a query names is declared. */
  predicate Known(m: Model, w: W.Where) {
    match w
    case Group(_, members, _) => forall i | 0 <= i < |members| :: Known(m, members[i])
    case Clause(field, _, _, _, _) => Find(m.fields, field).Some?
  }

  lemma {:induction false} NodeTransformsIffKnown(m: Model, w: W.Where)
    ensures TransformNode(m, w).Ok? <==> Known(m, w)
    decreases w, 0
  {
    if w.Group? { TransformsIffKnown(m, w.members); }
  }

  /** A query is refused exactly when it names an undeclared field. */
  lemma {:induction false} TransformsIffKnown(m: Model, ws: seq<W.Where>)
    ensures TransformWhere(m, ws).Ok? <==> forall i | 0 <= i < |ws| :: Known(m, ws[i])
    decreases ws
  {
    if ws != [] {
      var n := |ws| - 1;
      TransformsIffKnown(m, ws[..n]);
      NodeTransformsIffKnown(m, ws[n]);
      assert forall i | 0 <= i < n :: ws[..n][i] == ws[i];
    }
  }

  lemma {:induction false} NodeKeepsMeaning(m: Model, row: W.Row, w: W.Where)
    requires Prepared(m) && RoundTrips(m.codec) && Known(m, w) && Portable(m, row, w)
    ensures TransformNode(m, w).Ok?
    ensures W.MatchNode(EncodeRow(m, m.fields, row), TransformNode(m, w).value) == W.MatchNode(row, w)
    ensures TransformNode(m, w).value.either == w.either
    decreases w, 0
  {
    NodeTransformsIffKnown(m, w);
    if w.Clause? {
      ClauseKeepsMeaning(m, row, w);
    } else {
      MembersKeepMeaning(m, row, w.members);
      var inner := TransformWhere(m, w.members).value;
      UntilOfEqual(EncodeRow(m, m.fields, row), inner, row, w.members, !w.all);
    }
  }

  lemma {:induction false} MembersKeepMeaning(m: Model, row: W.Row, ws: seq<W.Where>)
    requires Prepared(m) && RoundTrips(m.codec)
    requires forall i | 0 <= i < |ws| :: Known(m, ws[i]) && Portable(m, row, ws[i])
    ensures TransformWhere(m, ws).Ok?
    ensures forall i | 0 <= i < |ws| ::
      && W.MatchNode(EncodeRow(m, m.fields, row), TransformWhere(m, ws).value[i]) == W.MatchNode(row, ws[i])
      && TransformWhere(m, ws).value[i].either == ws[i].either
    decreases ws
  {
    TransformsIffKnown(m, ws);
    if ws != [] {
      var n := |ws| - 1;
      MembersKeepMeaning(m, row, ws[..n]);
      NodeKeepsMeaning(m, row, ws[n]);
      assert forall i | 0 <= i < n :: ws[..n][i] == ws[i];
    }
  }

  lemma {:induction false} UntilOfEqual(a: W.Row, xs: seq<W.Where>, b: W.Row, ys: seq<W.Where>, stop: bool)
    requires |xs| == |ys| && forall i | 0 <= i < |xs| :: W.MatchNode(a, xs[i]) == W.MatchNode(b, ys[i])
    ensures W.Until(a, xs, stop) == W.Until(b, ys, stop)
    decreases |xs|
  {
    if xs != [] {
      assert forall i | 0 <= i < |xs[1..]| :: xs[1..][i] == xs[i + 1] && ys[1..][i] == ys[i + 1];
      UntilOfEqual(a, xs[1..], b, ys[1..], stop);
    }
  }

  lemma {:induction false} MatchesOfEqual(a: W.Row, xs: seq<W.Where>, b: W.Row, ys: seq<W.Where>)
    requires |xs| == |ys|
    requires forall i | 0 <= i < |xs| :: W.MatchNode(a, xs[i]) == W.MatchNode(b, ys[i]) && xs[i].either == ys[i].either
    ensures W.Matches(a, xs) == W.Matches(b, ys)
    decreases |xs|
  {
    if xs != [] {
      var n := |xs| - 1;
      MatchesOfEqual(a, xs[..n], b, ys[..n]);
      W.MatchesPrefix(a, xs, n);
      W.MatchesPrefix(b, ys, n);
      assert xs[..n + 1] == xs && ys[..n + 1] == ys;
    }
  }

  /** The translated query matches the stored row exactly when the query matches the logical row, errors
      included. */
  lemma TranslationKeepsQueries(m: Model, row: W.Row, ws: seq<W.Where>)
    requires Prepared(m) && RoundTrips(m.codec)
    requires forall i | 0 <= i < |ws| :: Known(m, ws[i]) && Portable(m, row, ws[i])
    ensures TransformWhere(m, ws).Ok?
    ensures W.Matches(EncodeRow(m, m.fields, row), TransformWhere(m, ws).value) == W.Matches(row, ws)
  {
    MembersKeepMeaning(m, row, ws);
    MatchesOfEqual(EncodeRow(m, m.fields, row), TransformWhere(m, ws).value, row, ws);
  }

  // ── Creating and reading back ─────────────────────────────────────────────────────────────

  /** A key may be present with an undefined value. */
  type Data = map<string, Option<Value>>

  function Given(data: Data, f: Field): Option<Value> { if f.logical in data then data[f.logical] else None }

  function Filled(data: Data, f: Field): Option<Value> {
    if Given(data, f).Some? then Given(data, f) else f.default
  }

  /** The filled values of the fields, by logical name. */
  function FilledRow(fields: seq<Field>, data: Data): W.Row {
    if fields == [] then map[]
    else
      var (rest, f) := (FilledRow(fields[..|fields| - 1], data), fields[|fields| - 1]);
      if Filled(data, f).Some? then rest[f.logical := Filled(data, f).value] else rest
  }

  predicate KnownKeys(m: Model, data: Data) { forall k | k in data :: Find(m.fields, k).Some? }

  predicate Complete(m: Model, data: Data) {
    forall f | f in m.fields && f.required :: Filled(data, f).Some?
  }

  lemma {:induction false} FilledRowLacks(fields: seq<Field>, data: Data, k: string)
    requires forall i | 0 <= i < |fields| :: fields[i].logical != k
    ensures k !in FilledRow(fields, data)
  {
    if fields != [] { FilledRowLacks(fields[..|fields| - 1], data, k); }
  }

  lemma {:induction false} FilledRowAt(fields: seq<Field>, data: Data, i: nat)
    requires OneNameEach(fields) && i < |fields|
    ensures AtField(FilledRow(fields, data), fields[i]) == Filled(data, fields[i])
    decreases |fields|
  {
    var n := |fields| - 1;
    if i < n {
      assert fields[i].logical != fields[n].logical;
      FilledRowAt(fields[..n], data, i);
    } else {
      FilledRowLacks(fields[..n], data, fields[n].logical);
    }
  }

  lemma FilledAt(m: Model, data: Data, f: Field)
    requires Prepared(m) && f in m.fields
    ensures AtField(FilledRow(m.fields, data), f) == Filled(data, f)
  {
    var i :| 0 <= i < |m.fields| && m.fields[i] == f;
    FilledRowAt(m.fields, data, i);
  }

  /** Creation succeeds exactly when every key is a field and every required field is given or has a
      default, and then stores the encoding of the filled row. */
  method TransformCreateData(m: Model, data: Data) returns (out: Result<W.Row>)
    requires Prepared(m)
    ensures out.Ok? <==> KnownKeys(m, data) && Complete(m, data)
    ensures out.Ok? ==> out.value == EncodeRow(m, m.fields, FilledRow(m.fields, data))
  {
    if k :| k in data && Find(m.fields, k).None? { return Err(UnknownField(k)); }
    var row: W.Row := map[];
    ghost var filled := FilledRow(m.fields, data);
    var i := 0;
    while i < |m.fields|
      invariant 0 <= i <= |m.fields|
      invariant forall k | 0 <= k < i && m.fields[k].required :: Filled(data, m.fields[k]).Some?
      invariant row == EncodeRow(m, m.fields[..i], filled)
    {
      var field := m.fields[i];
      FilledAt(m, data, field);
      assert m.fields[..i + 1][..i] == m.fields[..i];
      var value := Given(data, field);
      if value.None? && field.default.Some? { value := field.default; }
      if field.required && value.None? { return Err(IsRequired(field.logical)); }
      if value.Some? { row := row[field.physical := Encoded(m, field, value.value)]; }
      i := i + 1;
    }
    assert m.fields[..i] == m.fields;
    return Ok(row);
  }

  /** Hidden columns, absent ones and optional nulls are not read. */
  function ReadOne(m: Model, f: Field, row: W.Row): Result<Option<Value>> {
    if !f.returned || f.physical !in row then Ok(None) else Decoded(m, f, row[f.physical])
  }

  predicate Readable(m: Model, row: W.Row) { forall f | f in m.fields :: ReadOne(m, f, row).Ok? }

  method DecodeRow(m: Model, row: W.Row) returns (out: Result<W.Row>)
    requires Prepared(m)
    ensures out.Ok? <==> Readable(m, row)
    ensures out.Ok? ==> forall k | k in out.value :: exists f | f in m.fields :: f.logical == k
    ensures out.Ok? ==> forall f | f in m.fields :: AtField(out.value, f) == ReadOne(m, f, row).value
  {
    var read: W.Row := map[];
    var i := 0;
    while i < |m.fields|
      invariant 0 <= i <= |m.fields|
      invariant forall k | 0 <= k < i ::
        ReadOne(m, m.fields[k], row).Ok? && AtField(read, m.fields[k]) == ReadOne(m, m.fields[k], row).value
      invariant forall k | k in read :: exists j | 0 <= j < i :: m.fields[j].logical == k
    {
      var field := m.fields[i];
      assert field in m.fields;
      i := i + 1;
      if !field.returned { continue; }
      if field.physical !in row { continue; }
      var value := Decoded(m, field, row[field.physical]);
      if value.Err? { return Err(value.error); }
      if value.value.Some? { read := read[field.logical := value.value.value]; }
    }
    return Ok(read);
  }

  /** What of the filled row can be read back: not what is hidden, and not an optional null that is stored
      as null. */
  function Visible(m: Model, data: Data, f: Field): Option<Value> {
    var v := Filled(data, f);
    if !f.returned then None
    else if v.Some? && v.value.Null? && !f.required && !AsText(m, f) then None
    else v
  }

  /** Reading undoes creating, up to defaults, hidden columns and optional nulls. */
  lemma ReadingUndoesCreating(m: Model, data: Data, f: Field)
    requires Prepared(m) && RoundTrips(m.codec) && f in m.fields
    ensures ReadOne(m, f, EncodeRow(m, m.fields, FilledRow(m.fields, data))) == Ok(Visible(m, data, f))
  {
    FilledAt(m, data, f);
    EncodedAt(m, FilledRow(m.fields, data), f);
    var v := Filled(data, f);
    if v.Some? { assert m.codec.parse(m.codec.stringify(v.value)) == v; }
  }

  /** A row that was created is always readable. */
  lemma CreatedIsReadable(m: Model, data: Data)
    requires Prepared(m) && RoundTrips(m.codec)
    ensures Readable(m, EncodeRow(m, m.fields, FilledRow(m.fields, data)))
  {
    forall f | f in m.fields ensures ReadOne(m, f, EncodeRow(m, m.fields, FilledRow(m.fields, data))).Ok? {
      ReadingUndoesCreating(m, data, f);
    }
  }

  // ── Updating ──────────────────────────────────────────────────────────────────────────────

  function Touched(update: Data, f: Field): Option<Value> {
    if Given(update, f).Some? then Given(update, f) else f.onUpdate
  }

  predicate Mutable(m: Model, update: Data) {
    forall k | k in update :: Find(m.fields, k).Some? && !Find(m.fields, k).value.immutable
  }

  /** An update is accepted exactly when its keys are fields that are not immutable; it writes the columns
      of the values given and of the on-update values, and no others. */
  method TransformUpdateData(m: Model, update: Data) returns (out: Result<W.Row>)
    requires Prepared(m)
    ensures out.Ok? <==> Mutable(m, update)
    ensures out.Ok? ==> forall p | p in out.value :: exists f | f in m.fields :: f.physical == p
    ensures out.Ok? ==> forall f | f in m.fields :: AtColumn(out.value, f) == Written(m, update, f)
  {
    if k :| k in update && (Find(m.fields, k).None? || Find(m.fields, k).value.immutable) {
      return Err(if Find(m.fields, k).None? then UnknownField(k) else IsImmutable(k));
    }
    var row: W.Row := map[];
    var i := 0;
    while i < |m.fields|
      invariant 0 <= i <= |m.fields|
      invariant forall k | 0 <= k < i :: AtColumn(row, m.fields[k]) == Written(m, update, m.fields[k])
      invariant forall p | p in row :: exists j | 0 <= j < i :: m.fields[j].physical == p
    {
      var field := m.fields[i];
      var value := Given(update, field);
      if value.None? && field.onUpdate.Some? { value := field.onUpdate; }
      if value.Some? { row := row[field.physical := Encoded(m, field, value.value)]; }
      i := i + 1;
    }
    return Ok(row);
  }

  /** The column an accepted update writes for the field, when it writes one. */
  function Written(m: Model, update: Data, f: Field): Option<Value> {
    var v := Touched(update, f);
    if v.Some? then Some(Encoded(m, f, v.value)) else None
  }

  /** No accepted update writes an immutable column exactly when no immutable field has an on-update
      value: an immutable key is refused, but an on-update value is written whatever the keys are. */
  lemma ImmutableIffNoOnUpdate(m: Model)
    requires Prepared(m)
    ensures (forall update: Data, f | Mutable(m, update) && f in m.fields && f.immutable :: Written(m, update, f).None?)
        <==> forall f | f in m.fields && f.immutable :: f.onUpdate.None?
  {
    if forall f | f in m.fields && f.immutable :: f.onUpdate.None? {
      forall update: Data, f | Mutable(m, update) && f in m.fields && f.immutable ensures Written(m, update, f).None? {
        FindOwn(m.fields, f);
      }
    } else {
      var f :| f in m.fields && f.immutable && f.onUpdate.Some?;
      var update: Data := map[];
      assert Mutable(m, update) && Written(m, update, f).Some?;
    }
  }
}
