/**
 One where tree, read twice: evaluated on a row in memory, and compiled to an SQL condition. Where a clause
 compares values of one type, or null, the two readings part on exactly the rows `Diverges` names; on all
 others they agree for whole trees, LIKE escaping included. Compilation fails exactly on an empty group, an
 unknown field or a null that is not compared for equality.
 */
module WhereTree {
  import opened Options
  import opened Strings

  // ── The tree ──────────────────────────────────────────────────────────────────────────────

  datatype Value = Null | Str(s: string) | Num(n: int) | Bool(b: bool) | Many(items: seq<Value>)

  datatype Operator = Eq | Ne | Lt | Lte | Gt | Gte | In | NotIn | Contains | StartsWith | EndsWith

  /** `either` is the OR connector to the previous sibling; `all` makes a group an AND. */
  datatype Where =
    | Clause(field: string, value: Value, op: Operator, insensitive: bool, either: bool)
    | Group(all: bool, members: seq<Where>, either: bool)

  /** A field the row does not have is undefined. */
  type Row = map<string, Value>

  function Size(ws: seq<Where>): nat {
    if ws == [] then 0 else Size(ws[..|ws| - 1]) + NodeSize(ws[|ws| - 1])
  }

  function NodeSize(w: Where): nat { if w.Clause? then 1 else 1 + Size(w.members) }

  lemma {:induction false} MemberIsSmaller(ws: seq<Where>, i: nat)
    requires i < |ws|
    ensures NodeSize(ws[i]) <= Size(ws)
  {
    if i < |ws| - 1 { MemberIsSmaller(ws[..|ws| - 1], i); }
  }

  // ── In memory ─────────────────────────────────────────────────────────────────────────────

  function Folded(s: string, insensitive: bool): string { if insensitive then Lower(s) else s }

  predicate At(s: string, k: nat, v: string) { k + |v| <= |s| && s[k..k + |v|] == v }

  predicate Includes(s: string, v: string) { exists k | 0 <= k <= |s| :: At(s, k, v) }

  predicate EndsIn(s: string, v: string) { |v| <= |s| && At(s, |s| - |v|, v) }

  /** Order of strings by their characters. */
  predicate LessString(a: string, b: string) {
    b != [] && (a == [] || a[0] < b[0] || (a[0] == b[0] && LessString(a[1..], b[1..])))
  }

  /** What a value counts as beside a number; that a string counts as the number it spells is not
      modelled. */
  function Number(v: Value): Option<int> {
    match v
    case Null => Some(0)
    case Bool(b) => Some(if b then 1 else 0)
    case Num(n) => Some(n)
    case _ => None
  }

  predicate Less(a: Value, b: Value) {
    if a.Str? && b.Str? then LessString(a.s, b.s)
    else Number(a).Some? && Number(b).Some? && Number(a).value < Number(b).value
  }

  predicate AtMost(a: Value, b: Value) { Less(a, b) || a == b || (Number(a).Some? && Number(a) == Number(b)) }

  predicate Ordered(op: Operator, a: Value, b: Value) {
    match op
    case Lt => Less(a, b)
    case Lte => AtMost(a, b)
    case Gt => Less(b, a)
    case Gte => AtMost(b, a)
    case _ => false
  }

  /** Strict equality: two lists are different objects. */
  predicate Same(v: Option<Value>, value: Value) { v == Some(value) && !value.Many? }

  /** Membership is equality with some item, so a list is in no list. */
  predicate Listed(v: Option<Value>, items: seq<Value>) { v.Some? && !v.value.Many? && v.value in items }

  function StringsOf(v: Option<Value>, w: Where): Option<(string, string)>
    requires w.Clause?
  {
    if v.Some? && v.value.Str? && w.value.Str?
    then Some((Folded(v.value.s, w.insensitive), Folded(w.value.s, w.insensitive)))
    else None
  }

  predicate MatchOne(row: Row, w: Where)
    requires w.Clause?
  {
    var v := if w.field in row then Some(row[w.field]) else None;
    var s := StringsOf(v, w);
    match w.op
    case Eq => if s.Some? then s.value.0 == s.value.1 else Same(v, w.value)
    case Ne => if s.Some? then s.value.0 != s.value.1 else !Same(v, w.value)
    case In => w.value.Many? && Listed(v, w.value.items)
    case NotIn => w.value.Many? && !Listed(v, w.value.items)
    case Contains => s.Some? && Includes(s.value.0, s.value.1)
    case StartsWith => s.Some? && s.value.1 <= s.value.0
    case EndsWith => s.Some? && EndsIn(s.value.0, s.value.1)
    case _ => v.Some? && Ordered(w.op, v.value, w.value)
  }

  /** None is the error of an empty group that was reached. */
  function MatchNode(row: Row, w: Where): Option<bool>
    decreases w, 0
  {
    match w
    case Clause(_, _, _, _, _) => Some(MatchOne(row, w))
    case Group(all, members, _) => if members == [] then None else Until(row, members, !all)
  }

  /** The members in turn until one is `stop`. */
  function Until(row: Row, members: seq<Where>, stop: bool): Option<bool>
    decreases members
  {
    if members == [] then Some(!stop)
    else
      var m := MatchNode(row, members[0]);
      if m == Some(!stop) then Until(row, members[1..], stop) else m
  }

  /** The siblings from left to right, each joined by its own connector. */
  function Matches(row: Row, ws: seq<Where>): Option<bool> {
    if ws == [] then Some(true)
    else
      var (n, w) := (|ws| - 1, ws[|ws| - 1]);
      var (before, m) := (Matches(row, ws[..n]), MatchNode(row, w));
      if before.None? || m.None? then None
      else if n == 0 then m
      else Some(if w.either then before.value || m.value else before.value && m.value)
  }

  method MatchWhere(row: Row, ws: seq<Where>) returns (matched: Option<bool>)
    ensures matched == Matches(row, ws)
    decreases Size(ws), 0
  {
    var result, seen := true, false;
    var i := 0;
    while i < |ws|
      invariant 0 <= i <= |ws| && seen == (i > 0)
      invariant Matches(row, ws[..i]) == Some(result)
    {
      var w := ws[i];
      MemberIsSmaller(ws, i);
      MatchesPrefix(row, ws, i);
      var m;
      if w.Group? {
        if |w.members| == 0 { ThrownStays(row, ws, i + 1); return None; }
        m := MatchGroup(row, w.members, !w.all);
        if m.None? { ThrownStays(row, ws, i + 1); return None; }
      } else {
        m := Some(MatchOne(row, w));
      }
      result := if !seen then m.value else if w.either then result || m.value else result && m.value;
      seen := true;
      i := i + 1;
    }
    assert ws[..|ws|] == ws;
    return Some(result);
  }

  /** A group's members, each a where list of its own, until one decides. */
  method MatchGroup(row: Row, members: seq<Where>, stop: bool) returns (matched: Option<bool>)
    ensures matched == Until(row, members, stop)
    decreases Size(members), 1
  {
    var i := 0;
    assert members[0..] == members;
    while i < |members|
      invariant 0 <= i <= |members|
      invariant Until(row, members, stop) == Until(row, members[i..], stop)
    {
      MemberIsSmaller(members, i);
      OneNode(row, members[i]);
      assert members[i..][1..] == members[i + 1..];
      var m := MatchWhere(row, [members[i]]);
      if m != Some(!stop) { return m; }
      i := i + 1;
    }
    return Some(!stop);
  }

  lemma OneNode(row: Row, w: Where)
    ensures Matches(row, [w]) == MatchNode(row, w) && Size([w]) == NodeSize(w)
  {
    assert [w][..0] == [];
  }

  lemma MatchesPrefix(row: Row, ws: seq<Where>, i: nat)
    requires i < |ws|
    ensures var (before, m) := (Matches(row, ws[..i]), MatchNode(row, ws[i]));
      Matches(row, ws[..i + 1])
        == if before.None? || m.None? then None
           else if i == 0 then m
           else Some(if ws[i].either then before.value || m.value else before.value && m.value)
  {
    assert ws[..i + 1][..i] == ws[..i];
  }

  lemma {:induction false} ThrownStays(row: Row, ws: seq<Where>, i: nat)
    requires i <= |ws| && Matches(row, ws[..i]).None?
    ensures Matches(row, ws).None?
    decreases |ws|
  {
    if i == |ws| {
      assert ws[..i] == ws;
    } else {
      assert ws[..|ws| - 1][..i] == ws[..i];
      ThrownStays(row, ws[..|ws| - 1], i);
    }
  }

  // ── LIKE ──────────────────────────────────────────────────────────────────────────────────

  predicate IsWild(c: char) { c == '\\' || c == '%' || c == '_' }

  function EscapeLike(v: string): string {
    if v == "" then "" else (if IsWild(v[0]) then ['\\', v[0]] else [v[0]]) + EscapeLike(v[1..])
  }

  /** SQL LIKE with the backslash as its escape character. */
  predicate Like(s: string, p: string)
    decreases |p|, |s|
  {
    if p == "" then s == ""
    else if p[0] == '%' then Like(s, p[1..]) || (s != "" && Like(s[1..], p))
    else if p[0] == '_' then s != "" && Like(s[1..], p[1..])
    else if p[0] == '\\' then |p| >= 2 && s != "" && s[0] == p[1] && Like(s[1..], p[2..])
    else s != "" && s[0] == p[0] && Like(s[1..], p[1..])
  }

  /** An escaped value matches itself and nothing else. */
  lemma {:induction false} EscapedIsLiteral(s: string, v: string, p: string)
    ensures Like(s, EscapeLike(v) + p) <==> v <= s && Like(s[|v|..], p)
    decreases |v|
  {
    if v == "" {
      assert EscapeLike(v) + p == p && s[0..] == s;
    } else {
      var (head, rest) := (if IsWild(v[0]) then ['\\', v[0]] else [v[0]], EscapeLike(v[1..]) + p);
      var pattern := EscapeLike(v) + p;
      assert pattern == head + rest;
      assert pattern[|head|..] == rest;
      if s != "" {
        EscapedIsLiteral(s[1..], v[1..], p);
        if |v| <= |s| { assert s[1..][|v| - 1..] == s[|v|..]; }
        assert v <= s <==> s[0] == v[0] && v[1..] <= s[1..] by { PrefixByHead(v, s); }
      }
    }
  }

  lemma PrefixByHead(v: string, s: string)
    requires v != "" && s != ""
    ensures v <= s <==> s[0] == v[0] && v[1..] <= s[1..]
  {}

  lemma {:induction false} PercentIsAnything(s: string, p: string)
    ensures Like(s, "%" + p) <==> exists k | 0 <= k <= |s| :: Like(s[k..], p)
    decreases |s|
  {
    var pattern := "%" + p;
    assert pattern[1..] == p && s[0..] == s;
    if s != "" {
      PercentIsAnything(s[1..], p);
      if k :| 0 <= k <= |s[1..]| && Like(s[1..][k..], p) { assert s[1..][k..] == s[k + 1..]; }
      if k :| 0 <= k <= |s| && Like(s[k..], p) {
        if k > 0 { assert s[1..][k - 1..] == s[k..]; }
      }
    }
  }

  lemma PercentTakesAll(s: string)
    ensures Like(s, "%")
  {}

  lemma LikeStartsWith(s: string, v: string)
    ensures Like(s, EscapeLike(v) + "%") <==> v <= s
  {
    EscapedIsLiteral(s, v, "%");
    if v <= s { PercentTakesAll(s[|v|..]); }
  }

  lemma LikeContains(s: string, v: string)
    ensures Like(s, "%" + EscapeLike(v) + "%") <==> Includes(s, v)
  {
    PercentIsAnything(s, EscapeLike(v) + "%");
    assert "%" + (EscapeLike(v) + "%") == "%" + EscapeLike(v) + "%";
    forall k | 0 <= k <= |s| ensures Like(s[k..], EscapeLike(v) + "%") <==> At(s, k, v) {
      LikeStartsWith(s[k..], v);
      if At(s, k, v) { assert s[k..][..|v|] == s[k..k + |v|]; }
      if v <= s[k..] { assert s[k..][..|v|] == s[k..k + |v|]; }
    }
  }

  lemma LikeEndsWith(s: string, v: string)
    ensures Like(s, "%" + EscapeLike(v)) <==> EndsIn(s, v)
  {
    PercentIsAnything(s, EscapeLike(v));
    forall k | 0 <= k <= |s| ensures Like(s[k..], EscapeLike(v)) <==> s[k..] == v {
      EscapedIsLiteral(s[k..], v, "");
      assert EscapeLike(v) + "" == EscapeLike(v);
      if v <= s[k..] && s[k..][|v|..] == "" { assert s[k..] == v; }
    }
    if EndsIn(s, v) { assert s[|s| - |v|..] == s[|s| - |v|..|s|] == v; }
    if k :| 0 <= k <= |s| && s[k..] == v { assert s[k..k + |v|] == v; }
  }

  lemma {:induction false} EscapeOfLower(v: string)
    ensures EscapeLike(Lower(v)) == Lower(EscapeLike(v))
  {
    if v != "" {
      EscapeOfLower(v[1..]);
      assert Lower(v)[1..] == Lower(v[1..]);
      var head := if IsWild(v[0]) then ['\\', v[0]] else [v[0]];
      LowerOfConcat(head, EscapeLike(v[1..]));
    }
  }

  lemma LowerOfConcat(a: string, b: string)
    ensures Lower(a + b) == Lower(a) + Lower(b)
  {}

  // ── The SQL condition ─────────────────────────────────────────────────────────────────────

  datatype Expr =
    | Truth(b: bool)
    | IsNull(col: string, not: bool)
    | Compare(op: Operator, col: string, value: Value, fold: bool)
    | Among(col: string, values: seq<Value>, not: bool)
    | LikeExpr(col: string, pattern: string, fold: bool)
    | And(parts: seq<Expr>)
    | Or(parts: seq<Expr>)

  datatype CompileError = EmptyGroup | UnknownField(field: string) | NullCompare(field: string)

  datatype Compiled = Sql(expr: Expr) | Failed(error: CompileError)

  /** The condition of the whole list; an empty list has none. */
  datatype Condition = NoCondition | Where(expr: Expr) | Refused(error: CompileError)

  /** The columns of a table, and what `String` makes of a value. */
  datatype Database = Database(cols: set<string>, text: Value -> string)

  /** The text of a string is that string. */
  ghost predicate StringsAreText(db: Database) { forall s :: db.text(Str(s)) == s }

  function Items(value: Value): seq<Value> { if value.Many? then value.items else [] }

  function ConditionOf(db: Database, w: Where): Compiled
    requires w.Clause?
  {
    var fold := w.insensitive && w.value.Str?;
    if w.value.Null? then
      if w.op.Eq? || w.op.Ne? then Sql(IsNull(w.field, w.op.Ne?)) else Failed(NullCompare(w.field))
    else
      match w.op
      case In => Sql(if Items(w.value) == [] then Truth(false) else Among(w.field, Items(w.value), false))
      case NotIn => Sql(if Items(w.value) == [] then Truth(true) else Among(w.field, Items(w.value), true))
      case Contains => Sql(LikeExpr(w.field, "%" + EscapeLike(db.text(w.value)) + "%", fold))
      case StartsWith => Sql(LikeExpr(w.field, EscapeLike(db.text(w.value)) + "%", fold))
      case EndsWith => Sql(LikeExpr(w.field, "%" + EscapeLike(db.text(w.value)), fold))
      case Lt => Sql(Compare(w.op, w.field, w.value, false))
      case Lte => Sql(Compare(w.op, w.field, w.value, false))
      case Gt => Sql(Compare(w.op, w.field, w.value, false))
      case Gte => Sql(Compare(w.op, w.field, w.value, false))
      case _ => Sql(Compare(w.op, w.field, w.value, fold))
  }

  function CompileNode(db: Database, w: Where): Compiled
    decreases w, 0
  {
    match w
    case Clause(field, _, _, _, _) => if field in db.cols then ConditionOf(db, w) else Failed(UnknownField(field))
    case Group(all, members, _) =>
      if members == [] then Failed(EmptyGroup)
      else
        var parts := CompileMembers(db, members);
        if parts.Failure? then Failed(parts.error)
        else if |parts.exprs| == 1 then Sql(parts.exprs[0])
        else Sql(if all then And(parts.exprs) else Or(parts.exprs))
  }

  datatype Parts = Parts(exprs: seq<Expr>) | Failure(error: CompileError)

  /** Every member, up to the first that fails. */
  function CompileMembers(db: Database, members: seq<Where>): (parts: Parts)
    ensures parts.Parts? ==> |parts.exprs| == |members|
    decreases members
  {
    if members == [] then Parts([])
    else
      var before := CompileMembers(db, members[..|members| - 1]);
      if before.Failure? then before
      else
        var last := CompileNode(db, members[|members| - 1]);
        if last.Failed? then Failure(last.error) else Parts(before.exprs + [last.expr])
  }

  function Joined(combined: Condition, either: bool, expr: Expr): Condition {
    if combined.Where? then Where(if either then Or([combined.expr, expr]) else And([combined.expr, expr]))
    else Where(expr)
  }

  function Compile(db: Database, ws: seq<Where>): Condition {
    if ws == [] then NoCondition
    else
      var before := Compile(db, ws[..|ws| - 1]);
      if before.Refused? then before
      else
        var (w, last) := (ws[|ws| - 1], CompileNode(db, ws[|ws| - 1]));
        if last.Failed? then Refused(last.error) else Joined(before, w.either, last.expr)
  }

  method WhereClause(db: Database, ws: seq<Where>) returns (combined: Condition)
    ensures combined == Compile(db, ws)
    decreases Size(ws), 0
  {
    combined := NoCondition;
    var i := 0;
    while i < |ws|
      invariant 0 <= i <= |ws|
      invariant combined == Compile(db, ws[..i]) && !combined.Refused?
    {
      var w := ws[i];
      MemberIsSmaller(ws, i);
      CompilePrefix(db, ws, i);
      var c;
      if w.Group? {
        if |w.members| == 0 { RefusedStays(db, ws, i + 1); return Refused(EmptyGroup); }
        var inner := CompileGroup(db, w.members);
        if inner.Failure? { RefusedStays(db, ws, i + 1); return Refused(inner.error); }
        c := if |inner.exprs| == 1 then inner.exprs[0] else if w.all then And(inner.exprs) else Or(inner.exprs);
      } else {
        if w.field !in db.cols { RefusedStays(db, ws, i + 1); return Refused(UnknownField(w.field)); }
        var one := ConditionOf(db, w);
        if one.Failed? { RefusedStays(db, ws, i + 1); return Refused(one.error); }
        c := one.expr;
      }
      combined := Joined(combined, w.either, c);
      i := i + 1;
    }
    assert ws[..|ws|] == ws;
  }

  method CompileGroup(db: Database, members: seq<Where>) returns (inner: Parts)
    ensures inner == CompileMembers(db, members)
    decreases Size(members), 1
  {
    var exprs: seq<Expr> := [];
    var i := 0;
    while i < |members|
      invariant 0 <= i <= |members| && CompileMembers(db, members[..i]) == Parts(exprs)
    {
      MemberIsSmaller(members, i);
      OneCompiled(db, members[i]);
      assert members[..i + 1][..i] == members[..i];
      var one := WhereClause(db, [members[i]]);
      if one.Refused? { FailureStays(db, members, i + 1); return Failure(one.error); }
      exprs := exprs + [one.expr];
      i := i + 1;
    }
    assert members[..|members|] == members;
    return Parts(exprs);
  }

  lemma CompilePrefix(db: Database, ws: seq<Where>, i: nat)
    requires i < |ws|
    ensures var (before, c) := (Compile(db, ws[..i]), CompileNode(db, ws[i]));
      Compile(db, ws[..i + 1])
        == if before.Refused? then before
           else if c.Failed? then Refused(c.error)
           else Joined(before, ws[i].either, c.expr)
  {
    assert ws[..i + 1][..i] == ws[..i];
  }

  lemma OneCompiled(db: Database, w: Where)
    ensures Size([w]) == NodeSize(w)
    ensures Compile(db, [w]) == (match CompileNode(db, w) case Sql(e) => Where(e) case Failed(error) => Refused(error))
  {
    assert [w][..0] == [];
  }

  lemma {:induction false} RefusedStays(db: Database, ws: seq<Where>, i: nat)
    requires i <= |ws| && Compile(db, ws[..i]).Refused?
    ensures Compile(db, ws) == Compile(db, ws[..i])
    decreases |ws|
  {
    if i == |ws| {
      assert ws[..i] == ws;
    } else {
      assert ws[..|ws| - 1][..i] == ws[..i];
      RefusedStays(db, ws[..|ws| - 1], i);
    }
  }

  lemma {:induction false} FailureStays(db: Database, members: seq<Where>, i: nat)
    requires i <= |members| && CompileMembers(db, members[..i]).Failure?
    ensures CompileMembers(db, members) == CompileMembers(db, members[..i])
    decreases |members|
  {
    if i == |members| {
      assert members[..i] == members;
    } else {
      assert members[..|members| - 1][..i] == members[..i];
      FailureStays(db, members[..|members| - 1], i);
    }
  }

  // ── What the condition means ──────────────────────────────────────────────────────────────

  /** SQL comparison: with a null on either side it is unknown. */
  predicate Compared(op: Operator, a: Value, b: Value) {
    !a.Null? && !b.Null? && if op.Eq? then a == b else if op.Ne? then a != b else Ordered(op, a, b)
  }

  /** SQL membership: unknown for a null, and where no item is equal and one is null. */
  predicate AmongItems(v: Value, values: seq<Value>, not: bool) {
    !v.Null? && if not then v !in values && Null !in values else v in values
  }

  function FoldedValue(v: Value, fold: bool): Value { if fold && v.Str? then Str(Lower(v.s)) else v }

  function Cell(row: Row, col: string): Value { if col in row then row[col] else Null }

  /** The condition is true of the row. Unknown is not true, and as conditions have no negation it need not
      be told from false. */
  predicate Holds(row: Row, e: Expr) {
    match e
    case Truth(b) => b
    case IsNull(col, not) => Cell(row, col).Null? != not
    case Compare(op, col, value, fold) => Compared(op, FoldedValue(Cell(row, col), fold), FoldedValue(value, fold))
    case Among(col, values, not) => AmongItems(Cell(row, col), values, not)
    case LikeExpr(col, pattern, fold) =>
      var v := Cell(row, col);
      v.Str? && Like(Folded(v.s, fold), Folded(pattern, fold))
    case And(parts) => forall i | 0 <= i < |parts| :: Holds(row, parts[i])
    case Or(parts) => exists i | 0 <= i < |parts| :: Holds(row, parts[i])
  }

  /** No condition selects every row. */
  predicate Selects(row: Row, c: Condition)
    requires !c.Refused?
  {
    c.NoCondition? || Holds(row, c.expr)
  }

  predicate SameType(a: Value, b: Value) { (a.Str? && b.Str?) || (a.Num? && b.Num?) || (a.Bool? && b.Bool?) }

  predicate Alike(a: Value, b: Value) { !a.Many? && !b.Many? && (a.Null? || b.Null? || SameType(a, b)) }

  /** The clause compares the cell with values of its type or with null, and a membership clause has a list.
      What SQL makes of values of different types is left to the database. */
  predicate Comparable(row: Row, w: Where)
    requires w.Clause?
  {
    var v := Cell(row, w.field);
    match w.op
    case In => w.value.Many? && !v.Many? && forall item | item in w.value.items :: Alike(v, item)
    case NotIn => w.value.Many? && !v.Many? && forall item | item in w.value.items :: Alike(v, item)
    case Contains => v.Null? || v.Str?
    case StartsWith => v.Null? || v.Str?
    case EndsWith => v.Null? || v.Str?
    case Eq => Alike(v, w.value)
    case Ne => Alike(v, w.value)
    case _ => Alike(v, w.value) && (w.field in row && v.Null? ==> !w.value.Str?)
  }

  predicate Pattern(op: Operator, s: string, v: string) {
    match op
    case Contains => Includes(s, v)
    case StartsWith => v <= s
    case EndsWith => EndsIn(s, v)
    case _ => false
  }

  /** Where the two readings of a clause part: an absent field is no null in memory but one in SQL, SQL
      answers unknown on a null that memory compares like any value, and a pattern that is not a string
      matches nothing in memory but is turned into text for SQL. */
  predicate Diverges(db: Database, row: Row, w: Where)
    requires w.Clause?
  {
    var (v, present) := (Cell(row, w.field), w.field in row);
    if w.value.Null? then !present
    else
      match w.op
      case Eq => false
      case Ne => v.Null?
      case In => present && v.Null? && Null in Items(w.value)
      case NotIn =>
        var items := Items(w.value);
        items != [] && if v.Null? then !present || Null !in items else Null in items && v !in items
      case Contains => v.Str? && !w.value.Str? && Pattern(w.op, v.s, db.text(w.value))
      case StartsWith => v.Str? && !w.value.Str? && Pattern(w.op, v.s, db.text(w.value))
      case EndsWith => v.Str? && !w.value.Str? && Pattern(w.op, v.s, db.text(w.value))
      case _ => present && v.Null? && Ordered(w.op, Null, w.value)
  }

  /** Every clause is one on which the two readings agree. */
  predicate Agreeable(db: Database, row: Row, w: Where) {
    match w
    case Clause(_, _, _, _, _) => Comparable(row, w) && !Diverges(db, row, w)
    case Group(_, members, _) => forall i | 0 <= i < |members| :: Agreeable(db, row, members[i])
  }

  predicate NoEmptyGroup(w: Where) {
    w.Group? ==> w.members != [] && forall i | 0 <= i < |w.members| :: NoEmptyGroup(w.members[i])
  }

  /** No empty group, no unknown field, and null only for equality. */
  predicate WellFormed(db: Database, w: Where) {
    match w
    case Clause(field, value, op, _, _) => field in db.cols && (value.Null? ==> op.Eq? || op.Ne?)
    case Group(_, members, _) => members != [] && forall i | 0 <= i < |members| :: WellFormed(db, members[i])
  }

  // ── When compilation fails ────────────────────────────────────────────────────────────────

  lemma {:induction false} NodeCompilesIffWellFormed(db: Database, w: Where)
    ensures CompileNode(db, w).Sql? <==> WellFormed(db, w)
    decreases w, 0
  {
    if w.Group? { MembersCompileIffWellFormed(db, w.members); }
  }

  lemma {:induction false} MembersCompileIffWellFormed(db: Database, members: seq<Where>)
    ensures CompileMembers(db, members).Parts? <==> forall i | 0 <= i < |members| :: WellFormed(db, members[i])
    decreases members
  {
    if members != [] {
      var n := |members| - 1;
      MembersCompileIffWellFormed(db, members[..n]);
      NodeCompilesIffWellFormed(db, members[n]);
      assert forall i | 0 <= i < n :: members[..n][i] == members[i];
    }
  }

  /** Compilation fails exactly on an empty group, an unknown field or a null not compared for equality. */
  lemma {:induction false} CompilesIffWellFormed(db: Database, ws: seq<Where>)
    ensures !Compile(db, ws).Refused? <==> forall i | 0 <= i < |ws| :: WellFormed(db, ws[i])
    decreases |ws|
  {
    if ws != [] {
      var n := |ws| - 1;
      CompilesIffWellFormed(db, ws[..n]);
      NodeCompilesIffWellFormed(db, ws[n]);
      assert forall i | 0 <= i < n :: ws[..n][i] == ws[i];
    }
  }

  // ── The two readings agree ────────────────────────────────────────────────────────────────

  /** The two readings of a clause agree on a row exactly when it is not one of those on which they part. */
  lemma ClauseAgreesIffNotDivergent(db: Database, row: Row, w: Where)
    requires StringsAreText(db) && w.Clause? && Comparable(row, w) && ConditionOf(db, w).Sql?
    ensures (MatchOne(row, w) <==> Holds(row, ConditionOf(db, w).expr)) <==> !Diverges(db, row, w)
  {
    if w.op.Contains? || w.op.StartsWith? || w.op.EndsWith? {
      if Cell(row, w.field).Str? { PatternHolds(db, row, w); }
    }
  }

  /** A pattern clause's condition holds exactly when the stored string has the text of its value. */
  lemma PatternHolds(db: Database, row: Row, w: Where)
    requires w.Clause? && (w.op.Contains? || w.op.StartsWith? || w.op.EndsWith?)
    requires !w.value.Null? && Cell(row, w.field).Str?
    ensures var fold := w.insensitive && w.value.Str?;
      Holds(row, ConditionOf(db, w).expr) <==>
      Pattern(w.op, Folded(Cell(row, w.field).s, fold), Folded(db.text(w.value), fold))
  {
    var (s, v, fold) := (Cell(row, w.field).s, db.text(w.value), w.insensitive && w.value.Str?);
    match w.op
    case Contains => ContainsPattern(s, v, fold);
    case StartsWith => StartsPattern(s, v, fold);
    case EndsWith => EndsPattern(s, v, fold);
  }

  lemma ContainsPattern(s: string, v: string, insensitive: bool)
    ensures Like(Folded(s, insensitive), Folded("%" + EscapeLike(v) + "%", insensitive))
        <==> Includes(Folded(s, insensitive), Folded(v, insensitive))
  {
    FoldedPattern("%", v, "%", insensitive);
    LikeContains(Folded(s, insensitive), Folded(v, insensitive));
  }

  lemma StartsPattern(s: string, v: string, insensitive: bool)
    ensures Like(Folded(s, insensitive), Folded(EscapeLike(v) + "%", insensitive))
        <==> Folded(v, insensitive) <= Folded(s, insensitive)
  {
    FoldedPattern("", v, "%", insensitive);
    assert forall x: string :: "" + x == x;
    LikeStartsWith(Folded(s, insensitive), Folded(v, insensitive));
  }

  lemma EndsPattern(s: string, v: string, insensitive: bool)
    ensures Like(Folded(s, insensitive), Folded("%" + EscapeLike(v), insensitive))
        <==> EndsIn(Folded(s, insensitive), Folded(v, insensitive))
  {
    FoldedPattern("%", v, "", insensitive);
    assert forall x: string :: x + "" == x;
    LikeEndsWith(Folded(s, insensitive), Folded(v, insensitive));
  }

  /** Folding a pattern folds the value in it. */
  lemma FoldedPattern(before: string, v: string, after: string, insensitive: bool)
    requires before in {"", "%"} && after in {"", "%"}
    ensures Folded(before + EscapeLike(v) + after, insensitive) == before + EscapeLike(Folded(v, insensitive)) + after
  {
    if insensitive {
      LowerOfConcat(before + EscapeLike(v), after);
      LowerOfConcat(before, EscapeLike(v));
      EscapeOfLower(v);
      assert Lower(before) == before && Lower(after) == after;
    }
  }

  /** A field that is absent, a null that is not equal to something, and a number as a pattern. */
  lemma DivergentClauses(db: Database)
    requires db.text(Num(5)) == "5"
    ensures var isNull := Clause("f", Null, Eq, false, false);
      !MatchOne(map[], isNull) && Holds(map[], ConditionOf(db, isNull).expr)
    ensures var isNot5 := Clause("f", Num(5), Ne, false, false);
      MatchOne(map["f" := Null], isNot5) && !Holds(map["f" := Null], ConditionOf(db, isNot5).expr)
    ensures var has5 := Clause("f", Num(5), Contains, false, false);
      !MatchOne(map["f" := Str("5")], has5) && Holds(map["f" := Str("5")], ConditionOf(db, has5).expr)
  {
    var has5 := Clause("f", Num(5), Contains, false, false);
    PatternHolds(db, map["f" := Str("5")], has5);
    assert At("5", 0, "5");
  }

  lemma {:induction false} NodeMeansTheSame(row: Row, db: Database, w: Where)
    requires StringsAreText(db) && Agreeable(db, row, w) && WellFormed(db, w)
    ensures CompileNode(db, w).Sql? && MatchNode(row, w) == Some(Holds(row, CompileNode(db, w).expr))
    decreases w, 0
  {
    NodeCompilesIffWellFormed(db, w);
    if w.Clause? {
      ClauseAgreesIffNotDivergent(db, row, w);
    } else {
      MembersMeanTheSame(row, db, w.members, w.all);
    }
  }

  /** All members hold as AND, some holds as OR, whatever is skipped. */
  lemma {:induction false} MembersMeanTheSame(row: Row, db: Database, members: seq<Where>, all: bool)
    requires StringsAreText(db)
    requires forall i | 0 <= i < |members| :: Agreeable(db, row, members[i]) && WellFormed(db, members[i])
    ensures CompileMembers(db, members).Parts?
    ensures var parts := CompileMembers(db, members).exprs;
      && (all ==> Until(row, members, false) == Some(Holds(row, And(parts))))
      && (!all ==> Until(row, members, true) == Some(Holds(row, Or(parts))))
    decreases members
  {
    MembersCompileIffWellFormed(db, members);
    var parts := CompileMembers(db, members).exprs;
    forall i | 0 <= i < |members| ensures MatchNode(row, members[i]) == Some(Holds(row, parts[i])) {
      NodeMeansTheSame(row, db, members[i]);
      PartIsCompiled(db, members, i);
    }
    UntilIsFold(row, members, !all);
    if Until(row, members, !all) == Some(!all) {
      var i :| 0 <= i < |members| && MatchNode(row, members[i]) == Some(!all);
      assert Holds(row, parts[i]) == !all;
    }
  }

  lemma {:induction false} PartIsCompiled(db: Database, members: seq<Where>, i: nat)
    requires i < |members| && CompileMembers(db, members).Parts?
    ensures CompileNode(db, members[i]) == Sql(CompileMembers(db, members).exprs[i])
    decreases |members|
  {
    var n := |members| - 1;
    if i < n { PartIsCompiled(db, members[..n], i); }
  }

  lemma {:induction false} UntilIsFold(row: Row, members: seq<Where>, stop: bool)
    requires forall i | 0 <= i < |members| :: MatchNode(row, members[i]).Some?
    ensures Until(row, members, stop) == Some(stop) || Until(row, members, stop) == Some(!stop)
    ensures Until(row, members, stop) == Some(stop) <==>
            exists i | 0 <= i < |members| :: MatchNode(row, members[i]) == Some(stop)
    decreases |members|
  {
    if members != [] {
      var rest := members[1..];
      var m := MatchNode(row, members[0]);
      assert m == Some(m.value) && (m.value == stop || m.value == !stop);
      assert forall i | 0 <= i < |rest| :: rest[i] == members[i + 1];
      UntilIsFold(row, rest, stop);
      if i :| 0 <= i < |rest| && MatchNode(row, rest[i]) == Some(stop) { assert members[i + 1] == rest[i]; }
      if i :| 0 <= i < |members| && MatchNode(row, members[i]) == Some(stop) {
        if i > 0 { assert rest[i - 1] == members[i]; }
      }
    }
  }

  /** Compiling a where tree keeps its meaning: on a row on which the two readings of each of its clauses
      agree, the SQL condition selects the row exactly when the tree matches it. */
  lemma {:induction false} CompilingKeepsMeaning(row: Row, db: Database, ws: seq<Where>)
    requires StringsAreText(db)
    requires forall i | 0 <= i < |ws| :: Agreeable(db, row, ws[i]) && WellFormed(db, ws[i])
    ensures !Compile(db, ws).Refused? && Matches(row, ws) == Some(Selects(row, Compile(db, ws)))
    decreases |ws|
  {
    CompilesIffWellFormed(db, ws);
    if ws != [] {
      var n := |ws| - 1;
      assert forall i | 0 <= i < n :: ws[..n][i] == ws[i];
      CompilingKeepsMeaning(row, db, ws[..n]);
      NodeMeansTheSame(row, db, ws[n]);
      MatchesPrefix(row, ws, n);
      assert ws[..n + 1] == ws;
      CompilesToNothingOnlyIfEmpty(db, ws[..n]);
      JoinedMeans(row, Compile(db, ws[..n]), ws[n].either, CompileNode(db, ws[n]).expr);
    }
  }

  lemma CompilesToNothingOnlyIfEmpty(db: Database, ws: seq<Where>)
    ensures Compile(db, ws).NoCondition? <==> ws == []
  {}

  lemma JoinedMeans(row: Row, before: Condition, either: bool, expr: Expr)
    requires !before.Refused?
    ensures Selects(row, Joined(before, either, expr))
        <==> if before.NoCondition? then Holds(row, expr)
             else if either then Holds(row, before.expr) || Holds(row, expr)
             else Holds(row, before.expr) && Holds(row, expr)
  {
    if before.Where? {
      var parts := [before.expr, expr];
      assert parts[0] == before.expr && parts[1] == expr;
    }
  }

  // ── Empty groups ──────────────────────────────────────────────────────────────────────────

  lemma {:induction false} NodeThrowsOnlyOnEmptyGroup(row: Row, w: Where)
    requires NoEmptyGroup(w)
    ensures MatchNode(row, w).Some?
  {
    if w.Group? {
      forall i | 0 <= i < |w.members| ensures MatchNode(row, w.members[i]).Some? {
        NodeThrowsOnlyOnEmptyGroup(row, w.members[i]);
      }
      UntilIsFold(row, w.members, !w.all);
    }
  }

  /** Evaluation in memory fails only on an empty group. */
  lemma {:induction false} ThrowsOnlyOnEmptyGroup(row: Row, ws: seq<Where>)
    requires forall i | 0 <= i < |ws| :: NoEmptyGroup(ws[i])
    ensures Matches(row, ws).Some?
    decreases |ws|
  {
    if ws != [] {
      var n := |ws| - 1;
      assert forall i | 0 <= i < n :: ws[..n][i] == ws[i];
      ThrowsOnlyOnEmptyGroup(row, ws[..n]);
      NodeThrowsOnlyOnEmptyGroup(row, ws[n]);
    }
  }

  /** Evaluation comes to an empty group: this one, or one in a member that no earlier member keeps from
      being looked at. */
  predicate Reaches(row: Row, w: Where) {
    w.Group? &&
    (w.members == [] ||
     exists i | 0 <= i < |w.members| ::
       Reaches(row, w.members[i]) && forall k | 0 <= k < i :: MatchNode(row, w.members[k]) == Some(w.all))
  }

  lemma {:induction false} NodeThrowsIffReaches(row: Row, w: Where)
    ensures MatchNode(row, w).None? <==> Reaches(row, w)
    decreases w
  {
    if w.Group? && w.members != [] {
      forall i | 0 <= i < |w.members| ensures MatchNode(row, w.members[i]).None? <==> Reaches(row, w.members[i]) {
        NodeThrowsIffReaches(row, w.members[i]);
      }
      UntilThrows(row, w.members, !w.all);
    }
  }

  /** The members in turn throw exactly when one throws and none before it stops the scan. */
  lemma {:induction false} UntilThrows(row: Row, members: seq<Where>, stop: bool)
    ensures Until(row, members, stop).None? <==>
      exists i | 0 <= i < |members| :: MatchNode(row, members[i]).None? && AllGoOn(row, members, i, stop)
    decreases |members|
  {
    if members != [] {
      var (first, rest) := (MatchNode(row, members[0]), members[1..]);
      UntilThrows(row, rest, stop);
      assert forall k | 0 <= k < |rest| :: rest[k] == members[k + 1];
      if first.None? {
        assert AllGoOn(row, members, 0, stop);
      } else if first == Some(!stop) {
        if i :| 0 <= i < |rest| && MatchNode(row, rest[i]).None? && AllGoOn(row, rest, i, stop) {
          assert AllGoOn(row, members, i + 1, stop) by {
            forall k | 0 <= k < i + 1 ensures MatchNode(row, members[k]) == Some(!stop) {
              if k > 0 { assert rest[k - 1] == members[k]; }
            }
          }
        }
        if i :| 0 <= i < |members| && MatchNode(row, members[i]).None? && AllGoOn(row, members, i, stop) {
          assert AllGoOn(row, rest, i - 1, stop);
          assert rest[i - 1] == members[i];
        }
      }
    }
  }

  predicate AllGoOn(row: Row, members: seq<Where>, n: nat, stop: bool)
    requires n <= |members|
  {
    forall k | 0 <= k < n :: MatchNode(row, members[k]) == Some(!stop)
  }

  /** Evaluation in memory fails exactly when it reaches an empty group. */
  lemma {:induction false} ThrowsIffReaches(row: Row, ws: seq<Where>)
    ensures Matches(row, ws).None? <==> exists i | 0 <= i < |ws| :: Reaches(row, ws[i])
    decreases |ws|
  {
    if ws != [] {
      var n := |ws| - 1;
      ThrowsIffReaches(row, ws[..n]);
      NodeThrowsIffReaches(row, ws[n]);
      assert forall i | 0 <= i < n :: ws[..n][i] == ws[i];
      if i :| 0 <= i < |ws| && Reaches(row, ws[i]) {
        if i < n { assert Reaches(row, ws[..n][i]); }
      }
    }
  }

  /** So an empty group after a member that decides its group goes unnoticed in memory, while compilation
      always refuses it. */
  lemma SkippedEmptyGroup(row: Row, db: Database, w: Where)
    requires w.Clause? && !MatchOne(row, w)
    ensures var ws := [Group(true, [w, Group(true, [], false)], false)];
      Matches(row, ws) == Some(false) && Compile(db, ws).Refused?
  {
    var empty := Group(true, [], false);
    var group := Group(true, [w, empty], false);
    OneNode(row, group);
    assert group.members[0] == w && group.members[1] == empty;
    assert MatchNode(row, w) == Some(false);
    assert Until(row, group.members, false) == Some(false);
    assert MatchNode(row, group) == Until(row, group.members, false);
    assert !WellFormed(db, empty);
    assert !WellFormed(db, group.members[1]);
    assert [group][0] == group;
    CompilesIffWellFormed(db, [group]);
  }
}
