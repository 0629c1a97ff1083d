/**
 The product API's access decision. The caller's scopes and grants are rendered as a graph of levelled
 access nodes, each level's node below the next higher one, and the baseline policies ask whether the
 caller reaches the node the resource requires.

 The main result: the graph decides a plain level comparison over the rendered scope labels, which is the
 comparison of the scopes themselves whenever no label holds the separator.
 */
module AccessGraph {
  import opened Options

  datatype Level = Read | Use | Manage

  function Rank(l: Level): nat { match l case Read => 0 case Use => 1 case Manage => 2 }

  function LevelName(l: Level): string { match l case Read => "read" case Use => "use" case Manage => "manage" }

  datatype HeldScope = HeldScope(scope: string, scopeId: string, level: Level)

  datatype Grant = Grant(principalRef: string, level: Level)

  datatype Resource = Resource(
    createdBy: Option<string>, scope: Option<string>, scopeId: Option<string>, grants: seq<Grant>)

  /** An entity uid: its type and its id. */
  datatype Node = Principal(id: string) | Access(id: string) | Target(id: string)

  datatype Entity = Entity(uid: Node, parents: seq<Node>)

  /** The entities of one call and the three attributes of its resource. */
  datatype Graph = Graph(entities: seq<Entity>, createdBy: Node, requiredScope: Node, requiredGrant: Node)

  datatype Call = Call(
    action: string, level: Level, principal: Option<string>, resource: Resource, scopes: seq<HeldScope>)

  // ── Rendering ─────────────────────────────────────────────────────────────────────────────

  predicate IsSpace(c: char) {
    || c == ' ' || '\U{9}' <= c <= '\U{D}' || c == '\U{A0}' || c == '\U{1680}' || '\U{2000}' <= c <= '\U{200A}'
    || c == '\U{2028}' || c == '\U{2029}' || c == '\U{202F}' || c == '\U{205F}' || c == '\U{3000}' || c == '\U{FEFF}'
  }

  /** Empty once trimmed. */
  predicate Blank(s: string) { forall c | c in s :: IsSpace(c) }

  function ScopeBase(scope: string, scopeId: string): string { "scope:" + scope + ":" + scopeId }

  function GrantBase(m: string): string { "grant:" + m }

  function At(base: string, l: Level): Node { Access(base + ":" + LevelName(l)) }

  /** `public` reaches everyone, a principal its own grants, a held scope the grants to its label. */
  predicate GrantReaches(g: Grant, principal: string, scopes: seq<HeldScope>) {
    || g.principalRef == "public" || g.principalRef == principal
    || exists m | m in scopes :: m.scope + ":" + m.scopeId == g.principalRef
  }

  function ResourceBase(r: Resource): Option<string> {
    if r.scope.Some? && r.scopeId.Some? then Some(ScopeBase(r.scope.value, r.scopeId.value)) else None
  }

  function Below(l: Level): Option<Level> { match l case Read => None case Use => Some(Read) case Manage => Some(Use) }

  function LevelEntity(base: string, l: Level): Entity {
    Entity(At(base, l), if Below(l).Some? then [At(base, Below(l).value)] else [])
  }

  function OwnerRef(c: Call): Node {
    var r := c.resource;
    if r.createdBy.Some? && !Blank(r.createdBy.value) then Principal(r.createdBy.value) else Target(c.action)
  }

  const LEVELS := [Read, Use, Manage]

  /** A set of bases, in the order they were added. */
  function Add(bases: seq<string>, base: string): seq<string> { if base in bases then bases else bases + [base] }

  function AddHeld(bases: seq<string>, scopes: seq<HeldScope>): seq<string> {
    if scopes == [] then bases
    else
      var m := scopes[|scopes| - 1];
      Add(AddHeld(bases, scopes[..|scopes| - 1]), ScopeBase(m.scope, m.scopeId))
  }

  function Bases(c: Call): seq<string> {
    var first := [GrantBase(c.action)];
    AddHeld(if ResourceBase(c.resource).Some? then Add(first, ResourceBase(c.resource).value) else first, c.scopes)
  }

  function Chains(bases: seq<string>): seq<Entity> {
    if bases == [] then []
    else
      var base := bases[|bases| - 1];
      Chains(bases[..|bases| - 1]) +
      [LevelEntity(base, LEVELS[0]), LevelEntity(base, LEVELS[1]), LevelEntity(base, LEVELS[2])]
  }

  function HeldNodes(scopes: seq<HeldScope>): seq<Node> {
    seq(|scopes|, i requires 0 <= i < |scopes| => At(ScopeBase(scopes[i].scope, scopes[i].scopeId), scopes[i].level))
  }

  function GrantNodes(c: Call, principal: string, grants: seq<Grant>): seq<Node> {
    if grants == [] then []
    else
      var (rest, g) := (GrantNodes(c, principal, grants[..|grants| - 1]), grants[|grants| - 1]);
      if GrantReaches(g, principal, c.scopes) then rest + [At(GrantBase(c.action), g.level)] else rest
  }

  function Caller(c: Call, principal: string): Entity {
    Entity(Principal(principal), HeldNodes(c.scopes) + GrantNodes(c, principal, c.resource.grants))
  }

  function Rendered(c: Call, principal: string): Graph {
    Graph(Chains(Bases(c)) + [Caller(c, principal), Entity(Target(c.action), [])], OwnerRef(c),
          RequiredScope(c), At(GrantBase(c.action), c.level))
  }

  function RequiredScope(c: Call): Node {
    if ResourceBase(c.resource).Some? then At(ResourceBase(c.resource).value, c.level) else Target(c.action)
  }

  /** The graph of one call: a chain of levels per base, the caller with its edges, and the resource. */
  method BuildApiEntities(c: Call, principal: string) returns (graph: Graph)
    ensures graph == Rendered(c, principal)
  {
    var bases := CollectBases(c);
    var entities := RenderChains(bases);
    var parents := CollectParents(c, principal);
    entities := entities + [Entity(Principal(principal), parents), Entity(Target(c.action), [])];
    graph := Graph(entities, OwnerRef(c), RequiredScope(c), At(GrantBase(c.action), c.level));
  }

  method CollectBases(c: Call) returns (bases: seq<string>)
    ensures bases == Bases(c)
  {
    bases := [GrantBase(c.action)];
    var resourceBase := ResourceBase(c.resource);
    if resourceBase.Some? && resourceBase.value !in bases { bases := bases + [resourceBase.value]; }
    ghost var first := bases;
    var i := 0;
    while i < |c.scopes|
      invariant 0 <= i <= |c.scopes| && bases == AddHeld(first, c.scopes[..i])
    {
      assert c.scopes[..i + 1][..i] == c.scopes[..i];
      var base := ScopeBase(c.scopes[i].scope, c.scopes[i].scopeId);
      if base !in bases { bases := bases + [base]; }
      i := i + 1;
    }
    assert c.scopes[..i] == c.scopes;
  }

  method CollectParents(c: Call, principal: string) returns (parents: seq<Node>)
    ensures parents == HeldNodes(c.scopes) + GrantNodes(c, principal, c.resource.grants)
  {
    parents := [];
    var i := 0;
    while i < |c.scopes|
      invariant 0 <= i <= |c.scopes| && parents == HeldNodes(c.scopes)[..i]
    {
      parents := parents + [At(ScopeBase(c.scopes[i].scope, c.scopes[i].scopeId), c.scopes[i].level)];
      i := i + 1;
    }
    i := 0;
    while i < |c.resource.grants|
      invariant 0 <= i <= |c.resource.grants|
      invariant parents == HeldNodes(c.scopes) + GrantNodes(c, principal, c.resource.grants[..i])
    {
      assert c.resource.grants[..i + 1][..i] == c.resource.grants[..i];
      var g := c.resource.grants[i];
      if GrantReaches(g, principal, c.scopes) { parents := parents + [At(GrantBase(c.action), g.level)]; }
      i := i + 1;
    }
    assert c.resource.grants[..i] == c.resource.grants;
  }

  method RenderChains(bases: seq<string>) returns (entities: seq<Entity>)
    ensures entities == Chains(bases)
  {
    entities := [];
    var b := 0;
    while b < |bases|
      invariant 0 <= b <= |bases| && entities == Chains(bases[..b])
    {
      assert bases[..b + 1][..b] == bases[..b];
      ghost var before := entities;
      var i := 0;
      while i < |LEVELS|
        invariant 0 <= i <= 3
        invariant entities ==
          before + [LevelEntity(bases[b], Read), LevelEntity(bases[b], Use), LevelEntity(bases[b], Manage)][..i]
      {
        entities := entities + [LevelEntity(bases[b], LEVELS[i])];
        i := i + 1;
      }
      b := b + 1;
    }
    assert bases[..|bases|] == bases;
  }

  // ── Reaching a node ───────────────────────────────────────────────────────────────────────

  predicate Edge(g: Graph, a: Node, b: Node) { exists e | e in g.entities :: e.uid == a && b in e.parents }

  ghost predicate Path(g: Graph, path: seq<Node>) {
    path != [] && forall i | 0 < i < |path| :: Edge(g, path[i - 1], path[i])
  }

  /** The policies' `in`: reflexive, transitive membership along parents. */
  ghost predicate In(g: Graph, a: Node, b: Node) {
    exists path :: Path(g, path) && path[0] == a && path[|path| - 1] == b
  }

  lemma InItself(g: Graph, a: Node)
    ensures In(g, a, a)
  {
    assert Path(g, [a]) && [a][0] == a;
  }

  lemma InByEdge(g: Graph, a: Node, b: Node, c: Node)
    requires Edge(g, a, b) && In(g, b, c)
    ensures In(g, a, c)
  {
    var path :| Path(g, path) && path[0] == b && path[|path| - 1] == c;
    var longer := [a] + path;
    forall i | 0 < i < |longer| ensures Edge(g, longer[i - 1], longer[i]) {
      if i > 1 { assert Edge(g, path[i - 2], path[i - 1]); }
    }
    assert Path(g, longer) && longer[0] == a && longer[|longer| - 1] == c;
  }

  /** What is reached from a set closed under edges is in the set. */
  lemma {:induction false} ClosedSetHolds(g: Graph, inside: iset<Node>, path: seq<Node>)
    requires forall a, b | a in inside && Edge(g, a, b) :: b in inside
    requires Path(g, path) && path[0] in inside
    ensures path[|path| - 1] in inside
    decreases |path|
  {
    if |path| > 1 {
      var init := path[..|path| - 1];
      assert Path(g, init) by { assert forall i | 0 < i < |init| :: Edge(g, path[i - 1], path[i]); }
      ClosedSetHolds(g, inside, init);
      assert Edge(g, path[|path| - 2], path[|path| - 1]);
    }
  }

  // ── The edges of the rendered graph ───────────────────────────────────────────────────────

  /** A node's id names its base and its level. */
  lemma NodesAreDistinct(a: string, l: Level, b: string, m: Level)
    requires At(a, l) == At(b, m)
    ensures a == b && l == m
  {
    var (x, y) := (a + ":" + LevelName(l), b + ":" + LevelName(m));
    assert x[|x| - 1] == LevelName(l)[|LevelName(l)| - 1] && y[|y| - 1] == LevelName(m)[|LevelName(m)| - 1];
    assert x[|x| - 2] == LevelName(l)[|LevelName(l)| - 2] && y[|y| - 2] == LevelName(m)[|LevelName(m)| - 2];
    assert l == m;
    assert a == x[..|a|] && b == y[..|b|];
  }

  lemma {:induction false} ChainsHaveOnlyLevels(bases: seq<string>, e: Entity)
    requires e in Chains(bases)
    ensures exists b, l | b in bases :: e == LevelEntity(b, l)
  {
    var n := |bases| - 1;
    var (rest, b) := (Chains(bases[..n]), bases[n]);
    var last := [LevelEntity(b, LEVELS[0]), LevelEntity(b, LEVELS[1]), LevelEntity(b, LEVELS[2])];
    if e in rest {
      ChainsHaveOnlyLevels(bases[..n], e);
    } else {
      assert e in last;
      var i :| 0 <= i < 3 && last[i] == e;
      assert b in bases && e == LevelEntity(b, LEVELS[i]);
    }
  }

  lemma {:induction false} ChainsHaveAllLevels(bases: seq<string>, b: string, l: Level)
    requires b in bases
    ensures LevelEntity(b, l) in Chains(bases)
  {
    var n := |bases| - 1;
    if b == bases[n] {
      var last := [LevelEntity(b, LEVELS[0]), LevelEntity(b, LEVELS[1]), LevelEntity(b, LEVELS[2])];
      assert LEVELS[Rank(l)] == l;
      assert last[Rank(l)] == LevelEntity(b, l);
    } else {
      assert bases == bases[..n] + [bases[n]];
      ChainsHaveAllLevels(bases[..n], b, l);
    }
  }

  /** The caller is given the base at the level: by a scope it holds, or by a grant that reaches it. */
  predicate Holds(c: Call, principal: string, base: string, l: Level) {
    || (exists m | m in c.scopes :: ScopeBase(m.scope, m.scopeId) == base && m.level == l)
    || (base == GrantBase(c.action) &&
        exists g | g in c.resource.grants :: GrantReaches(g, principal, c.scopes) && g.level == l)
  }

  lemma {:induction false} GrantNodesHold(c: Call, principal: string, grants: seq<Grant>, n: Node)
    ensures n in GrantNodes(c, principal, grants)
        <==> exists g | g in grants :: GrantReaches(g, principal, c.scopes) && n == At(GrantBase(c.action), g.level)
  {
    if grants != [] {
      GrantNodesHold(c, principal, grants[..|grants| - 1], n);
      assert grants == grants[..|grants| - 1] + [grants[|grants| - 1]];
    }
  }

  lemma HeldNodesHold(scopes: seq<HeldScope>, n: Node)
    ensures n in HeldNodes(scopes) <==> exists m | m in scopes :: n == At(ScopeBase(m.scope, m.scopeId), m.level)
  {
    if m :| m in scopes && n == At(ScopeBase(m.scope, m.scopeId), m.level) {
      var i :| 0 <= i < |scopes| && scopes[i] == m;
      assert HeldNodes(scopes)[i] == n;
    }
  }

  lemma {:induction false} AddHeldHolds(bases: seq<string>, scopes: seq<HeldScope>, b: string)
    ensures b in AddHeld(bases, scopes) <==> b in bases || exists m | m in scopes :: ScopeBase(m.scope, m.scopeId) == b
  {
    if scopes != [] {
      AddHeldHolds(bases, scopes[..|scopes| - 1], b);
      assert scopes == scopes[..|scopes| - 1] + [scopes[|scopes| - 1]];
    }
  }

  lemma HeldIsABase(c: Call, principal: string, base: string, l: Level)
    requires Holds(c, principal, base, l)
    ensures base in Bases(c)
  {
    var first := [GrantBase(c.action)];
    AddHeldHolds(
      if ResourceBase(c.resource).Some? then Add(first, ResourceBase(c.resource).value) else first, c.scopes, base);
    assert GrantBase(c.action) == first[0];
  }

  lemma EntitiesOf(c: Call, principal: string, e: Entity)
    ensures e in Rendered(c, principal).entities
        <==> e in Chains(Bases(c)) || e == Caller(c, principal) || e == Entity(Target(c.action), [])
  {}

  lemma CallerParents(c: Call, principal: string, b: Node)
    ensures b in Caller(c, principal).parents <==> exists base, l :: Holds(c, principal, base, l) && b == At(base, l)
  {
    HeldNodesHold(c.scopes, b);
    GrantNodesHold(c, principal, c.resource.grants, b);
    if b in HeldNodes(c.scopes) {
      var m :| m in c.scopes && b == At(ScopeBase(m.scope, m.scopeId), m.level);
      assert Holds(c, principal, ScopeBase(m.scope, m.scopeId), m.level);
    } else if b in GrantNodes(c, principal, c.resource.grants) {
      var g :| g in c.resource.grants && GrantReaches(g, principal, c.scopes) && b == At(GrantBase(c.action), g.level);
      assert Holds(c, principal, GrantBase(c.action), g.level);
    }
  }

  lemma CallerEdges(c: Call, principal: string, b: Node)
    ensures Edge(Rendered(c, principal), Principal(principal), b) <==> b in Caller(c, principal).parents
  {
    var g := Rendered(c, principal);
    EntitiesOf(c, principal, Caller(c, principal));
    if e :| e in g.entities && e.uid == Principal(principal) && b in e.parents {
      EntitiesOf(c, principal, e);
      if e in Chains(Bases(c)) { ChainsHaveOnlyLevels(Bases(c), e); }
    }
  }

  lemma EdgesGoOneDown(c: Call, principal: string, base: string, l: Level, b: Node)
    requires Edge(Rendered(c, principal), At(base, l), b)
    ensures Below(l).Some? && b == At(base, Below(l).value)
  {
    var g := Rendered(c, principal);
    var e :| e in g.entities && e.uid == At(base, l) && b in e.parents;
    EntitiesOf(c, principal, e);
    ChainsHaveOnlyLevels(Bases(c), e);
    var x, y :| x in Bases(c) && e == LevelEntity(x, y);
    NodesAreDistinct(base, l, x, y);
  }

  lemma EveryLevelHasItsEdge(c: Call, principal: string, base: string, l: Level)
    requires base in Bases(c) && Below(l).Some?
    ensures Edge(Rendered(c, principal), At(base, l), At(base, Below(l).value))
  {
    ChainsHaveAllLevels(Bases(c), base, l);
    EntitiesOf(c, principal, LevelEntity(base, l));
  }

  // ── What the graph decides ────────────────────────────────────────────────────────────────

  /** The caller, and every level at or below one it is given. */
  ghost function Reached(c: Call, principal: string): iset<Node> {
    iset n | n == Principal(principal) || IsGiven(c, principal, n)
  }

  ghost predicate IsGiven(c: Call, principal: string, n: Node) {
    exists base, h, l :: Holds(c, principal, base, h) && Rank(l) <= Rank(h) && n == At(base, l)
  }

  lemma IsGivenAt(c: Call, principal: string, base: string, h: Level, l: Level, n: Node)
    requires Holds(c, principal, base, h) && Rank(l) <= Rank(h) && n == At(base, l)
    ensures IsGiven(c, principal, n)
  {}

  lemma GivenFromCaller(c: Call, principal: string, b: Node)
    requires Edge(Rendered(c, principal), Principal(principal), b)
    ensures IsGiven(c, principal, b)
  {
    CallerEdges(c, principal, b);
    CallerParents(c, principal, b);
    var base, l :| Holds(c, principal, base, l) && b == At(base, l);
    IsGivenAt(c, principal, base, l, l, b);
  }

  lemma GivenGoesDown(c: Call, principal: string, a: Node, b: Node)
    requires IsGiven(c, principal, a) && Edge(Rendered(c, principal), a, b)
    ensures IsGiven(c, principal, b)
  {
    var base, h, l :| Holds(c, principal, base, h) && Rank(l) <= Rank(h) && a == At(base, l);
    GoesOneDown(c, principal, base, h, l, b);
  }

  lemma GoesOneDown(c: Call, principal: string, base: string, h: Level, l: Level, b: Node)
    requires Holds(c, principal, base, h) && Rank(l) <= Rank(h) && Edge(Rendered(c, principal), At(base, l), b)
    ensures IsGiven(c, principal, b)
  {
    EdgesGoOneDown(c, principal, base, l, b);
    IsGivenAt(c, principal, base, h, Below(l).value, b);
  }

  lemma ReachedIsClosed(c: Call, principal: string, a: Node, b: Node)
    requires a in Reached(c, principal) && Edge(Rendered(c, principal), a, b)
    ensures b in Reached(c, principal)
  {
    if a == Principal(principal) { GivenFromCaller(c, principal, b); } else { GivenGoesDown(c, principal, a, b); }
  }

  lemma {:induction false} HigherReachesLower(c: Call, principal: string, base: string, h: Level, l: Level)
    requires base in Bases(c) && Rank(l) <= Rank(h)
    ensures In(Rendered(c, principal), At(base, h), At(base, l))
    decreases Rank(h)
  {
    if l == h {
      InItself(Rendered(c, principal), At(base, l));
    } else {
      var next := Below(h).value;
      EveryLevelHasItsEdge(c, principal, base, h);
      HigherReachesLower(c, principal, base, next, l);
      InByEdge(Rendered(c, principal), At(base, h), At(base, next), At(base, l));
    }
  }

  /** The caller reaches a base's level exactly when it is given that base at that level or a higher one. */
  lemma CallerReaches(c: Call, principal: string, base: string, l: Level)
    ensures In(Rendered(c, principal), Principal(principal), At(base, l))
        <==> exists h :: Holds(c, principal, base, h) && Rank(l) <= Rank(h)
  {
    var g := Rendered(c, principal);
    if In(g, Principal(principal), At(base, l)) {
      ReachedOnly(c, principal, At(base, l));
      var x, h, y :| Holds(c, principal, x, h) && Rank(y) <= Rank(h) && At(base, l) == At(x, y);
      NodesAreDistinct(base, l, x, y);
    }
    if h :| Holds(c, principal, base, h) && Rank(l) <= Rank(h) {
      HeldIsABase(c, principal, base, h);
      HigherReachesLower(c, principal, base, h, l);
      CallerEdges(c, principal, At(base, h));
      CallerParents(c, principal, At(base, h));
      InByEdge(g, Principal(principal), At(base, h), At(base, l));
    }
  }

  lemma ReachedOnly(c: Call, principal: string, n: Node)
    requires In(Rendered(c, principal), Principal(principal), n)
    ensures n in Reached(c, principal)
  {
    var g := Rendered(c, principal);
    var path :| Path(g, path) && path[0] == Principal(principal) && path[|path| - 1] == n;
    forall a, b | a in Reached(c, principal) && Edge(g, a, b) ensures b in Reached(c, principal) {
      ReachedIsClosed(c, principal, a, b);
    }
    ClosedSetHolds(g, Reached(c, principal), path);
  }

  /** The owner, scope-member and grant policies of the baseline. */
  ghost predicate Permits(g: Graph, principal: string) {
    || g.createdBy == Principal(principal)
    || In(g, Principal(principal), g.requiredScope)
    || In(g, Principal(principal), g.requiredGrant)
  }

  /** The decision: the actor floor first, then the baseline; a create is permitted to any caller. */
  ghost predicate Decide(c: Call, creates: bool) {
    && c.principal.Some? && !Blank(c.principal.value)
    && (creates || Permits(Rendered(c, c.principal.value), c.principal.value))
  }

  predicate ByOwner(c: Call) { c.resource.createdBy == c.principal }

  /** A held scope renders to the resource's base. */
  predicate Renders(m: HeldScope, r: Resource) { ResourceBase(r) == Some(ScopeBase(m.scope, m.scopeId)) }

  predicate ByRenderedScope(c: Call) {
    exists m | m in c.scopes :: Renders(m, c.resource) && Rank(c.level) <= Rank(m.level)
  }

  predicate ByGrant(c: Call)
    requires c.principal.Some?
  {
    exists g | g in c.resource.grants :: GrantReaches(g, c.principal.value, c.scopes) && Rank(c.level) <= Rank(g.level)
  }

  /** For any labels, the graph decides the level comparison over the rendered scopes. */
  lemma GraphDecidesRenderedRule(c: Call)
    ensures Decide(c, false) <==>
      && c.principal.Some? && !Blank(c.principal.value)
      && (ByOwner(c) || ByRenderedScope(c) || ByGrant(c))
  {
    if c.principal.Some? && !Blank(c.principal.value) {
      var p := c.principal.value;
      GrantDecides(c, p);
      ScopeDecides(c, p);
    }
  }

  lemma GrantDecides(c: Call, p: string)
    requires c.principal == Some(p)
    ensures In(Rendered(c, p), Principal(p), At(GrantBase(c.action), c.level)) <==> ByGrant(c)
  {
    var base := GrantBase(c.action);
    CallerReaches(c, p, base, c.level);
    forall m | m in c.scopes ensures ScopeBase(m.scope, m.scopeId) != base { assert base[0] == 'g'; }
    if g :| g in c.resource.grants && GrantReaches(g, p, c.scopes) && Rank(c.level) <= Rank(g.level) {
      assert Holds(c, p, base, g.level);
    }
  }

  lemma ScopeDecides(c: Call, p: string)
    ensures In(Rendered(c, p), Principal(p), RequiredScope(c)) <==> ByRenderedScope(c)
  {
    var base := ResourceBase(c.resource);
    if base.Some? {
      CallerReaches(c, p, base.value, c.level);
      assert base.value[0] == 's' && GrantBase(c.action)[0] == 'g';
      if m :| m in c.scopes && Renders(m, c.resource) && Rank(c.level) <= Rank(m.level) {
        assert Holds(c, p, base.value, m.level);
      }
    } else if In(Rendered(c, p), Principal(p), RequiredScope(c)) {
      ReachedOnly(c, p, RequiredScope(c));
    }
  }

  // ── Labels without the separator ──────────────────────────────────────────────────────────

  /** The caller holds the very scope of the resource. */
  predicate IsScopeOf(m: HeldScope, r: Resource) { r.scope == Some(m.scope) && r.scopeId == Some(m.scopeId) }

  predicate ByScope(c: Call) { exists m | m in c.scopes :: IsScopeOf(m, c.resource) && Rank(c.level) <= Rank(m.level) }

  /** The plain rule: a present principal that owns the resource, holds its scope at the required level or
      above, or is reached by a grant at the required level or above. */
  predicate Rule(c: Call) {
    c.principal.Some? && !Blank(c.principal.value) && (ByOwner(c) || ByScope(c) || ByGrant(c))
  }

  predicate SeparatorFree(c: Call) {
    && (c.resource.scope.Some? ==> ':' !in c.resource.scope.value)
    && forall m | m in c.scopes :: ':' !in m.scope
  }

  lemma LabelsSplitAtFirstColon(a: string, x: string, b: string, y: string)
    requires ':' !in a && ':' !in b && ScopeBase(a, x) == ScopeBase(b, y)
    ensures a == b && x == y
  {
    var (s, t) := (a + ":" + x, b + ":" + y);
    assert ScopeBase(a, x) == "scope:" + s && ScopeBase(b, y) == "scope:" + t;
    assert s == ScopeBase(a, x)[6..] && t == ScopeBase(b, y)[6..];
    assert s[|a|] == ':' && t[|b|] == ':';
    assert forall i | 0 <= i < |a| :: s[i] == a[i] && s[i] != ':';
    assert forall i | 0 <= i < |b| :: t[i] == b[i] && t[i] != ':';
    assert |a| == |b|;
    assert a == s[..|a|] && b == t[..|b|] && x == s[|a| + 1..] && y == t[|b| + 1..];
  }

  lemma RendersIffIsScopeOf(c: Call, m: HeldScope)
    requires SeparatorFree(c) && m in c.scopes
    ensures Renders(m, c.resource) <==> IsScopeOf(m, c.resource)
  {
    if Renders(m, c.resource) {
      LabelsSplitAtFirstColon(m.scope, m.scopeId, c.resource.scope.value, c.resource.scopeId.value);
    }
  }

  /** With scope labels free of the separator, the graph decides exactly the plain rule. */
  lemma GraphDecidesRule(c: Call)
    requires SeparatorFree(c)
    ensures Decide(c, false) <==> Rule(c)
  {
    GraphDecidesRenderedRule(c);
    forall m | m in c.scopes ensures Renders(m, c.resource) <==> IsScopeOf(m, c.resource) {
      RendersIffIsScopeOf(c, m);
    }
  }

  /** A scope that is not the resource's but renders to the same label. */
  predicate Collides(m: HeldScope, r: Resource) { Renders(m, r) && !IsScopeOf(m, r) }

  /** For any labels, the decision is the plain rule exactly when the rule already permits, the caller is
      absent, or no held scope collides with the resource's at the required level. */
  lemma RuleUnlessCollision(c: Call)
    ensures (Decide(c, false) <==> Rule(c)) <==>
      || Rule(c) || c.principal.None? || Blank(c.principal.value)
      || !exists m | m in c.scopes :: Collides(m, c.resource) && Rank(c.level) <= Rank(m.level)
  {
    GraphDecidesRenderedRule(c);
    forall m | m in c.scopes ensures IsScopeOf(m, c.resource) ==> Renders(m, c.resource) {}
  }

  lemma LabelsCanMeet()
    ensures ScopeBase("a", "b:c") == ScopeBase("a:b", "c")
  {
    assert ScopeBase("a", "b:c") == "scope:a:b:c" == ScopeBase("a:b", "c");
  }

  /** With the separator in a label, a scope that is not the resource's can open it. */
  lemma SeparatorCollides(c: Call, m: HeldScope)
    requires c.principal.Some? && !Blank(c.principal.value)
    requires c.resource == Resource(None, Some("a"), Some("b:c"), [])
    requires m == HeldScope("a:b", "c", c.level) && c.scopes == [m]
    ensures Decide(c, false) && !Rule(c)
  {
    LabelsCanMeet();
    assert m in c.scopes && Renders(m, c.resource);
    GraphDecidesRenderedRule(c);
    assert |m.scope| == 3 && !IsScopeOf(m, c.resource);
  }
}
