/**
 * The resolved permission model, the stored tuples, and what it means for a
 * subject to hold a name on an object: a derivation, one rule at a time.
 */
module Permissions {
  import opened Std

  /** An object or a holder, told by its type, `kind`, and its id. */
  datatype Entity = Entity(kind: string, id: string)

  /** One entity, or everyone who holds `relation` on one. */
  datatype Subject = One(entity: Entity) | SetOf(entity: Entity, relation: string)

  datatype Tuple = Tuple(on: Entity, relation: string, subject: Subject)

  datatype Holder = TypeHolder(kind: string) | SetHolder(kind: string, relation: string)

  datatype Relation =
    | Stored(holders: seq<Holder>)
    | FromField(field: string, subject: string, hasLookup: bool)

  /** `test` names the condition of a `when()`. */
  datatype Rule =
    | NameRule(name: string, test: Option<nat>)
    | ArrowRule(relation: string, target: string, test: Option<nat>)

  datatype ObjectType = ObjectType(relations: map<string, Relation>, permissions: map<string, seq<Rule>>)

  type Model = map<string, ObjectType>

  /** What a loaded object's property holds: nobody, a string id, or anything else. */
  datatype Field = Null | Text(value: string) | Other

  type Row = map<string, Field>

  /** The conditions a caller's `ctx` passes. */
  type Conditions = set<nat>

  /** Everything a question is asked of: the model, the tuples, the objects' data, the `ctx`. */
  datatype World = World(types: Model, store: set<Tuple>, rows: map<Entity, Row>, ctx: Option<Conditions>)

  /** A name asked of an entity: one place on a walk. */
  datatype Node = Node(entity: Entity, name: string)

  /** A string without a NUL: the rest any store keeps. A Dafny string has no lone surrogate. */
  predicate Storable(id: string) {
    '\0' !in id
  }

  predicate Admits(holders: seq<Holder>, s: Subject) {
    exists h | h in holders ::
      match h
      case TypeHolder(kind) => s.One? && s.entity.kind == kind
      case SetHolder(kind, relation) => s.SetOf? && s.entity.kind == kind && s.relation == relation
  }

  /** What a row says of a field: the id it names, or nobody. */
  function ReadField(row: Row, field: string): Option<string> {
    if field in row && row[field].Text? && Storable(row[field].value) then Some(row[field].value) else None
  }

  function RowOf(w: World, e: Entity): Row {
    if e in w.rows then w.rows[e] else map[]
  }

  function FieldOf(w: World, e: Entity, field: string): Option<string> {
    ReadField(RowOf(w, e), field)
  }

  /** Whether a rule counts: it has no condition, or the `ctx` passes it. */
  predicate Passes(ctx: Option<Conditions>, test: Option<nat>) {
    test.None? || (ctx.Some? && test.value in ctx.value)
  }

  function Names(t: ObjectType): set<string> {
    t.relations.Keys + t.permissions.Keys
  }

  // ----- what one rule gives

  /** The node answers by itself: a tuple the model admits, or the field naming the subject. */
  ghost predicate Grants(w: World, s: Subject, n: Node) {
    n.entity.kind in w.types &&
    var t := w.types[n.entity.kind];
    n.name !in t.permissions && n.name in t.relations &&
    match t.relations[n.name]
    case FromField(field, subject, _) =>
      s.One? && s.entity.kind == subject && FieldOf(w, n.entity, field) == Some(s.entity.id)
    case Stored(holders) =>
      Admits(holders, s) && Tuple(n.entity, n.name, s) in w.store
  }

  /** A rule naming another name of the same object. */
  ghost predicate NameStep(w: World, n: Node, m: Node) {
    n.entity.kind in w.types && n.entity == m.entity &&
    var t := w.types[n.entity.kind];
    n.name in t.permissions &&
    exists rule | rule in t.permissions[n.name] ::
      rule.NameRule? && rule.name == m.name && Passes(w.ctx, rule.test)
  }

  /** The entities an arrow through `relation` reaches from `e`. */
  ghost predicate ArrowReaches(w: World, e: Entity, relation: string, to: Entity) {
    e.kind in w.types && relation in w.types[e.kind].relations &&
    match w.types[e.kind].relations[relation]
    case FromField(field, subject, _) => to.kind == subject && FieldOf(w, e, field) == Some(to.id)
    case Stored(holders) => Admits(holders, One(to)) && Tuple(e, relation, One(to)) in w.store
  }

  /** A step to another object: through an arrow, or into a subject set. */
  ghost predicate Crossing(w: World, n: Node, m: Node) {
    n.entity.kind in w.types &&
    var t := w.types[n.entity.kind];
    if n.name in t.permissions then
      exists rule | rule in t.permissions[n.name] ::
        rule.ArrowRule? && rule.target == m.name && Passes(w.ctx, rule.test) &&
        ArrowReaches(w, n.entity, rule.relation, m.entity)
    else
      n.name in t.relations && t.relations[n.name].Stored? &&
      Admits(t.relations[n.name].holders, SetOf(m.entity, m.name)) &&
      Tuple(n.entity, n.name, SetOf(m.entity, m.name)) in w.store
  }

  ghost predicate Step(w: World, n: Node, m: Node) {
    NameStep(w, n, m) || Crossing(w, n, m)
  }

  // ----- derivations

  /** A chain of nodes, each a step from the one before. */
  ghost predicate IsChain(w: World, c: seq<Node>) {
    |c| > 0 && forall i :: 0 <= i < |c| - 1 ==> Step(w, c[i], c[i + 1])
  }

  /** A chain from `n` to a node that grants: why the subject holds the name. */
  ghost predicate Derivation(w: World, s: Subject, n: Node, c: seq<Node>) {
    IsChain(w, c) && c[0] == n && Grants(w, s, c[|c| - 1])
  }

  /** **What `can()` and `list()` are both about**: a derivation exists. */
  ghost predicate Derivable(w: World, s: Subject, n: Node) {
    exists c :: Derivation(w, s, n, c)
  }

  /** A derivation of at most `k` nodes exists. */
  ghost predicate DerivableWithin(w: World, s: Subject, n: Node, k: nat) {
    exists c :: Derivation(w, s, n, c) && |c| <= k
  }

  lemma ExtendDerivation(w: World, s: Subject, n: Node, m: Node, c: seq<Node>)
    requires Step(w, n, m) && Derivation(w, s, m, c)
    ensures Derivation(w, s, n, [n] + c)
  {
  }

  /** One more step in front of what is derivable. */
  lemma StepDerivable(w: World, s: Subject, n: Node, m: Node)
    requires Step(w, n, m) && Derivable(w, s, m)
    ensures Derivable(w, s, n)
  {
    var c :| Derivation(w, s, m, c);
    ExtendDerivation(w, s, n, m, c);
  }

  lemma GrantDerivable(w: World, s: Subject, n: Node)
    requires Grants(w, s, n)
    ensures Derivable(w, s, n)
  {
    assert Derivation(w, s, n, [n]);
  }

  lemma DropFirst(w: World, s: Subject, n: Node, c: seq<Node>)
    requires Derivation(w, s, n, c) && |c| > 1
    ensures Step(w, n, c[1]) && Derivation(w, s, c[1], c[1..])
  {
  }

  /** A type the model does not declare grants nothing, however it was stored. */
  lemma UndeclaredHoldsNothing(w: World, s: Subject, n: Node)
    requires n.entity.kind !in w.types
    ensures !Derivable(w, s, n)
  {
    forall c ensures !Derivation(w, s, n, c) {
      if |c| > 1 && c[0] == n { assert !Step(w, c[0], c[1]); }
    }
  }

  // ----- derivations that keep off a path

  ghost predicate Avoids(c: seq<Node>, path: set<Node>) {
    forall i :: 0 <= i < |c| ==> c[i] !in path
  }

  /** No derivation from `n` keeps off `path`. */
  ghost predicate NoneAvoiding(w: World, s: Subject, n: Node, path: set<Node>) {
    forall c :: Derivation(w, s, n, c) ==> !Avoids(c, path)
  }

  /** The rest of a chain from the last time it meets `n`. */
  lemma {:induction false} FromLastMeeting(w: World, s: Subject, n: Node, c: seq<Node>, path: set<Node>)
    returns (d: seq<Node>)
    requires Derivation(w, s, n, c) && Avoids(c, path)
    ensures Derivation(w, s, n, d) && Avoids(d, path)
    ensures forall i :: 1 <= i < |d| ==> d[i] != n
    decreases |c|
  {
    if k :| 1 <= k < |c| && c[k] == n {
      var rest := c[k..];
      forall i | 0 <= i < |rest| - 1 ensures Step(w, rest[i], rest[i + 1]) {
        assert Step(w, c[k + i], c[k + i + 1]);
      }
      d := FromLastMeeting(w, s, n, rest, path);
    } else {
      d := c;
    }
  }

  /** A derivation keeping off `path` takes a step, and never comes back to where it began. */
  lemma WithoutReturning(w: World, s: Subject, n: Node, c: seq<Node>, path: set<Node>)
    returns (m: Node, d: seq<Node>)
    requires !Grants(w, s, n) && Derivation(w, s, n, c) && Avoids(c, path)
    ensures Step(w, n, m) && Derivation(w, s, m, d) && Avoids(d, path + {n})
  {
    var e := FromLastMeeting(w, s, n, c, path);
    DropFirst(w, s, n, e);
    m, d := e[1], e[1..];
  }

  /**
   * **Cutting a node already on the path loses nothing.** When `n` does not
   * grant, and no successor has a derivation keeping off `path` and `n`,
   * then `n` has none keeping off `path`: one through `n` twice could be cut.
   */
  lemma CutLosesNothing(w: World, s: Subject, n: Node, path: set<Node>)
    requires !Grants(w, s, n)
    requires forall m :: Step(w, n, m) ==> NoneAvoiding(w, s, m, path + {n})
    ensures NoneAvoiding(w, s, n, path)
  {
    forall c | Derivation(w, s, n, c) ensures !Avoids(c, path) {
      if Avoids(c, path) {
        var m, d := WithoutReturning(w, s, n, c, path);
      }
    }
  }

  lemma NoneAvoidingNothing(w: World, s: Subject, n: Node)
    requires NoneAvoiding(w, s, n, {})
    ensures !Derivable(w, s, n)
  {
  }

  // ----- trails: chains that count what they cross

  /** A node, and how many crossings are left to make after it. */
  datatype Hop = Hop(node: Node, left: nat)

  ghost predicate IsTrail(w: World, t: seq<Hop>) {
    |t| > 0 && t[|t| - 1].left == 0 &&
    forall i :: 0 <= i < |t| - 1 ==>
      (NameStep(w, t[i].node, t[i + 1].node) && t[i].left == t[i + 1].left) ||
      (Crossing(w, t[i].node, t[i + 1].node) && t[i].left == t[i + 1].left + 1)
  }

  /** Every node but the last is met once, and none of those is on `path`. */
  ghost predicate Simple(t: seq<Hop>, path: set<Node>) {
    (forall i :: 0 <= i < |t| - 1 ==> t[i].node !in path) &&
    (forall i, j :: 0 <= i < j < |t| - 1 ==> t[i].node != t[j].node)
  }

  /** From `n`, keeping off `path` and never turning back, `k` crossings lead to `m`. */
  ghost predicate TrailTo(w: World, n: Node, path: set<Node>, k: nat, m: Node) {
    exists t: seq<Hop> :: IsTrail(w, t) && Simple(t, path) && t[0] == Hop(n, k) && t[|t| - 1].node == m
  }

  /** From `n`, keeping off `path` and never turning back, a chain crosses `k` relations. */
  ghost predicate Crosses(w: World, n: Node, path: set<Node>, k: nat) {
    exists m :: TrailTo(w, n, path, k, m)
  }

  /** From `n`, keeping off `path` and never turning back, at most `most` crossings lead to a node that grants. */
  ghost predicate GrantsAcross(w: World, s: Subject, n: Node, path: set<Node>, most: int) {
    exists k: nat, m :: k <= most && TrailTo(w, n, path, k, m) && Grants(w, s, m)
  }

  /** A trail to a node that grants is a derivation. */
  lemma TrailDerives(w: World, s: Subject, n: Node, path: set<Node>, most: int)
    requires GrantsAcross(w, s, n, path, most)
    ensures Derivable(w, s, n)
  {
    var k: nat, m :| k <= most && TrailTo(w, n, path, k, m) && Grants(w, s, m);
    var t: seq<Hop> :| IsTrail(w, t) && Simple(t, path) && t[0] == Hop(n, k) && t[|t| - 1].node == m;
    var c := seq(|t|, i requires 0 <= i < |t| => t[i].node);
    assert Derivation(w, s, n, c);
  }

  lemma TrailHere(w: World, n: Node, path: set<Node>)
    ensures TrailTo(w, n, path, 0, n)
  {
    var t := [Hop(n, 0)];
    assert IsTrail(w, t) && Simple(t, path);
  }

  lemma TrailStep(w: World, n: Node, m: Node, path: set<Node>, k: nat, k': nat, z: Node)
    requires n !in path
    requires (NameStep(w, n, m) && k == k') || (Crossing(w, n, m) && k == k' + 1)
    requires TrailTo(w, m, path + {n}, k', z)
    ensures TrailTo(w, n, path, k, z)
  {
    var t: seq<Hop> :| IsTrail(w, t) && Simple(t, path + {n}) && t[0] == Hop(m, k') && t[|t| - 1].node == z;
    var u := [Hop(n, k)] + t;
    assert forall i :: 0 < i < |u| ==> u[i] == t[i - 1];
    assert IsTrail(w, u);
    assert Simple(u, path);
  }

  // ----- what takes no part

  /** Entities are admitted by their type, sets by their type and relation. */
  lemma AdmitsIs(holders: seq<Holder>, s: Subject)
    ensures Admits(holders, s) <==>
            (if s.One? then TypeHolder(s.entity.kind) else SetHolder(s.entity.kind, s.relation)) in holders
  {
  }

  /** A field names an id only when it holds it as text, and a store can keep it. */
  lemma ReadFieldIs(row: Row, field: string, id: string)
    ensures ReadField(row, field) == Some(id) <==> field in row && row[field] == Text(id) && '\0' !in id
  {
  }

  /** A rule counts without a condition, and under one the `ctx` passes. */
  lemma PassesIs(passed: Conditions, test: nat)
    ensures Passes(Some(passed), None) && Passes(None, None) && !Passes(None, Some(test))
    ensures Passes(Some(passed + {test}), Some(test)) && !Passes(Some(passed - {test}), Some(test))
  {
  }

  /** A tuple the model has a place for: of a stored relation of a declared type, its subject admitted. */
  predicate Placed(types: Model, t: Tuple) {
    t.on.kind in types && t.relation in types[t.on.kind].relations &&
    types[t.on.kind].relations[t.relation].Stored? && Admits(types[t.on.kind].relations[t.relation].holders, t.subject)
  }

  /** **What the model does not admit grants nothing, however it was stored**: only the tuples it places matter. */
  lemma UnplacedGrantsNothing(w: World, store': set<Tuple>, s: Subject, n: Node)
    requires forall t :: Placed(w.types, t) ==> (t in w.store <==> t in store')
    ensures Derivable(w, s, n) <==> Derivable(w.(store := store'), s, n)
  {
    var w' := w.(store := store');
    forall a, b ensures Step(w, a, b) <==> Step(w', a, b) { SameSteps(w, store', a, b); }
    forall a ensures Grants(w, s, a) <==> Grants(w', s, a) {
      assert Placed(w.types, Tuple(a.entity, a.name, s)) ==>
               (Tuple(a.entity, a.name, s) in w.store <==> Tuple(a.entity, a.name, s) in store');
    }
    hide Step, Grants;
    forall c ensures Derivation(w, s, n, c) <==> Derivation(w', s, n, c) { }
  }

  lemma SameSteps(w: World, store': set<Tuple>, a: Node, b: Node)
    requires forall t :: Placed(w.types, t) ==> (t in w.store <==> t in store')
    ensures Step(w, a, b) <==> Step(w.(store := store'), a, b)
  {
    var w' := w.(store := store');
    forall relation, to ensures ArrowReaches(w, a.entity, relation, to) <==> ArrowReaches(w', a.entity, relation, to) {
      assert Placed(w.types, Tuple(a.entity, relation, One(to))) ==>
               (Tuple(a.entity, relation, One(to)) in w.store <==> Tuple(a.entity, relation, One(to)) in store');
    }
    assert Placed(w.types, Tuple(a.entity, a.name, SetOf(b.entity, b.name))) ==>
             (Tuple(a.entity, a.name, SetOf(b.entity, b.name)) in w.store <==>
              Tuple(a.entity, a.name, SetOf(b.entity, b.name)) in store');
  }

  /** The rules that count, their conditions passed and dropped. */
  function Applied(rules: seq<Rule>, ctx: Option<Conditions>): seq<Rule> {
    if rules == [] then [] else
      (if !Passes(ctx, rules[0].test) then []
       else match rules[0]
            case NameRule(name, _) => [NameRule(name, None)]
            case ArrowRule(relation, target, _) => [ArrowRule(relation, target, None)])
      + Applied(rules[1..], ctx)
  }

  lemma {:induction false} AppliedAre(rules: seq<Rule>, ctx: Option<Conditions>, rule: Rule)
    ensures rule in Applied(rules, ctx) <==>
            rule.test.None? && exists r | r in rules :: Passes(ctx, r.test) && r.(test := None) == rule
  {
    if rules != [] { AppliedAre(rules[1..], ctx, rule); }
  }

  /** The model with each condition run on the `ctx`: a rule whose condition fails is not there. */
  function Decided(types: Model, ctx: Option<Conditions>): Model {
    map kind | kind in types ::
      ObjectType(types[kind].relations,
                 map name | name in types[kind].permissions :: Applied(types[kind].permissions[name], ctx))
  }

  /** **A condition takes its rule away or leaves it whole**, and does nothing else. */
  lemma ConditionsOnlyDecide(w: World, s: Subject, n: Node)
    ensures Derivable(w, s, n) <==> Derivable(w.(types := Decided(w.types, w.ctx), ctx := None), s, n)
  {
    var w' := w.(types := Decided(w.types, w.ctx), ctx := None);
    forall a, b ensures Step(w, a, b) <==> Step(w', a, b) { DecidedSteps(w, a, b); }
    forall a ensures Grants(w, s, a) <==> Grants(w', s, a) { }
    hide Step, Grants, Decided;
    forall c ensures Derivation(w, s, n, c) <==> Derivation(w', s, n, c) { }
  }

  lemma DecidedSteps(w: World, a: Node, b: Node)
    ensures Step(w, a, b) <==> Step(w.(types := Decided(w.types, w.ctx), ctx := None), a, b)
  {
    var w' := w.(types := Decided(w.types, w.ctx), ctx := None);
    if a.entity.kind in w.types && a.name in w.types[a.entity.kind].permissions {
      var rules := w.types[a.entity.kind].permissions[a.name];
      forall rule ensures rule in Applied(rules, w.ctx) <==>
                          rule.test.None? && exists r | r in rules :: Passes(w.ctx, r.test) && r.(test := None) == rule
      {
        AppliedAre(rules, w.ctx, rule);
      }
      forall relation ensures ArrowReaches(w, a.entity, relation, b.entity) <==>
                              ArrowReaches(w', a.entity, relation, b.entity) { }
      hide ArrowReaches, Applied;
      forall r | r in rules && Passes(w.ctx, r.test) ensures r.(test := None) in Applied(rules, w.ctx) { }
    }
  }

  // ----- what a resolved model keeps

  /** Whether `name` of `kind` reads a field of its own object, within `n` names. */
  ghost predicate ReadsWithin(types: Model, kind: string, name: string, n: nat)
    decreases n
  {
    n > 0 && kind in types &&
    var t := types[kind];
    if name in t.relations then
      t.relations[name].FromField?
    else (
      name in t.permissions &&
      exists rule | rule in t.permissions[name] ::
        match rule
        case NameRule(other, _) => ReadsWithin(types, kind, other, n - 1)
        case ArrowRule(relation, _, _) => relation in t.relations && t.relations[relation].FromField?
    )
  }

  ghost predicate ReadsField(types: Model, kind: string, name: string) {
    exists n: nat :: ReadsWithin(types, kind, name, n)
  }

  /**
   * What resolving a model refuses otherwise: a name that is a relation and a
   * permission, a subject set that names no relation, and data read from an
   * object nobody passed.
   */
  ghost predicate Resolved(types: Model) {
    forall kind | kind in types ::
      var t := types[kind];
      t.relations.Keys !! t.permissions.Keys &&
      (forall r, h | r in t.relations && t.relations[r].Stored? && h in t.relations[r].holders && h.SetHolder? ::
        h.kind in types && h.relation in types[h.kind].relations && !ReadsField(types, h.kind, h.relation)) &&
      (forall p, rule |
        p in t.permissions && rule in t.permissions[p] && rule.ArrowRule? && rule.relation in t.relations ::
        match t.relations[rule.relation]
        case FromField(_, subject, _) => !ReadsField(types, subject, rule.target)
        case Stored(holders) => forall h | h in holders :: !ReadsField(types, h.kind, rule.target))
  }

  lemma DataFreeIsStored(types: Model, kind: string, name: string)
    requires kind in types && name in types[kind].relations && !ReadsField(types, kind, name)
    ensures types[kind].relations[name].Stored?
  {
    assert !ReadsWithin(types, kind, name, 1);
  }

  lemma NameKeepsDataFree(types: Model, kind: string, name: string, rule: Rule)
    requires Resolved(types) && kind in types && name in types[kind].permissions
    requires rule in types[kind].permissions[name] && rule.NameRule?
    requires !ReadsField(types, kind, name)
    ensures !ReadsField(types, kind, rule.name)
  {
    if n: nat :| ReadsWithin(types, kind, rule.name, n) {
      assert name !in types[kind].relations;
      assert ReadsWithin(types, kind, name, n + 1);
    }
  }

  lemma ArrowKeepsDataFree(types: Model, kind: string, name: string, rule: Rule)
    requires Resolved(types) && kind in types && name in types[kind].permissions
    requires rule in types[kind].permissions[name] && rule.ArrowRule? && rule.relation in types[kind].relations
    requires !ReadsField(types, kind, name)
    ensures types[kind].relations[rule.relation].Stored?
  {
    assert name !in types[kind].relations;
    assert !ReadsWithin(types, kind, name, 1);
  }
}
