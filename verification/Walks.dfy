/** `can()`: a depth-first walk down an object's rules, in search of the subject. */
module Walks {
  import opened Std
  import opened Permissions

  /** What a question throws instead of answering. */
  datatype Error = PermissionDepth | NoContext | FieldUnreadable | NoLookup

  datatype Answer = Granted | Denied | Threw(error: Error)

  /** The names of an entity a walk can still go into. */
  function NamesLeft(types: Model, e: Entity, path: set<Node>): set<string> {
    if e.kind !in types then {} else
      set name | name in Names(types[e.kind]) && Node(e, name) !in path
  }

  /** A permission one of whose rules is under a condition. */
  ghost predicate MeetsCondition(types: Model, n: Node) {
    n.entity.kind in types && n.name in types[n.entity.kind].permissions &&
    exists rule | rule in types[n.entity.kind].permissions[n.name] :: rule.test.Some?
  }

  /** A field one of the type's relations reads is missing, or is not an id. */
  ghost predicate Unreadable(w: World, e: Entity) {
    e.kind in w.types &&
    exists r | r in w.types[e.kind].relations ::
      var def := w.types[e.kind].relations[r];
      def.FromField? && (def.field !in RowOf(w, e) || RowOf(w, e)[def.field].Other?)
  }

  /** A field that cannot be read: it is missing, or holds anything but an id or nobody. */
  predicate Unread(row: Row, field: string) {
    field !in row || row[field].Other?
  }

  /** A field names an id, or nobody when it is null or no store keeps its text; otherwise it cannot be read. */
  function FieldRead(data: Option<Row>, field: string): (r: Result<Option<string>, Error>)
    ensures r.Err? <==> data.None? || Unread(data.value, field)
    ensures r.Ok? ==> r.value == ReadField(data.value, field)
    ensures r.Err? ==> r.error == FieldUnreadable
  {
    if data.None? || field !in data.value || data.value[field].Other? then Err(FieldUnreadable)
    else if data.value[field].Null? || !Storable(data.value[field].value) then Ok(None)
    else Ok(Some(data.value[field].value))
  }

  function FindSubjectSets(store: set<Tuple>, e: Entity, relation: string): set<Subject> {
    set t | t in store && t.on == e && t.relation == relation && t.subject.SetOf? :: t.subject
  }

  function FindEntities(store: set<Tuple>, e: Entity, relation: string): set<Entity> {
    set t | t in store && t.on == e && t.relation == relation && t.subject.One? :: t.subject.entity
  }

  // ----- what throws on the way

  /** What a rule throws where it is come to: a condition without a `ctx`, an arrow through a field not to be read. */
  function RuleFault(w: World, e: Entity, rule: Rule): Option<Error> {
    if rule.test.Some? && w.ctx.None? then Some(NoContext)
    else if Passes(w.ctx, rule.test) && rule.ArrowRule? && ThroughUnread(w, e, rule.relation) then Some(FieldUnreadable)
    else None
  }

  predicate ThroughUnread(w: World, e: Entity, relation: string) {
    e.kind in w.types && relation in w.types[e.kind].relations && w.types[e.kind].relations[relation].FromField? &&
    Unread(RowOf(w, e), w.types[e.kind].relations[relation].field)
  }

  /** Some rule of this name throws where it is come to, or its own field does. */
  ghost predicate Faulty(w: World, n: Node) {
    n.entity.kind in w.types &&
    var t := w.types[n.entity.kind];
    if n.name in t.permissions then exists rule | rule in t.permissions[n.name] :: RuleFault(w, n.entity, rule).Some?
    else ThroughUnread(w, n.entity, n.name)
  }

  // ----- what the answers mean

  /**
   * Nothing comes of asking `n` at `depth` with `path` on the walk, **whichever
   * way the walk turns**: no derivation keeps off the path, no chain crosses
   * more relations than are left, and none comes to what throws.
   */
  ghost predicate Quiet(w: World, maxDepth: nat, s: Subject, n: Node, depth: nat, path: set<Node>) {
    && depth <= maxDepth
    && NoneAvoiding(w, s, n, path)
    && !Crosses(w, n, path, maxDepth + 1 - depth)
    && !MeetsFault(w, n, path, maxDepth - depth)
  }

  ghost predicate MeetsFault(w: World, n: Node, path: set<Node>, most: nat) {
    exists k: nat, m :: k <= most && TrailTo(w, n, path, k, m) && m !in path && Faulty(w, m)
  }

  /** A rule that was tried and gave nothing. */
  ghost predicate RuleQuiet(w: World, maxDepth: nat, s: Subject, e: Entity, rule: Rule, depth: nat, path: set<Node>) {
    RuleFault(w, e, rule).None? &&
    (Passes(w.ctx, rule.test) ==>
       match rule
       case NameRule(name, _) => Quiet(w, maxDepth, s, Node(e, name), depth, path)
       case ArrowRule(relation, target, _) =>
         forall to :: ArrowReaches(w, e, relation, to) ==> Quiet(w, maxDepth, s, Node(to, target), depth + 1, path))
  }

  /** Where a rule leads, and how many relations deep. */
  ghost predicate RuleTurns(w: World, e: Entity, rule: Rule, m: Node, depth: nat, depth': nat) {
    RuleFault(w, e, rule).None? && Passes(w.ctx, rule.test) &&
    match rule
    case NameRule(name, _) => m == Node(e, name) && depth' == depth
    case ArrowRule(relation, target, _) =>
      m.name == target && ArrowReaches(w, e, relation, m.entity) && depth' == depth + 1
  }

  /** All the rules before the `j`-th were tried and gave nothing. */
  ghost predicate QuietBefore(w: World, maxDepth: nat, s: Subject, n: Node, j: nat, depth: nat, path: set<Node>)
    requires n.entity.kind in w.types && n.name in w.types[n.entity.kind].permissions
    requires j <= |w.types[n.entity.kind].permissions[n.name]|
  {
    forall k :: 0 <= k < j ==>
      RuleQuiet(w, maxDepth, s, n.entity, w.types[n.entity.kind].permissions[n.name][k], depth, path + {n})
  }

  /**
   * From `n` the walk goes to `m`: by the first rule that gave something, all
   * before it having given nothing; or into a subject set, no tuple naming
   * the subject itself.
   */
  ghost predicate Turns(w: World, maxDepth: nat, s: Subject, n: Node, m: Node, depth: nat, depth': nat,
                        path: set<Node>) {
    n !in path && depth <= maxDepth && n.entity.kind in w.types &&
    var t := w.types[n.entity.kind];
    if n.name in t.permissions then
      exists j: nat :: j < |t.permissions[n.name]| &&
        RuleTurns(w, n.entity, t.permissions[n.name][j], m, depth, depth') &&
        QuietBefore(w, maxDepth, s, n, j, depth, path)
    else
      !Grants(w, s, n) && Crossing(w, n, m) && depth' == depth + 1
  }

  /** The walk ends at `n` with this answer: all the rules before the one that throws gave nothing. */
  ghost predicate Ends(w: World, maxDepth: nat, s: Subject, n: Node, depth: nat, path: set<Node>, r: Answer) {
    match r
    case Granted => depth <= maxDepth && n !in path && Grants(w, s, n)
    case Threw(PermissionDepth) => depth == maxDepth + 1
    case Threw(NoLookup) => false
    case Threw(error) =>
      depth <= maxDepth && n !in path && n.entity.kind in w.types &&
      var t := w.types[n.entity.kind];
      if n.name in t.permissions then
        exists j: nat :: j < |t.permissions[n.name]| &&
          RuleFault(w, n.entity, t.permissions[n.name][j]) == Some(error) &&
          QuietBefore(w, maxDepth, s, n, j, depth, path)
      else
        error == FieldUnreadable && ThroughUnread(w, n.entity, n.name)
    case Denied => false
  }

  /** The way the walk took to this answer. */
  ghost predicate Comes(w: World, maxDepth: nat, s: Subject, c: seq<Node>, depth: nat, path: set<Node>, r: Answer)
    decreases |c|
  {
    c != [] &&
    if |c| == 1 then Ends(w, maxDepth, s, c[0], depth, path, r)
    else
      (Turns(w, maxDepth, s, c[0], c[1], depth, depth, path) &&
       Comes(w, maxDepth, s, c[1..], depth, path + {c[0]}, r)) ||
      (Turns(w, maxDepth, s, c[0], c[1], depth, depth + 1, path) &&
       Comes(w, maxDepth, s, c[1..], depth + 1, path + {c[0]}, r))
  }

  /** **An answer other than a denial comes of a way the walk took**, what was tried before each turn giving nothing. */
  ghost predicate ComesOf(w: World, maxDepth: nat, s: Subject, n: Node, depth: nat, path: set<Node>, r: Answer) {
    exists c :: c != [] && c[0] == n && Comes(w, maxDepth, s, c, depth, path, r)
  }

  ghost predicate Means(w: World, maxDepth: nat, s: Subject, n: Node, depth: nat, path: set<Node>, r: Answer) {
    if r == Denied then Quiet(w, maxDepth, s, n, depth, path) else ComesOf(w, maxDepth, s, n, depth, path, r)
  }

  lemma TooDeepAtOnce(w: World, maxDepth: nat, s: Subject, n: Node, path: set<Node>)
    ensures ComesOf(w, maxDepth, s, n, maxDepth + 1, path, Threw(PermissionDepth))
  {
    ComesAtOnce(w, maxDepth, s, n, maxDepth + 1, path, Threw(PermissionDepth));
  }

  lemma ComesAtOnce(w: World, maxDepth: nat, s: Subject, n: Node, depth: nat, path: set<Node>, r: Answer)
    requires Ends(w, maxDepth, s, n, depth, path, r)
    ensures ComesOf(w, maxDepth, s, n, depth, path, r)
  {
    assert Comes(w, maxDepth, s, [n], depth, path, r);
  }

  /** An answer other than a denial, one turn on, is the answer here. */
  lemma ComesBefore(w: World, maxDepth: nat, s: Subject, n: Node, m: Node, depth: nat, depth': nat, path: set<Node>,
                    r: Answer)
    requires Turns(w, maxDepth, s, n, m, depth, depth', path) && depth <= depth' <= depth + 1
    requires ComesOf(w, maxDepth, s, m, depth', path + {n}, r)
    ensures ComesOf(w, maxDepth, s, n, depth, path, r)
  {
    hide Turns, Ends;
    var c :| c != [] && c[0] == m && Comes(w, maxDepth, s, c, depth', path + {n}, r);
    var d := [n] + c;
    assert d[1..] == c;
    assert Comes(w, maxDepth, s, d, depth, path, r);
  }

  lemma TurnIsStep(w: World, maxDepth: nat, s: Subject, n: Node, m: Node, depth: nat, depth': nat, path: set<Node>)
    requires Turns(w, maxDepth, s, n, m, depth, depth', path)
    ensures n !in path && depth <= maxDepth
    ensures (NameStep(w, n, m) && depth' == depth) || (Crossing(w, n, m) && depth' == depth + 1)
  {
    hide QuietBefore;
  }

  /** What an answer other than a denial has crossed, and what it has come to. */
  ghost predicate Crossed(w: World, maxDepth: nat, s: Subject, n: Node, depth: nat, path: set<Node>, r: Answer) {
    match r
    case Granted => GrantsAcross(w, s, n, path, maxDepth - depth)
    case Threw(PermissionDepth) => depth <= maxDepth + 1 && Crosses(w, n, path, maxDepth + 1 - depth)
    case Threw(NoContext) =>
      w.ctx.None? && exists k: nat, m ::
        k <= maxDepth - depth && TrailTo(w, n, path, k, m) && m !in path && Faulty(w, m) && MeetsCondition(w.types, m)
    case Threw(FieldUnreadable) =>
      exists k: nat, m :: k <= maxDepth - depth && TrailTo(w, n, path, k, m) && m !in path && Faulty(w, m)
    case _ => false
  }

  lemma CrossedBefore(w: World, maxDepth: nat, s: Subject, n: Node, m: Node, depth: nat, depth': nat,
                      path: set<Node>, r: Answer)
    requires depth <= maxDepth && n !in path
    requires (NameStep(w, n, m) && depth' == depth) || (Crossing(w, n, m) && depth' == depth + 1)
    requires Crossed(w, maxDepth, s, m, depth', path + {n}, r)
    ensures Crossed(w, maxDepth, s, n, depth, path, r)
  {
    hide NameStep, Crossing, TrailTo, Faulty, MeetsCondition;
    match r
    case Granted =>
      var k: nat, z :| k <= maxDepth - depth' && TrailTo(w, m, path + {n}, k, z) && Grants(w, s, z);
      TrailStep(w, n, m, path, k + depth' - depth, k, z);
    case Threw(PermissionDepth) =>
      var z :| TrailTo(w, m, path + {n}, maxDepth + 1 - depth', z);
      TrailStep(w, n, m, path, maxDepth + 1 - depth, maxDepth + 1 - depth', z);
    case Threw(NoContext) =>
      var k: nat, z :| k <= maxDepth - depth' && TrailTo(w, m, path + {n}, k, z) && z !in path + {n} &&
        Faulty(w, z) && MeetsCondition(w.types, z);
      TrailStep(w, n, m, path, k + depth' - depth, k, z);
    case Threw(FieldUnreadable) =>
      var k: nat, z :| k <= maxDepth - depth' && TrailTo(w, m, path + {n}, k, z) && z !in path + {n} && Faulty(w, z);
      TrailStep(w, n, m, path, k + depth' - depth, k, z);
  }

  lemma EndCrosses(w: World, maxDepth: nat, s: Subject, n: Node, depth: nat, path: set<Node>, r: Answer)
    requires Ends(w, maxDepth, s, n, depth, path, r)
    ensures Crossed(w, maxDepth, s, n, depth, path, r)
  {
    hide QuietBefore;
    TrailHere(w, n, path);
  }

  lemma {:induction false} ComesAcross(w: World, maxDepth: nat, s: Subject, c: seq<Node>, depth: nat, path: set<Node>,
                                       r: Answer)
    requires Comes(w, maxDepth, s, c, depth, path, r)
    ensures Crossed(w, maxDepth, s, c[0], depth, path, r)
    decreases |c|
  {
    hide Turns, Ends, Crossed;
    if |c| == 1 {
      EndCrosses(w, maxDepth, s, c[0], depth, path, r);
    } else if Turns(w, maxDepth, s, c[0], c[1], depth, depth, path) &&
              Comes(w, maxDepth, s, c[1..], depth, path + {c[0]}, r) {
      TurnIsStep(w, maxDepth, s, c[0], c[1], depth, depth, path);
      ComesAcross(w, maxDepth, s, c[1..], depth, path + {c[0]}, r);
      CrossedBefore(w, maxDepth, s, c[0], c[1], depth, depth, path, r);
    } else {
      TurnIsStep(w, maxDepth, s, c[0], c[1], depth, depth + 1, path);
      ComesAcross(w, maxDepth, s, c[1..], depth + 1, path + {c[0]}, r);
      CrossedBefore(w, maxDepth, s, c[0], c[1], depth, depth + 1, path, r);
    }
  }

  // ----- a denial tried everything

  /** Every way on from `n` gave nothing. */
  ghost predicate AllQuiet(w: World, maxDepth: nat, s: Subject, n: Node, depth: nat, path: set<Node>) {
    && !Grants(w, s, n) && !Faulty(w, n)
    && (forall m :: NameStep(w, n, m) ==> Quiet(w, maxDepth, s, m, depth, path))
    && (forall m :: Crossing(w, n, m) ==> Quiet(w, maxDepth, s, m, depth + 1, path))
  }

  /** A trail from `n` is `n` itself, or goes on from a step. */
  lemma TrailGoesOn(w: World, n: Node, path: set<Node>, k: nat, z: Node) returns (m: Node, k': nat)
    requires TrailTo(w, n, path, k, z) && !(k == 0 && z == n)
    ensures n !in path && TrailTo(w, m, path + {n}, k', z)
    ensures (NameStep(w, n, m) && k == k') || (Crossing(w, n, m) && k == k' + 1)
  {
    hide NameStep, Crossing;
    var t: seq<Hop> :| IsTrail(w, t) && Simple(t, path) && t[0] == Hop(n, k) && t[|t| - 1].node == z;
    var rest := t[1..];
    assert forall i :: 0 <= i < |rest| ==> rest[i] == t[i + 1];
    m, k' := rest[0].node, rest[0].left;
    assert IsTrail(w, rest) && Simple(rest, path + {n});
  }

  /** Where every way on gave nothing, nothing comes of it: any trail is the node itself, or goes on from a step. */
  lemma QuietFrom(w: World, maxDepth: nat, s: Subject, n: Node, depth: nat, path: set<Node>)
    requires n !in path && depth <= maxDepth && AllQuiet(w, maxDepth, s, n, depth, path + {n})
    ensures Quiet(w, maxDepth, s, n, depth, path)
  {
    hide TrailTo, NameStep, Crossing, Grants, Faulty, NoneAvoiding;
    forall m | Step(w, n, m) ensures NoneAvoiding(w, s, m, path + {n}) { }
    CutLosesNothing(w, s, n, path);
    if Crosses(w, n, path, maxDepth + 1 - depth) {
      var z :| TrailTo(w, n, path, maxDepth + 1 - depth, z);
      var m, k := TrailGoesOn(w, n, path, maxDepth + 1 - depth, z);
    }
    if MeetsFault(w, n, path, maxDepth - depth) {
      var k: nat, z :| k <= maxDepth - depth && TrailTo(w, n, path, k, z) && z !in path && Faulty(w, z);
      var m, k' := TrailGoesOn(w, n, path, k, z);
    }
  }

  /** Nothing comes of a node met again. */
  lemma QuietAgain(w: World, maxDepth: nat, s: Subject, n: Node, depth: nat, path: set<Node>)
    requires n in path && depth <= maxDepth
    ensures Quiet(w, maxDepth, s, n, depth, path)
  {
    assert forall c :: Derivation(w, s, n, c) ==> c[0] in path;
    forall k: nat, z | TrailTo(w, n, path, k, z) ensures k == 0 && z == n {
      if !(k == 0 && z == n) { var m, k' := TrailGoesOn(w, n, path, k, z); }
    }
  }

  /** Nor of a type the model does not declare. */
  lemma QuietUndeclared(w: World, maxDepth: nat, s: Subject, n: Node, depth: nat, path: set<Node>)
    requires n.entity.kind !in w.types && n !in path && depth <= maxDepth
    ensures Quiet(w, maxDepth, s, n, depth, path)
  {
    assert AllQuiet(w, maxDepth, s, n, depth, path + {n});
    QuietFrom(w, maxDepth, s, n, depth, path);
  }

  /** A permission whose every rule gave nothing. */
  lemma AllRulesQuiet(w: World, maxDepth: nat, s: Subject, n: Node, depth: nat, path: set<Node>)
    requires n.entity.kind in w.types && n.name in w.types[n.entity.kind].permissions
    requires QuietBefore(w, maxDepth, s, n, |w.types[n.entity.kind].permissions[n.name]|, depth, path)
    ensures AllQuiet(w, maxDepth, s, n, depth, path + {n})
  {
    hide Quiet, ArrowReaches;
    var rules := w.types[n.entity.kind].permissions[n.name];
    assert forall rule :: rule in rules ==> RuleQuiet(w, maxDepth, s, n.entity, rule, depth, path + {n});
  }

  /** A stored relation's steps all go into the subject sets found on it. */
  lemma AllSetsFollowed(w: World, n: Node)
    requires n.entity.kind in w.types && n.name !in w.types[n.entity.kind].permissions
    ensures forall m: Node :: Step(w, n, m) ==> SetOf(m.entity, m.name) in FindSubjectSets(w.store, n.entity, n.name)
  {
  }

  /** One check: what it reads, and the nodes on its path. */
  class Walk {
    const types: Model
    const store: set<Tuple>
    const maxDepth: nat
    const ctx: Option<Conditions>
    /** The data of every object; the walk itself sees the row it was passed, and no other. */
    ghost const rows: map<Entity, Row>

    var path: set<Node>

    ghost function World(): World {
      Permissions.World(types, store, rows, ctx)
    }

    constructor (types: Model, store: set<Tuple>, maxDepth: nat, ctx: Option<Conditions>, ghost rows: map<Entity, Row>)
      ensures path == {} && this.maxDepth == maxDepth
      ensures World() == Permissions.World(types, store, rows, ctx)
    {
      this.types, this.store, this.maxDepth, this.ctx, this.rows := types, store, maxDepth, ctx, rows;
      path := {};
    }

    /** The data is the entity's own, or the name reads none. */
    ghost predicate Carries(e: Entity, data: Option<Row>, name: string) {
      if data.Some? then data.value == RowOf(World(), e) else !ReadsField(types, e.kind, name)
    }

    /** Whether `s` holds `name` on `e`. */
    method Holds(s: Subject, e: Entity, data: Option<Row>, name: string, depth: nat) returns (r: Answer)
      requires Resolved(types) && Carries(e, data, name) && depth <= maxDepth + 1
      modifies this`path
      decreases maxDepth + 1 - depth, NamesLeft(types, e, path), 2
      ensures path == old(path)
      ensures Means(World(), maxDepth, s, Node(e, name), depth, path, r)
      ensures r == Threw(FieldUnreadable) ==> data.Some? && Unreadable(World(), e)
    {
      var n := Node(e, name);
      hide Quiet, AllQuiet, Comes, Turns, Ends;
      if depth > maxDepth {
        TooDeepAtOnce(World(), maxDepth, s, n, path);
        return Threw(PermissionDepth);
      }
      if n in path {
        QuietAgain(World(), maxDepth, s, n, depth, path);
        return Denied;
      }
      if e.kind !in types {
        QuietUndeclared(World(), maxDepth, s, n, depth, path);
        return Denied;
      }
      ghost var before := path;
      path := path + {n};
      if name in types[e.kind].permissions {
        assert name in NamesLeft(types, e, before) && name !in NamesLeft(types, e, path);
        r := Permission(s, e, data, name, depth);
      } else {
        r := RelationOf(s, e, data, name, depth);
      }
      path := path - {n};
      assert path == before;
      if r == Denied { QuietFrom(World(), maxDepth, s, n, depth, path); }
    }

    method RelationOf(s: Subject, e: Entity, data: Option<Row>, name: string, depth: nat) returns (r: Answer)
      requires Resolved(types) && Carries(e, data, name) && depth <= maxDepth
      requires e.kind in types && name !in types[e.kind].permissions && Node(e, name) in path
      modifies this`path
      decreases maxDepth + 1 - depth, NamesLeft(types, e, path), 0
      ensures path == old(path)
      ensures r == Denied ==> AllQuiet(World(), maxDepth, s, Node(e, name), depth, path)
      ensures r != Denied ==> ComesOf(World(), maxDepth, s, Node(e, name), depth, path - {Node(e, name)}, r)
      ensures r == Threw(FieldUnreadable) ==> data.Some? && Unreadable(World(), e)
    {
      hide Quiet, Comes, QuietBefore, Turns;
      var n := Node(e, name);
      ghost var off := path - {n};
      assert off + {n} == path;
      if name !in types[e.kind].relations { return Denied; }
      var relation := types[e.kind].relations[name];
      if data.None? { DataFreeIsStored(types, e.kind, name); }
      if relation.FromField? {
        var id := FieldRead(data, relation.field);
        if id.Err? {
          ComesAtOnce(World(), maxDepth, s, n, depth, off, Threw(id.error));
          return Threw(id.error);
        }
        if id.value.Some? && s.One? && s.entity.kind == relation.subject && s.entity.id == id.value.value {
          ComesAtOnce(World(), maxDepth, s, n, depth, off, Granted);
          return Granted;
        }
        return Denied;
      }

      if Admits(relation.holders, s) && Tuple(e, name, s) in store {
        ComesAtOnce(World(), maxDepth, s, n, depth, off, Granted);
        return Granted;
      }
      var sets := FindSubjectSets(store, e, name);
      var todo := sets;
      while todo != {}
        invariant todo <= sets && path == old(path)
        invariant forall m: Node :: SetOf(m.entity, m.name) in sets - todo && Crossing(World(), n, m) ==>
                    Quiet(World(), maxDepth, s, m, depth + 1, path)
      {
        var through :| through in todo;
        todo := todo - {through};
        if Admits(relation.holders, through) {
          var m := Node(through.entity, through.relation);
          assert Tuple(e, name, through) in store;
          TurnsInto(World(), maxDepth, s, n, m, depth, off);
          r := Holds(s, through.entity, None, through.relation, depth + 1);
          if r != Denied {
            ComesBefore(World(), maxDepth, s, n, m, depth, depth + 1, off, r);
            return;
          }
        }
      }
      AllSetsFollowed(World(), n);
      return Denied;
    }

    method Permission(s: Subject, e: Entity, data: Option<Row>, name: string, depth: nat) returns (r: Answer)
      requires Resolved(types) && Carries(e, data, name) && depth <= maxDepth
      requires e.kind in types && name in types[e.kind].permissions && Node(e, name) in path
      modifies this`path
      decreases maxDepth + 1 - depth, NamesLeft(types, e, path), 3
      ensures path == old(path)
      ensures r == Denied ==> AllQuiet(World(), maxDepth, s, Node(e, name), depth, path)
      ensures r != Denied ==> ComesOf(World(), maxDepth, s, Node(e, name), depth, path - {Node(e, name)}, r)
      ensures r == Threw(FieldUnreadable) ==> data.Some? && Unreadable(World(), e)
    {
      hide Quiet, AllQuiet, Comes;
      var n := Node(e, name);
      var rules := types[e.kind].permissions[name];
      ghost var off := path - {n};
      assert off + {n} == path;
      for i := 0 to |rules|
        invariant path == old(path) && QuietBefore(World(), maxDepth, s, n, i, depth, off)
      {
        var rule := rules[i];
        if rule.test.Some? {
          if ctx.None? {
            ComesAtOnce(World(), maxDepth, s, n, depth, off, Threw(NoContext));
            return Threw(NoContext);
          }
          if rule.test.value !in ctx.value { continue; }
        }
        if rule.NameRule? {
          if data.None? { NameKeepsDataFree(types, e.kind, name, rule); }
          r := Holds(s, e, data, rule.name, depth);
          if r != Denied {
            TurnsBy(World(), maxDepth, s, n, i, Node(e, rule.name), depth, depth, off);
            ComesBefore(World(), maxDepth, s, n, Node(e, rule.name), depth, depth, off, r);
            return;
          }
        } else {
          r := Arrow(s, e, data, name, i, depth);
          if r != Denied { return; }
        }
      }
      AllRulesQuiet(World(), maxDepth, s, n, depth, off);
      return Denied;
    }

    /** One arrow of a permission: each object it reaches, in turn. */
    method Arrow(s: Subject, e: Entity, data: Option<Row>, name: string, i: nat, depth: nat) returns (r: Answer)
      requires Resolved(types) && Carries(e, data, name) && depth <= maxDepth
      requires e.kind in types && name in types[e.kind].permissions && Node(e, name) in path
      requires i < |types[e.kind].permissions[name]|
      requires types[e.kind].permissions[name][i].ArrowRule? && Passes(ctx, types[e.kind].permissions[name][i].test)
      requires QuietBefore(World(), maxDepth, s, Node(e, name), i, depth, path - {Node(e, name)})
      modifies this`path
      decreases maxDepth + 1 - depth, NamesLeft(types, e, path), 2
      ensures path == old(path)
      ensures r == Denied ==> RuleQuiet(World(), maxDepth, s, e, types[e.kind].permissions[name][i], depth, path)
      ensures r != Denied ==> ComesOf(World(), maxDepth, s, Node(e, name), depth, path - {Node(e, name)}, r)
      ensures r == Threw(FieldUnreadable) ==> data.Some? && Unreadable(World(), e)
    {
      hide Quiet, AllQuiet, Comes, QuietBefore;
      var n := Node(e, name);
      var rule := types[e.kind].permissions[name][i];
      ghost var off := path - {n};
      assert off + {n} == path;
      if data.None? && rule.relation in types[e.kind].relations {
        ArrowKeepsDataFree(types, e.kind, name, rule);
      }
      var targets := Targets(e, data, rule.relation);
      if targets.Err? {
        ComesAtOnce(World(), maxDepth, s, n, depth, off, Threw(targets.error));
        return Threw(targets.error);
      }
      var todo := targets.value;
      while todo != {}
        invariant todo <= targets.value && path == old(path)
        invariant forall to :: to in targets.value - todo ==>
                    Quiet(World(), maxDepth, s, Node(to, rule.target), depth + 1, path)
      {
        var to :| to in todo;
        todo := todo - {to};
        r := Holds(s, to, None, rule.target, depth + 1);
        if r != Denied {
          TurnsBy(World(), maxDepth, s, n, i, Node(to, rule.target), depth, depth + 1, off);
          ComesBefore(World(), maxDepth, s, n, Node(to, rule.target), depth, depth + 1, off, r);
          return;
        }
      }
      return Denied;
    }

    /** The objects an arrow through `relation` reaches from `e`. */
    method Targets(e: Entity, data: Option<Row>, relation: string) returns (r: Result<set<Entity>, Error>)
      requires e.kind in types
      requires data.Some? ==> data.value == RowOf(World(), e)
      requires data.None? && relation in types[e.kind].relations ==> types[e.kind].relations[relation].Stored?
      ensures r.Ok? ==> forall to :: to in r.value <==> ArrowReaches(World(), e, relation, to)
      ensures r.Err? <==> ThroughUnread(World(), e, relation)
      ensures r.Err? ==> r.error == FieldUnreadable && data.Some? && Unreadable(World(), e)
    {
      if relation !in types[e.kind].relations { return Ok({}); }
      var through := types[e.kind].relations[relation];
      if through.FromField? {
        var id := FieldRead(data, through.field);
        if id.Err? { return Err(id.error); }
        return Ok(if id.value.None? then {} else {Entity(through.subject, id.value.value)});
      }
      var found := FindEntities(store, e, relation);
      return Ok(set to | to in found && Admits(through.holders, One(to)));
    }
  }

  lemma TurnsInto(w: World, maxDepth: nat, s: Subject, n: Node, m: Node, depth: nat, path: set<Node>)
    requires n !in path && depth <= maxDepth && n.entity.kind in w.types
    requires n.name !in w.types[n.entity.kind].permissions && !Grants(w, s, n) && Crossing(w, n, m)
    ensures Turns(w, maxDepth, s, n, m, depth, depth + 1, path)
  {
  }

  lemma TurnsBy(w: World, maxDepth: nat, s: Subject, n: Node, i: nat, m: Node, depth: nat, depth': nat, path: set<Node>)
    requires n !in path && depth <= maxDepth && n.entity.kind in w.types
    requires n.name in w.types[n.entity.kind].permissions && i < |w.types[n.entity.kind].permissions[n.name]|
    requires RuleTurns(w, n.entity, w.types[n.entity.kind].permissions[n.name][i], m, depth, depth')
    requires QuietBefore(w, maxDepth, s, n, i, depth, path)
    ensures Turns(w, maxDepth, s, n, m, depth, depth', path)
  {
    hide QuietBefore, RuleTurns;
  }

  // ----- from an empty path

  /** Whoever holds the name directly is told so at once: nothing is tried before the stored tuple, or the field. */
  lemma DirectIsGranted(w: World, maxDepth: nat, s: Subject, n: Node, r: Answer)
    requires Grants(w, s, n) && Means(w, maxDepth, s, n, 0, {}, r)
    ensures r == Granted
  {
    hide Crosses, MeetsFault, QuietBefore;
    if r == Denied {
      NoneAvoidingNothing(w, s, n);
      GrantDerivable(w, s, n);
    } else {
      var c :| c != [] && c[0] == n && Comes(w, maxDepth, s, c, 0, {}, r);
    }
  }

  /** **Denied exactly when nothing comes of it.** */
  lemma DeniedWhenQuiet(w: World, maxDepth: nat, s: Subject, n: Node, r: Answer)
    requires Means(w, maxDepth, s, n, 0, {}, r)
    ensures r == Denied <==> !Derivable(w, s, n) && !Crosses(w, n, {}, maxDepth + 1) && !MeetsFault(w, n, {}, maxDepth)
    ensures r != Denied ==> Crossed(w, maxDepth, s, n, 0, {}, r)
  {
    hide Comes, Grants, TrailTo, Faulty, MeetsCondition;
    if r == Denied {
      NoneAvoidingNothing(w, s, n);
    } else {
      var c :| c != [] && c[0] == n && Comes(w, maxDepth, s, c, 0, {}, r);
      ComesAcross(w, maxDepth, s, c, 0, {}, r);
      if r == Granted { TrailDerives(w, s, n, {}, maxDepth); }
    }
  }

  /**
   * `can()`, once what was passed is read: an id no store keeps is held by
   * nobody. **A walk from an empty path denies exactly what is not derivable**,
   * where no chain is too deep and none comes to what throws; any other answer
   * comes of the way it took, the rules before each turn having given nothing.
   */
  method Can(w: World, maxDepth: nat, s: Subject, name: string, e: Entity) returns (r: Answer)
    requires Resolved(w.types)
    ensures r == Denied <==> !Storable(e.id) || !Storable(s.entity.id) ||
                             (!Derivable(w, s, Node(e, name)) && !Crosses(w, Node(e, name), {}, maxDepth + 1) &&
                              !MeetsFault(w, Node(e, name), {}, maxDepth))
    ensures r != Denied ==> ComesOf(w, maxDepth, s, Node(e, name), 0, {}, r)
    ensures Storable(e.id) && Storable(s.entity.id) && Grants(w, s, Node(e, name)) ==> r == Granted
    ensures r == Granted ==> Derivable(w, s, Node(e, name)) && GrantsAcross(w, s, Node(e, name), {}, maxDepth)
    ensures r == Threw(PermissionDepth) ==> Crosses(w, Node(e, name), {}, maxDepth + 1)
    ensures r == Threw(NoContext) ==>
              w.ctx.None? && exists k: nat, m ::
                k <= maxDepth && TrailTo(w, Node(e, name), {}, k, m) && MeetsCondition(w.types, m)
    ensures r == Threw(FieldUnreadable) ==> Unreadable(w, e)
    ensures r != Threw(NoLookup)
  {
    hide Comes, Grants, TrailTo, Faulty, MeetsCondition, Quiet, Unreadable, Derivable, Storable;
    var n := Node(e, name);
    if !Storable(e.id) || !Storable(s.entity.id) { return Denied; }
    var walk := new Walk(w.types, w.store, maxDepth, w.ctx, w.rows);
    r := walk.Holds(s, e, Some(RowOf(w, e)), name, 0);
    DeniedWhenQuiet(w, maxDepth, s, n, r);
    if Grants(w, s, n) { DirectIsGranted(w, maxDepth, s, n, r); }
    if r == Granted { TrailDerives(w, s, n, {}, maxDepth); }
  }
}
