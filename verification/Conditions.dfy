/** Whether asking a name may reach a condition, read from the model alone. */
module Conditions {
  import opened Std
  import opened Fixpoint
  import opened Paging
  import opened Permissions
  import opened Rounds
  import Reverses
  import Walks

  /** The types an arrow through such a relation may lead to, the type of a subject set among them. */
  function ArrowTargets(relation: Relation): seq<string> {
    match relation
    case FromField(_, subject, _) => [subject]
    case Stored(holders) => seq(|holders|, i requires 0 <= i < |holders| => holders[i].kind)
  }

  /** Where one rule without a condition leads. */
  function Leads(t: ObjectType, kind: string, rule: Rule): seq<Key> {
    match rule
    case NameRule(name, _) => [Key(kind, name)]
    case ArrowRule(relation, target, _) =>
      if relation !in t.relations then [] else
        var kinds := ArrowTargets(t.relations[relation]);
        seq(|kinds|, i requires 0 <= i < |kinds| => Key(kinds[i], target))
  }

  function RulesOf(types: Model, key: Key): seq<Rule> {
    if key.kind in types && key.name in types[key.kind].permissions then types[key.kind].permissions[key.name] else []
  }

  ghost predicate HasWhen(types: Model, key: Key) {
    exists rule | rule in RulesOf(types, key) :: rule.test.Some?
  }

  ghost predicate LeadsTo(types: Model, a: Key, b: Key) {
    exists rule | rule in RulesOf(types, a) :: rule.test.None? && b in Leads(types[a.kind], a.kind, rule)
  }

  /** A chain of rules without a condition, from `key` to a name that has one. */
  ghost predicate WhenChain(types: Model, key: Key, c: seq<Key>) {
    |c| > 0 && c[0] == key && HasWhen(types, c[|c| - 1]) &&
    forall i :: 0 <= i < |c| - 1 ==> LeadsTo(types, c[i], c[i + 1])
  }

  ghost predicate ReachesWhen(types: Model, key: Key) {
    exists c :: WhenChain(types, key, c)
  }

  /** The same, through names not in `off`. */
  ghost predicate ReachesWhenOff(types: Model, key: Key, off: set<Key>) {
    exists c :: WhenChain(types, key, c) && KeepsOff(c, off)
  }

  ghost predicate KeepsOff(c: seq<Key>, off: set<Key>) {
    forall i :: 0 <= i < |c| ==> c[i] !in off
  }

  lemma LeadsFurther(types: Model, a: Key, b: Key, off: set<Key>, more: set<Key>)
    requires LeadsTo(types, a, b) && ReachesWhenOff(types, b, more) && off <= more && a !in off
    ensures ReachesWhenOff(types, a, off)
  {
    var c :| WhenChain(types, b, c) && KeepsOff(c, more);
    var d := [a] + c;
    forall i | 0 <= i < |d| - 1 ensures LeadsTo(types, d[i], d[i + 1]) {
      if i > 0 { assert LeadsTo(types, c[i - 1], c[i]); }
    }
    assert WhenChain(types, a, d) && KeepsOff(d, off);
  }

  lemma OffNothing(types: Model, key: Key)
    ensures ReachesWhenOff(types, key, {}) <==> ReachesWhen(types, key)
  {
    if ReachesWhen(types, key) {
      var c :| WhenChain(types, key, c);
      assert KeepsOff(c, {});
    }
  }

  /** Names without a condition, which lead to names within only. */
  ghost predicate Clear(types: Model, seen: set<Key>, within: set<Key>) {
    forall a :: a in seen ==> !HasWhen(types, a) && forall b :: LeadsTo(types, a, b) ==> b in within
  }

  /** From names clear but for those in `off`, only a chain through `off` reaches a condition. */
  lemma {:induction false} ClearReachesNone(types: Model, off: set<Key>, within: set<Key>, key: Key, c: seq<Key>)
    requires Clear(types, within - off, within) && key in within
    ensures !(WhenChain(types, key, c) && KeepsOff(c, off))
    decreases |c|
  {
    if |c| > 1 && c[0] == key && key !in off && LeadsTo(types, c[0], c[1]) {
      assert key in within - off && LeadsTo(types, key, c[1]);
      ClearReachesNone(types, off, within, c[1], c[1..]);
      if WhenChain(types, key, c) && KeepsOff(c, off) {
        forall i | 0 <= i < |c[1..]| - 1 ensures LeadsTo(types, c[1..][i], c[1..][i + 1]) {
          assert LeadsTo(types, c[i + 1], c[i + 2]);
        }
      }
    }
  }

  /** The names already looked at, shared by the whole search. */
  class Seen {
    var keys: set<Key>

    constructor ()
      ensures keys == {}
    {
      keys := {};
    }
  }

  /** **Whether a chain of rules through names not seen before reaches a condition.** */
  method Search(types: Model, key: Key, seen: Seen) returns (r: bool)
    modifies seen
    decreases Declared(types) - seen.keys, 1
    ensures old(seen.keys) <= seen.keys
    ensures r <==> ReachesWhenOff(types, key, old(seen.keys))
    ensures !r ==> key in seen.keys && Clear(types, seen.keys - old(seen.keys), seen.keys)
  {
    if key in seen.keys {
      assert forall c :: WhenChain(types, key, c) ==> c[0] in seen.keys;
      return false;
    }
    ghost var before := seen.keys;
    seen.keys := seen.keys + {key};
    var rules := RulesOf(types, key);
    if rules != [] { assert key in Declared(types); }
    for i := 0 to |rules|
      invariant before + {key} <= seen.keys
      invariant Clear(types, seen.keys - before - {key}, seen.keys)
      invariant forall j :: 0 <= j < i ==> rules[j].test.None?
      invariant forall j :: 0 <= j < i ==> forall b ::
                  b in Leads(types[key.kind], key.kind, rules[j]) ==> b in seen.keys
    {
      var rule := rules[i];
      if rule.test.Some? {
        assert WhenChain(types, key, [key]) && KeepsOff([key], before);
        return true;
      }
      var next := Leads(types[key.kind], key.kind, rule);
      for k := 0 to |next|
        invariant before + {key} <= seen.keys
        invariant Clear(types, seen.keys - before - {key}, seen.keys)
        invariant forall j :: 0 <= j < i ==> forall b ::
                    b in Leads(types[key.kind], key.kind, rules[j]) ==> b in seen.keys
        invariant forall l :: 0 <= l < k ==> next[l] in seen.keys
      {
        ghost var known := seen.keys;
        var found := Search(types, next[k], seen);
        if found {
          assert LeadsTo(types, key, next[k]);
          LeadsFurther(types, key, next[k], before, known);
          return true;
        }
        assert seen.keys - before - {key} == (known - before - {key}) + (seen.keys - known);
      }
    }
    assert seen.keys - before == (seen.keys - before - {key}) + {key};
    forall c ensures !(WhenChain(types, key, c) && KeepsOff(c, before)) {
      ClearReachesNone(types, before, seen.keys, key, c);
    }
    return false;
  }

  /** `reachesCondition`: **true exactly when a rule under a condition is reachable.** */
  method ReachesCondition(types: Model, kind: string, name: string) returns (r: bool)
    ensures r <==> ReachesWhen(types, Key(kind, name))
  {
    var seen := new Seen();
    r := Search(types, Key(kind, name), seen);
    OffNothing(types, Key(kind, name));
  }

  // ----- what the static answer says of every walk

  function KeyOf(n: Node): Key {
    Key(n.entity.kind, n.name)
  }

  /** No condition lies ahead: the name is a stored relation, or reaches none. */
  ghost predicate NoneAhead(types: Model, n: Node) {
    n.entity.kind !in types || n.name !in types[n.entity.kind].permissions || !ReachesWhen(types, KeyOf(n))
  }

  lemma StepKeepsNoneAhead(w: World, n: Node, m: Node)
    requires Resolved(w.types) && NoneAhead(w.types, n) && Step(w, n, m)
    ensures NoneAhead(w.types, m)
  {
    var t := w.types[n.entity.kind];
    if n.name in t.permissions {
      assert !HasWhen(w.types, KeyOf(n)) by {
        if HasWhen(w.types, KeyOf(n)) { assert WhenChain(w.types, KeyOf(n), [KeyOf(n)]); }
      }
      var rule :| rule in t.permissions[n.name] && rule.test.None? &&
        match rule
        case NameRule(name, _) => name == m.name && n.entity == m.entity
        case ArrowRule(relation, target, _) => target == m.name && ArrowReaches(w, n.entity, relation, m.entity);
      ArrowIsLed(w, n, m, rule);
      OffNothing(w.types, KeyOf(n));
      OffNothing(w.types, KeyOf(m));
      if ReachesWhen(w.types, KeyOf(m)) { LeadsFurther(w.types, KeyOf(n), KeyOf(m), {}, {}); }
    } else {
      assert Admits(t.relations[n.name].holders, SetOf(m.entity, m.name));
      assert m.entity.kind in w.types && m.name in w.types[m.entity.kind].relations;
    }
  }

  /** Where a walk goes by a rule is among where the rule leads. */
  lemma ArrowIsLed(w: World, n: Node, m: Node, rule: Rule)
    requires n.entity.kind in w.types && n.name in w.types[n.entity.kind].permissions
    requires rule in w.types[n.entity.kind].permissions[n.name] && rule.test.None?
    requires match rule
             case NameRule(name, _) => name == m.name && n.entity == m.entity
             case ArrowRule(relation, target, _) => target == m.name && ArrowReaches(w, n.entity, relation, m.entity)
    ensures LeadsTo(w.types, KeyOf(n), KeyOf(m))
  {
    var t := w.types[n.entity.kind];
    var next := Leads(t, n.entity.kind, rule);
    match rule
    case NameRule(name, _) => assert next[0] == KeyOf(m);
    case ArrowRule(relation, target, _) =>
      var kinds := ArrowTargets(t.relations[relation]);
      match t.relations[relation] {
        case FromField(_, subject, _) => assert kinds[0] == m.entity.kind && next[0] == KeyOf(m);
        case Stored(holders) =>
          var h :| h in holders && h.kind == m.entity.kind;
          var i :| 0 <= i < |holders| && holders[i] == h;
          assert kinds[i] == m.entity.kind && next[i] == KeyOf(m);
      }
  }

  lemma {:induction false} TrailKeepsNoneAhead(w: World, t: seq<Hop>, i: nat)
    requires Resolved(w.types) && IsTrail(w, t) && NoneAhead(w.types, t[0].node) && i < |t|
    ensures NoneAhead(w.types, t[i].node)
  {
    if i > 0 {
      TrailKeepsNoneAhead(w, t, i - 1);
      StepKeepsNoneAhead(w, t[i - 1].node, t[i].node);
    }
  }

  /** **When the model reaches no condition, no trail of any walk comes to one**, whatever is stored. */
  lemma NoTrailMeetsCondition(w: World, n: Node, path: set<Node>, k: nat, m: Node)
    requires Resolved(w.types) && !ReachesWhen(w.types, KeyOf(n)) && TrailTo(w, n, path, k, m)
    ensures !Walks.MeetsCondition(w.types, m)
  {
    var t: seq<Hop> :| IsTrail(w, t) && Simple(t, path) && t[0] == Hop(n, k) && t[|t| - 1].node == m;
    TrailKeepsNoneAhead(w, t, |t| - 1);
    if HasWhen(w.types, KeyOf(m)) { assert WhenChain(w.types, KeyOf(m), [KeyOf(m)]); }
  }

  /** Told that no condition is reachable, `can()` asked without a `ctx` never lacks it. */
  method CanNeedsNoContext(w: World, maxDepth: nat, s: Subject, name: string, e: Entity)
    returns (needs: bool, can: Walks.Answer)
    requires Resolved(w.types)
    ensures !needs ==> can != Walks.Threw(Walks.NoContext)
  {
    needs := ReachesCondition(w.types, e.kind, name);
    can := Walks.Can(w, maxDepth, s, name, e);
    if !needs && can == Walks.Threw(Walks.NoContext) {
      ghost var k: nat, m :| TrailTo(w, Node(e, name), {}, k, m) && Walks.MeetsCondition(w.types, m);
      NoTrailMeetsCondition(w, Node(e, name), {}, k, m);
    }
  }

  // ----- and of every listing

  ghost predicate NoneAheadAt(types: Model, key: Key) {
    key.kind !in types || key.name !in types[key.kind].permissions || !ReachesWhen(types, key)
  }

  /** Asked without a `ctx`, what a rule asks for backwards is among where it leads. */
  lemma TermIsLed(w: World, a: Key, term: Term)
    requires w.ctx.None? && term in Terms(w, a) && a.kind in w.types && a.name in w.types[a.kind].permissions
    ensures LeadsTo(w.types, a, term.from)
  {
    var t := w.types[a.kind];
    RulesTermsAre(w, a.kind, t.permissions[a.name], term);
    var rule :| rule in t.permissions[a.name] && term in RuleTerms(w, a.kind, rule);
    var next := Leads(t, a.kind, rule);
    match rule
    case NameRule(_, _) => assert next[0] == term.from;
    case ArrowRule(relation, target, _) =>
      var kinds := ArrowTargets(t.relations[relation]);
      match t.relations[relation] {
        case FromField(_, _, _) => assert next[0] == term.from;
        case Stored(holders) =>
          TypeTermsAre(w.types, relation, target, holders, term);
          var h :| h in holders && h.TypeHolder? && h.kind in w.types &&
            term == Held(Key(h.kind, target), relation, None);
          var i :| 0 <= i < |holders| && holders[i] == h;
          assert kinds[i] == h.kind && next[i] == term.from;
      }
  }

  lemma AskingKeepsNoneAhead(w: World, a: Key, b: Key)
    requires Resolved(w.types) && w.ctx.None? && NoneAheadAt(w.types, a) && AsksFor(w, a, b)
    ensures NoneAheadAt(w.types, b)
  {
    var term :| term in Terms(w, a) && term.from == b;
    var t := w.types[a.kind];
    if a.name in t.permissions {
      TermIsLed(w, a, term);
      if ReachesWhen(w.types, b) {
        OffNothing(w.types, a);
        OffNothing(w.types, b);
        LeadsFurther(w.types, a, b, {}, {});
      }
    } else {
      SetTermsAre(a.name, t.relations[a.name].holders, term);
    }
  }

  lemma {:induction false} LineKeepsNoneAhead(w: World, key: Key, c: seq<Key>, i: nat)
    requires Resolved(w.types) && w.ctx.None? && NoneAheadAt(w.types, key) && IsLine(w, key, c) && i < |c|
    ensures NoneAheadAt(w.types, c[i])
  {
    if i > 0 {
      LineKeepsNoneAhead(w, key, c, i - 1);
      assert AsksFor(w, c[i - 1], c[i]);
      AskingKeepsNoneAhead(w, c[i - 1], c[i]);
    }
  }

  /** Told that no condition is reachable, `list()` asked without a `ctx` never lacks it either. */
  method ListNeedsNoContext(w: World, lookups: Lookups, maxDepth: nat, s: Subject, name: string, kind: string,
                            after: Option<string>, limit: nat)
    returns (needs: bool, listed: Result<Page, Walks.Error>)
    requires Resolved(w.types) && Kept(w) && Inverse(w, lookups) && limit >= 1
    ensures !needs ==> listed != Err(Walks.NoContext)
  {
    hide Resolved, Kept, Inverse, TooDeep, Derivable, DerivableWithin, ReachedNames, PageOf, AskedFor, ReachesWhen;
    needs := ReachesCondition(w.types, kind, name);
    ghost var ids;
    listed, ids := Reverses.List(w, lookups, maxDepth, s, name, kind, after, limit);
    if !needs && listed == Err(Walks.NoContext) {
      ghost var at :| AskedFor(w, Key(kind, name), at) && Reverses.Stops(w, s, at, Walks.NoContext);
      ConditionIsAhead(w, Key(kind, name), at);
    }
  }

  lemma ConditionIsAhead(w: World, key: Key, at: Key)
    requires Resolved(w.types) && w.ctx.None? && AskedFor(w, key, at) && Reverses.Conditional(w.types, at)
    ensures ReachesWhen(w.types, key)
  {
    var c :| IsLine(w, key, c) && c[|c| - 1] == at;
    assert WhenChain(w.types, at, [at]);
    if !ReachesWhen(w.types, key) { LineKeepsNoneAhead(w, key, c, |c| - 1); }
  }

  // ----- and nothing more

  /** A rule without a condition that some walk may follow to this name. */
  predicate Walkable(types: Model, a: Key, rule: Rule, b: Key) {
    rule.test.None? &&
    match rule
    case NameRule(name, _) => b == Key(a.kind, name)
    case ArrowRule(relation, target, _) =>
      b.name == target && a.kind in types && relation in types[a.kind].relations &&
      match types[a.kind].relations[relation]
      case FromField(_, subject, _) => subject == b.kind
      case Stored(holders) => TypeHolder(b.kind) in holders
  }

  /** One through whose relation subject sets of this type are held, which no arrow follows. */
  predicate ThroughSet(types: Model, a: Key, rule: Rule, b: Key) {
    rule.test.None? && rule.ArrowRule? && rule.target == b.name &&
    a.kind in types && rule.relation in types[a.kind].relations && types[a.kind].relations[rule.relation].Stored? &&
    exists h | h in types[a.kind].relations[rule.relation].holders :: h.SetHolder? && h.kind == b.kind
  }

  /** **A rule is said to lead exactly where some walk may follow it, and to the types of sets no arrow follows.** */
  lemma LeadsExactly(types: Model, a: Key, b: Key)
    ensures LeadsTo(types, a, b) <==>
            exists rule | rule in RulesOf(types, a) :: Walkable(types, a, rule, b) || ThroughSet(types, a, rule, b)
  {
    forall rule | rule in RulesOf(types, a) && rule.test.None?
      ensures b in Leads(types[a.kind], a.kind, rule) <==>
              Walkable(types, a, rule, b) || ThroughSet(types, a, rule, b)
    {
      var t := types[a.kind];
      var next := Leads(t, a.kind, rule);
      match rule
      case NameRule(name, _) => assert next[0] == Key(a.kind, name);
      case ArrowRule(relation, target, _) =>
        if relation in t.relations {
          var kinds := ArrowTargets(t.relations[relation]);
          match t.relations[relation] {
            case FromField(_, subject, _) => assert next[0] == Key(subject, target);
            case Stored(holders) =>
              forall i | 0 <= i < |holders| ensures next[i] == Key(holders[i].kind, target) {
                assert kinds[i] == holders[i].kind;
              }
              forall h | h in holders ensures Key(h.kind, target) in next {
                var i :| 0 <= i < |holders| && holders[i] == h;
                assert next[i] == Key(h.kind, target);
              }
          }
        }
    }
  }

  /** And some walk does follow it, over objects and tuples of the lemma's own. */
  lemma WalkableIsWalked(types: Model, a: Key, rule: Rule, b: Key) returns (w: World, n: Node, m: Node)
    requires rule in RulesOf(types, a) && Walkable(types, a, rule, b)
    ensures w.types == types && KeyOf(n) == a && KeyOf(m) == b && Step(w, n, m)
  {
    n := NodeOf(a, "x");
    m := NodeOf(b, "x");
    var t := types[a.kind];
    match rule
    case NameRule(name, _) =>
      w := World(types, {}, map[], None);
      assert NameStep(w, n, m);
    case ArrowRule(relation, target, _) =>
      w := World(types, {Tuple(n.entity, relation, One(m.entity))}, map[n.entity := FieldsNaming(t, "x")], None);
      match t.relations[relation] {
        case FromField(field, subject, _) => FieldNamed(t, relation, "x");
        case Stored(holders) => assert Admits(holders, One(m.entity));
      }
      assert ArrowReaches(w, n.entity, relation, m.entity);
      assert Crossing(w, n, m);
  }

  /** A row in which every field the type reads names `id`. */
  function FieldsNaming(t: ObjectType, id: string): Row {
    map r | r in FieldsRead(t) :: Text(id)
  }

  function FieldsRead(t: ObjectType): set<string> {
    set r | r in t.relations && t.relations[r].FromField? :: t.relations[r].field
  }

  lemma FieldNamed(t: ObjectType, relation: string, id: string)
    requires relation in t.relations && t.relations[relation].FromField? && Storable(id)
    ensures ReadField(FieldsNaming(t, id), t.relations[relation].field) == Some(id)
  {
    assert t.relations[relation].field in FieldsRead(t);
  }
}
