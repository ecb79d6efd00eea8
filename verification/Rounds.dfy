/**
 * One round of `list()` as a function: the memoised recursion over
 * `type#name`, in which a name met again on the path answers what the round
 * before found. What it computes, round after round, is the least fixpoint.
 */
module Rounds {
  import opened Std
  import opened Permissions

  /** A name asked of a type: what a round computes a set of ids for. */
  datatype Key = Key(kind: string, name: string)

  type Found = map<Key, set<string>>

  /** What a round has found so far, and whether it met a loop. */
  datatype Round = Round(current: Found, looped: bool)

  /** `found.get(key) ?? new Set()`. */
  function At(found: Found, key: Key): set<string> {
    if key in found then found[key] else {}
  }

  // ----- one step backwards

  /** Where a set of ids comes from, and how it is followed to the objects asked about. */
  datatype Term =
    | Same(from: Key)                                        // a rule naming another name
    | Held(from: Key, relation: string, relationName: Option<string>)  // tuples naming it, as a set or an entity
    | Named(from: Key, field: string)                        // objects whose field names what was found

  /** `findObjects`: the ids of the objects of `kind` on which `s` holds `relation` directly. */
  function FindObjects(store: set<Tuple>, kind: string, relation: string, s: Subject): set<string> {
    set t | t in store && t.on.kind == kind && t.relation == relation && t.subject == s :: t.on.id
  }

  /** What a `fromField`'s lookup is asked: which relation, and whom its objects name. */
  datatype Asked = Asked(kind: string, relation: string, id: string)

  /** What the caller's lookups answer, as they answer it; nothing where none is. */
  type Lookups = map<Asked, seq<string>>

  function Answered(lookups: Lookups, kind: string, relation: string, id: string): seq<string> {
    var asked := Asked(kind, relation, id);
    if asked in lookups then lookups[asked] else []
  }

  /** Every lookup is the exact inverse of its field, ids no store keeps included. */
  ghost predicate Inverse(w: World, lookups: Lookups) {
    forall kind, relation, id, x {:trigger Answered(lookups, kind, relation, id), Entity(kind, x)} ::
      kind in w.types && relation in w.types[kind].relations && w.types[kind].relations[relation].FromField? &&
      w.types[kind].relations[relation].hasLookup ==>
        (x in Answered(lookups, kind, relation, id) <==>
         FieldOf(w, Entity(kind, x), w.types[kind].relations[relation].field) == Some(id))
  }

  /** The objects a store keeps whose field names `id`. */
  function Lookup(w: World, kind: string, field: string, id: string): set<string> {
    set e | e in w.rows && e.kind == kind && Storable(e.id) && FieldOf(w, e, field) == Some(id) :: e.id
  }

  function Via(from: Key, id: string, relationName: Option<string>): Subject {
    if relationName.Some? then SetOf(Entity(from.kind, id), relationName.value) else One(Entity(from.kind, id))
  }

  /** The objects of `kind` one id found at `term.from` leads to. */
  function Pull(w: World, kind: string, term: Term, id: string): set<string> {
    match term
    case Same(_) => {id}
    case Held(from, relation, relationName) => FindObjects(w.store, kind, relation, Via(from, id, relationName))
    case Named(from, field) => Lookup(w, kind, field, id)
  }

  function PullAll(w: World, kind: string, term: Term, ids: set<string>): set<string> {
    set id, x | id in ids && x in Pull(w, kind, term, id) :: x
  }

  lemma PullOneMore(w: World, kind: string, term: Term, ids: set<string>, id: string)
    ensures PullAll(w, kind, term, ids + {id}) == PullAll(w, kind, term, ids) + Pull(w, kind, term, id)
  {
  }

  lemma PullSame(w: World, kind: string, from: Key, ids: set<string>)
    ensures PullAll(w, kind, Same(from), ids) == ids
  {
    forall x ensures x in PullAll(w, kind, Same(from), ids) <==> x in ids {
      assert x in Pull(w, kind, Same(from), x);
    }
  }

  /** The subject sets a stored relation admits. */
  function SetTerms(name: string, holders: seq<Holder>): seq<Term> {
    if holders == [] then [] else
      (match holders[0]
       case SetHolder(kind, relation) => [Held(Key(kind, relation), name, Some(relation))]
       case TypeHolder(_) => []) + SetTerms(name, holders[1..])
  }

  /** The object types an arrow through a stored relation follows. */
  function TypeTerms(types: Model, relation: string, target: string, holders: seq<Holder>): seq<Term> {
    if holders == [] then [] else
      (match holders[0]
       case TypeHolder(kind) => if kind in types then [Held(Key(kind, target), relation, None)] else []
       case SetHolder(_, _) => []) + TypeTerms(types, relation, target, holders[1..])
  }

  lemma SetTermsFrom(name: string, holders: seq<Holder>, i: nat)
    requires i < |holders|
    ensures SetTerms(name, holders[i..]) ==
            (if holders[i].SetHolder?
             then [Held(Key(holders[i].kind, holders[i].relation), name, Some(holders[i].relation))] else [])
            + SetTerms(name, holders[i + 1..])
  {
  }

  lemma TypeTermsFrom(types: Model, relation: string, target: string, holders: seq<Holder>, i: nat)
    requires i < |holders|
    ensures TypeTerms(types, relation, target, holders[i..]) ==
            (if holders[i].TypeHolder? && holders[i].kind in types
             then [Held(Key(holders[i].kind, target), relation, None)] else [])
            + TypeTerms(types, relation, target, holders[i + 1..])
  {
  }

  function ArrowTerms(types: Model, t: ObjectType, relation: string, target: string): seq<Term> {
    if relation !in t.relations then [] else
      match t.relations[relation]
      case FromField(field, subject, _) => [Named(Key(subject, target), field)]
      case Stored(holders) => TypeTerms(types, relation, target, holders)
  }

  function RuleTerms(w: World, kind: string, rule: Rule): seq<Term>
    requires kind in w.types
  {
    if !Passes(w.ctx, rule.test) then [] else
      match rule
      case NameRule(name, _) => [Same(Key(kind, name))]
      case ArrowRule(relation, target, _) => ArrowTerms(w.types, w.types[kind], relation, target)
  }

  function RulesTerms(w: World, kind: string, rules: seq<Rule>): seq<Term>
    requires kind in w.types
  {
    if rules == [] then [] else RuleTerms(w, kind, rules[0]) + RulesTerms(w, kind, rules[1..])
  }

  /** Every step backwards from `key`, in the order a round takes them. */
  function Terms(w: World, key: Key): seq<Term> {
    if key.kind !in w.types then [] else
      var t := w.types[key.kind];
      if key.name in t.permissions then RulesTerms(w, key.kind, t.permissions[key.name])
      else if key.name in t.relations && t.relations[key.name].Stored? then
        SetTerms(key.name, t.relations[key.name].holders)
      else []
  }

  /** The ids of the objects that grant by themselves. */
  function Direct(w: World, s: Subject, key: Key): set<string> {
    if key.kind !in w.types then {}
    else if key.name in w.types[key.kind].permissions || key.name !in w.types[key.kind].relations then {}
    else
      match w.types[key.kind].relations[key.name]
      case FromField(field, subject, _) =>
        if s.One? && s.entity.kind == subject then Lookup(w, key.kind, field, s.entity.id) else {}
      case Stored(holders) =>
        if Admits(holders, s) then FindObjects(w.store, key.kind, key.name, s) else {}
  }

  // ----- the round

  /** Every `type#name` the model declares. */
  function Declared(types: Model): set<Key> {
    set kind, name | kind in types && name in Names(types[kind]) :: Key(kind, name)
  }

  /** The ids at `key`, and the round after finding them. */
  function Reach(w: World, s: Subject, previous: Found, path: set<Key>, r: Round, key: Key): (Round, set<string>)
    decreases Declared(w.types) - path, 0
  {
    if key in r.current then (r, r.current[key])
    else if key in path then (r.(looped := true), At(previous, key))
    else if key.kind !in w.types then (r, {})
    else if key !in Declared(w.types) then (r.(current := r.current[key := {}]), {})
    else
      var (r', found) := Gather(w, s, previous, path + {key}, r, key.kind, Terms(w, key), Direct(w, s, key));
      (r'.(current := r'.current[key := found]), found)
  }

  /** What the terms lead to, one after the other, added to `found`. */
  function Gather(w: World, s: Subject, previous: Found, path: set<Key>, r: Round,
                  kind: string, terms: seq<Term>, found: set<string>): (Round, set<string>)
    decreases Declared(w.types) - path, 1 + |terms|
  {
    if terms == [] then (r, found) else
      var (r', ids) := Reach(w, s, previous, path, r, terms[0].from);
      Gather(w, s, previous, path, r', kind, terms[1..], found + PullAll(w, kind, terms[0], ids))
  }

  const START := Round(map[], false)

  /** A whole round, from nothing found. */
  function RoundOf(w: World, s: Subject, previous: Found, key: Key): (Round, set<string>) {
    Reach(w, s, previous, {}, START, key)
  }

  /** One term, and then the rest. */
  lemma GatherFirst(w: World, s: Subject, previous: Found, path: set<Key>, r: Round,
                    kind: string, term: Term, rest: seq<Term>, found: set<string>)
    ensures var (r', ids) := Reach(w, s, previous, path, r, term.from);
            Gather(w, s, previous, path, r, kind, [term] + rest, found) ==
            Gather(w, s, previous, path, r', kind, rest, found + PullAll(w, kind, term, ids))
  {
  }

  /** Gathering more starts from what was gathered. */
  lemma {:induction false} GatherMore(w: World, s: Subject, previous: Found, path: set<Key>, r: Round,
                                      kind: string, terms: seq<Term>, more: seq<Term>, found: set<string>)
    ensures var (r', found') := Gather(w, s, previous, path, r, kind, terms, found);
            Gather(w, s, previous, path, r, kind, terms + more, found) ==
            Gather(w, s, previous, path, r', kind, more, found')
    decreases |terms|
  {
    if terms == [] {
      assert terms + more == more;
    } else {
      var (r', ids) := Reach(w, s, previous, path, r, terms[0].from);
      assert (terms + more)[1..] == terms[1..] + more;
      GatherMore(w, s, previous, path, r', kind, terms[1..], more, found + PullAll(w, kind, terms[0], ids));
    }
  }

  /** What was there before the gathering is added to what it finds. */
  lemma {:induction false} GatherOnto(w: World, s: Subject, previous: Found, path: set<Key>, r: Round,
                                      kind: string, terms: seq<Term>, first: set<string>, found: set<string>)
    ensures var (r', found') := Gather(w, s, previous, path, r, kind, terms, found);
            Gather(w, s, previous, path, r, kind, terms, first + found) == (r', first + found')
    decreases |terms|
  {
    if terms != [] {
      var (r', ids) := Reach(w, s, previous, path, r, terms[0].from);
      var more := PullAll(w, kind, terms[0], ids);
      assert first + found + more == first + (found + more);
      GatherOnto(w, s, previous, path, r', kind, terms[1..], first, found + more);
    }
  }

  // ----- a step backwards is a step forwards

  /** Every id the store or a row holds is one a store keeps. */
  ghost predicate Kept(w: World) {
    forall t | t in w.store :: Storable(t.on.id) && Storable(t.subject.entity.id)
  }

  lemma {:induction false} SetTermsAre(name: string, holders: seq<Holder>, term: Term)
    ensures term in SetTerms(name, holders) <==>
            exists h | h in holders :: h.SetHolder? && term == Held(Key(h.kind, h.relation), name, Some(h.relation))
  {
    if holders != [] { SetTermsAre(name, holders[1..], term); }
  }

  lemma {:induction false} TypeTermsAre(types: Model, relation: string, target: string, holders: seq<Holder>,
                                        term: Term)
    ensures term in TypeTerms(types, relation, target, holders) <==>
            exists h | h in holders ::
              h.TypeHolder? && h.kind in types && term == Held(Key(h.kind, target), relation, None)
  {
    if holders != [] { TypeTermsAre(types, relation, target, holders[1..], term); }
  }

  lemma {:induction false} RulesTermsAre(w: World, kind: string, rules: seq<Rule>, term: Term)
    requires kind in w.types
    ensures term in RulesTerms(w, kind, rules) <==> exists rule | rule in rules :: term in RuleTerms(w, kind, rule)
  {
    if rules != [] { RulesTermsAre(w, kind, rules[1..], term); }
  }

  function NodeOf(key: Key, id: string): Node {
    Node(Entity(key.kind, id), key.name)
  }

  /** A direct find is a grant, and the other way for an id a store keeps. */
  lemma DirectGrants(w: World, s: Subject, key: Key, id: string)
    ensures id in Direct(w, s, key) ==> Grants(w, s, NodeOf(key, id))
    ensures Storable(id) && Grants(w, s, NodeOf(key, id)) ==> id in Direct(w, s, key)
  {
  }

  lemma InFindObjects(store: set<Tuple>, kind: string, relation: string, s: Subject, id: string)
    ensures id in FindObjects(store, kind, relation, s) <==> Tuple(Entity(kind, id), relation, s) in store
  {
  }

  lemma InLookup(w: World, kind: string, field: string, id: string, x: string)
    ensures x in Lookup(w, kind, field, id) <==> Storable(x) && FieldOf(w, Entity(kind, x), field) == Some(id)
  {
  }

  /** What a term pulls an id back to steps forward to it. */
  lemma PullIsStep(w: World, key: Key, term: Term, id: string, x: string)
    requires term in Terms(w, key) && x in Pull(w, key.kind, term, id)
    ensures Step(w, NodeOf(key, x), NodeOf(term.from, id))
  {
    var t := w.types[key.kind];
    if key.name in t.permissions {
      RulesTermsAre(w, key.kind, t.permissions[key.name], term);
      var rule :| rule in t.permissions[key.name] && term in RuleTerms(w, key.kind, rule);
      match rule {
        case NameRule(name, _) => assert NameStep(w, NodeOf(key, x), NodeOf(term.from, id));
        case ArrowRule(relation, target, _) =>
          match t.relations[relation] {
            case FromField(field, subject, _) => InLookup(w, key.kind, field, id, x);
            case Stored(holders) =>
              TypeTermsAre(w.types, relation, target, holders, term);
              InFindObjects(w.store, key.kind, relation, One(Entity(term.from.kind, id)), x);
          }
          assert ArrowReaches(w, Entity(key.kind, x), relation, Entity(term.from.kind, id));
          assert Crossing(w, NodeOf(key, x), NodeOf(term.from, id));
      }
    } else {
      var holders := t.relations[key.name].holders;
      SetTermsAre(key.name, holders, term);
      InFindObjects(w.store, key.kind, key.name, SetOf(Entity(term.from.kind, id), term.from.name), x);
      assert Crossing(w, NodeOf(key, x), NodeOf(term.from, id));
    }
  }

  /** And every step forward to a declared type is pulled back by a term. */
  lemma StepIsPulled(w: World, key: Key, x: string, m: Node) returns (term: Term)
    requires Step(w, NodeOf(key, x), m) && m.entity.kind in w.types && Storable(x)
    ensures term in Terms(w, key) && term.from == Key(m.entity.kind, m.name) &&
            x in Pull(w, key.kind, term, m.entity.id)
  {
    var t := w.types[key.kind];
    var n := NodeOf(key, x);
    if NameStep(w, n, m) {
      var rule :| rule in t.permissions[key.name] && rule.NameRule? && rule.name == m.name && Passes(w.ctx, rule.test);
      term := Same(Key(key.kind, m.name));
      assert term in RuleTerms(w, key.kind, rule);
      RulesTermsAre(w, key.kind, t.permissions[key.name], term);
    } else if key.name in t.permissions {
      var rule :| rule in t.permissions[key.name] && rule.ArrowRule? && rule.target == m.name &&
        Passes(w.ctx, rule.test) && ArrowReaches(w, n.entity, rule.relation, m.entity);
      match t.relations[rule.relation] {
        case FromField(field, subject, _) =>
          term := Named(Key(subject, rule.target), field);
          InLookup(w, key.kind, field, m.entity.id, x);
        case Stored(holders) =>
          term := Held(Key(m.entity.kind, rule.target), rule.relation, None);
          TypeTermsAre(w.types, rule.relation, rule.target, holders, term);
          InFindObjects(w.store, key.kind, rule.relation, One(m.entity), x);
      }
      assert term in RuleTerms(w, key.kind, rule);
      RulesTermsAre(w, key.kind, t.permissions[key.name], term);
    } else {
      term := Held(Key(m.entity.kind, m.name), key.name, Some(m.name));
      SetTermsAre(key.name, t.relations[key.name].holders, term);
      InFindObjects(w.store, key.kind, key.name, SetOf(m.entity, m.name), x);
    }
  }
}
