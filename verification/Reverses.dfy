/** `list()`: the objects a subject holds a name on, found backwards, by rounds. */
module Reverses {
  import opened Std
  import opened Order
  import opened Paging
  import opened Permissions
  import opened Rounds
  import opened Fixpoint
  import Walks

  type Error = Walks.Error

  /** The most ids one page of `findObjects` holds. */
  const MAX_PAGE_SIZE: nat := 100

  /** A permission one of whose rules is under a condition. */
  predicate Conditional(types: Model, key: Key) {
    key.kind in types && key.name in types[key.kind].permissions &&
    exists rule | rule in types[key.kind].permissions[key.name] :: rule.test.Some?
  }

  /** A relation that reads a field, and has no lookup. */
  predicate LacksLookup(types: Model, kind: string, relation: string) {
    kind in types && relation in types[kind].relations &&
    types[kind].relations[relation].FromField? && !types[kind].relations[relation].hasLookup
  }

  /** An arrow through such a relation, to an object on which the subject holds what it asks. */
  ghost predicate ArrowLacksLookup(w: World, s: Subject, kind: string, rule: Rule) {
    rule.ArrowRule? && Passes(w.ctx, rule.test) && LacksLookup(w.types, kind, rule.relation) &&
    exists id: string :: Storable(id) &&
      Derivable(w, s, Node(Entity(w.types[kind].relations[rule.relation].subject, id), rule.target))
  }

  /**
   * What asking this name throws: no `ctx` for a condition of its own rules, or
   * no lookup for the field it is to find the subject in, or to follow an arrow
   * back through from an object found.
   */
  ghost predicate Stops(w: World, s: Subject, at: Key, e: Error) {
    at.kind in w.types &&
    match e
    case NoContext => w.ctx.None? && Conditional(w.types, at)
    case NoLookup =>
      if at.name in w.types[at.kind].permissions then
        exists rule | rule in w.types[at.kind].permissions[at.name] :: ArrowLacksLookup(w, s, at.kind, rule)
      else
        LacksLookup(w.types, at.kind, at.name) && s.One? &&
        s.entity.kind == w.types[at.kind].relations[at.name].subject
    case _ => false
  }

  /** **Why finding backwards throws before the rounds run out**: a name asked for on the way back stops it. */
  ghost predicate Throws(w: World, s: Subject, key: Key, e: Error) {
    exists at :: AskedFor(w, key, at) && Stops(w, s, at, e)
  }

  ghost predicate StoppedAmong(w: World, s: Subject, keys: set<Key>, e: Error) {
    exists at :: at in keys && Stops(w, s, at, e)
  }

  lemma ReachedThrows(w: World, s: Subject, key: Key, e: Error)
    ensures StoppedAmong(w, s, ReachedNames(w, s, key), e) <==> Throws(w, s, key, e)
    ensures Throws(w, s, key, e) ==> e.NoContext? || e.NoLookup?
  {
    forall at ensures at in ReachedNames(w, s, key) <==> AskedFor(w, key, at) {
      ReachedExactly(w, s, key, at);
    }
  }

  class Reverse {
    const w: World
    const lookups: Lookups
    const maxDepth: nat
    const subject: Subject

    var previous: Found
    var current: Found
    var path: set<Key>
    var looped: bool

    /** The lookups are inverse to the fields, and nothing found is not derivable. */
    ghost predicate Fit()
      reads this`previous, this`current
    {
      Inverse(w, lookups) && Kept(w) && Sound(w, subject, previous) && Sound(w, subject, current)
    }

    ghost function Now(): Round
      reads this`current, this`looped
    {
      Round(current, looped)
    }

    constructor (w: World, lookups: Lookups, maxDepth: nat, subject: Subject)
      ensures this.w == w && this.lookups == lookups && this.maxDepth == maxDepth && this.subject == subject
      ensures previous == map[] && path == {}
    {
      this.w, this.lookups, this.maxDepth, this.subject := w, lookups, maxDepth, subject;
      previous, current, path, looped := map[], map[], {}, false;
    }

    /**
     * The ids of the objects of a type on which the subject holds a name.
     * **The answer is the least fixpoint**: exactly the ids derivable. **It is
     * too deep exactly when a name loops and `maxDepth` rounds leave something
     * to find**, and then some object of a name it reached has no derivation
     * of `maxDepth` nodes or fewer.
     */
    method Objects(key: Key) returns (r: Result<set<string>, Error>)
      requires Kept(w) && Inverse(w, lookups) && previous == map[] && path == {}
      modifies this
      ensures r.Ok? ==> forall id :: id in r.value <==> Storable(id) && Derivable(w, subject, NodeOf(key, id))
      ensures r.Ok? || r == Err(Walks.PermissionDepth) ==>
                (r == Err(Walks.PermissionDepth) <==> TooDeep(w, subject, key, maxDepth))
      ensures r == Err(Walks.PermissionDepth) ==>
                exists at: Key, id: string :: at in ReachedNames(w, subject, key) &&
                  Derivable(w, subject, NodeOf(at, id)) && !DerivableWithin(w, subject, NodeOf(at, id), maxDepth)
      ensures r.Err? && r.error != Walks.PermissionDepth ==> Throws(w, subject, key, r.error)
      ensures r.Ok? || r == Err(Walks.PermissionDepth) ==> !Throws(w, subject, key, Walks.NoContext)
    {
      hide Rounds.Reach, Settled, TooDeep, Stops, Sound, Throws, ReachedNames;
      NothingYet();
      for round := 0 to maxDepth + 1
        invariant path == {} && previous == RoundN(w, subject, key, round)
        invariant round > 0 ==> !Ended(key, round - 1) && !Throws(w, subject, key, Walks.NoContext)
      {
        current, looped := map[], false;
        ghost var p := previous;
        RoundNRises(w, subject, key, round);
        ReachedIs(key);
        var found := Reach(key);
        if found.Err? {
          ReachedThrows(w, subject, key, found.error);
          return found;
        }
        ReachedThrows(w, subject, key, Walks.NoContext);
        var same := Same();
        SettledBySame(p, Now(), same);
        if !looped || same {
          forall id ensures id in found.value <==> Storable(id) && Derivable(w, subject, NodeOf(key, id)) {
            SettledIsLeast(w, subject, p, key, id);
          }
          SettledForGood(w, subject, key, round, maxDepth);
          return found;
        }
        previous := current;
      }
      SettledExactly(w, subject, key, maxDepth);
      assert TooDeep(w, subject, key, maxDepth) by { NotEnded(key); }
      ghost var at, id := TooDeepIsLong(w, subject, key, maxDepth);
      return Err(Walks.PermissionDepth);
    }

    /** The name itself stops, or one found by the end of the round. */
    ghost predicate StoppedAt(key: Key, r: Round, e: Error) {
      StoppedAmong(w, subject, {key} + r.current.Keys, e)
    }

    /** What stops the first term stops the gathering of all. */
    lemma StoppedFirst(p: Found, path: set<Key>, r: Round, key: Key, term: Term, rest: seq<Term>, found: set<string>,
                       e: Error)
      requires StoppedAmong(w, subject, Rounds.Reach(w, subject, p, path, r, term.from).0.current.Keys, e)
      ensures StoppedAt(key, Gather(w, subject, p, path, r, key.kind, [term] + rest, found).0, e)
    {
      GatherFirst(w, subject, p, path, r, key.kind, term, rest, found);
      var (r', ids) := Rounds.Reach(w, subject, p, path, r, term.from);
      GatherKeeps(w, subject, p, path, r', key.kind, rest, found + PullAll(w, key.kind, term, ids));
    }

    /** What stops the first terms does, too. */
    lemma StoppedEarlier(p: Found, path: set<Key>, r: Round, key: Key, terms: seq<Term>, more: seq<Term>,
                         found: set<string>, e: Error)
      requires StoppedAt(key, Gather(w, subject, p, path, r, key.kind, terms, found).0, e)
      ensures StoppedAt(key, Gather(w, subject, p, path, r, key.kind, terms + more, found).0, e)
    {
      GatherMore(w, subject, p, path, r, key.kind, terms, more, found);
      var (r', found') := Gather(w, subject, p, path, r, key.kind, terms, found);
      GatherKeeps(w, subject, p, path, r', key.kind, more, found');
    }

    /** No name found so far stops for want of a `ctx`. */
    ghost predicate Untold(found: Found) {
      !StoppedAmong(w, subject, found.Keys, Walks.NoContext)
    }

    lemma NothingYet()
      ensures Sound(w, subject, map[]) && Untold(map[])
    {
    }

    lemma ReachedIs(key: Key)
      requires Kept(w)
      ensures forall n: nat :: RoundOf(w, subject, RoundN(w, subject, key, n), key).0.current.Keys ==
                               ReachedNames(w, subject, key)
      ensures forall p :: RoundOf(w, subject, p, key) == Rounds.Reach(w, subject, p, {}, START, key)
    {
      hide Rounds.Reach;
      forall n: nat { RoundNRises(w, subject, key, n); }
    }

    /** The `n`-th round is final. */
    ghost predicate Ended(key: Key, n: nat) {
      Settled(RoundN(w, subject, key, n), RoundOf(w, subject, RoundN(w, subject, key, n), key).0)
    }

    lemma NotEnded(key: Key)
      requires Kept(w) && !Ended(key, maxDepth)
      ensures TooDeep(w, subject, key, maxDepth)
    {
      SettledExactly(w, subject, key, maxDepth);
    }

    /** No name has more ids than in the round before. Comparing sizes is enough, since rounds only grow. */
    method Same() returns (b: bool)
      requires Within(previous, current)
      ensures b <==> forall key :: key in current ==> At(previous, key) == current[key]
    {
      var todo := current.Keys;
      while todo != {}
        invariant todo <= current.Keys
        invariant forall key :: key in current.Keys - todo ==> At(previous, key) == current[key]
      {
        var key :| key in todo;
        todo := todo - {key};
        assert At(previous, key) <= At(current, key);
        if |At(previous, key)| != |current[key]| { return false; }
        SameSizeIsSame(At(previous, key), current[key]);
      }
      return true;
    }

    /** The ids of the objects of `key.kind` on which the subject holds `key.name`. */
    method Reach(key: Key) returns (r: Result<set<string>, Error>)
      requires Fit() && Untold(current)
      modifies this`current, this`path, this`looped
      decreases Declared(w.types) - path, 3
      ensures path == old(path)
      ensures r.Ok? ==> (Now(), r.value) == Rounds.Reach(w, subject, previous, path, old(Now()), key)
      ensures r.Ok? ==> Fit() && SoundAt(w, subject, key, r.value) && Untold(current)
      ensures r.Err? ==>
                StoppedAmong(w, subject, Rounds.Reach(w, subject, previous, path, old(Now()), key).0.current.Keys,
                             r.error)
    {
      ReachSound(w, subject, previous, path, Now(), key);
      if key in current { return Ok(current[key]); }
      if key in path {
        looped := true;
        return Ok(At(previous, key));
      }
      if key.kind !in w.types { return Ok({}); }
      ghost var before := path;
      path := path + {key};
      if key.name in w.types[key.kind].permissions {
        assert key in Declared(w.types);
        r := PermissionOf(key);
      } else {
        if key.name in w.types[key.kind].relations {
          assert key in Declared(w.types);
        } else {
          assert Terms(w, key) == [] && Direct(w, subject, key) == {};
        }
        r := RelationOf(key);
      }
      path := path - {key};
      assert path == before;
      if r.Ok? { current := current[key := r.value]; }
      assert r.Ok? ==> Fit();
    }

    method RelationOf(key: Key) returns (r: Result<set<string>, Error>)
      requires Fit() && Untold(current) && key.kind in w.types && key.name !in w.types[key.kind].permissions
      modifies this`current, this`path, this`looped
      decreases Declared(w.types) - path, if key in Declared(w.types) then 4 else 2
      ensures path == old(path)
      ensures r.Ok? ==> (Now(), r.value) ==
                        Gather(w, subject, previous, path, old(Now()), key.kind, Terms(w, key), Direct(w, subject, key))
      ensures r.Ok? ==> Fit() && Untold(current) && !Stops(w, subject, key, Walks.NoContext)
      ensures r.Err? ==>
                StoppedAt(key, Gather(w, subject, previous, path, old(Now()), key.kind, Terms(w, key),
                                      Direct(w, subject, key)).0, r.error)
    {
      var t := w.types[key.kind];
      if key.name !in t.relations { return Ok({}); }
      var relation := t.relations[key.name];
      if relation.FromField? {
        if subject.SetOf? || subject.entity.kind != relation.subject { return Ok({}); }
        r := LookupOf(key.kind, key.name, subject.entity.id);
        return;
      }

      var found := {};
      if Admits(relation.holders, subject) {
        var ids := Holding(key.kind, key.name, subject);
        found := Set(ids);
      }
      assert found == Direct(w, subject, key);
      ghost var whole := Gather(w, subject, previous, path, Now(), key.kind, Terms(w, key), found);
      var holders := relation.holders;
      assert holders[0..] == holders;
      for i := 0 to |holders|
        invariant path == old(path) && Fit() && Untold(current)
        invariant whole == Gather(w, subject, previous, path, Now(), key.kind, SetTerms(key.name, holders[i..]), found)
      {
        var holder := holders[i];
        SetTermsFrom(key.name, holders, i);
        assert [] + SetTerms(key.name, holders[i + 1..]) == SetTerms(key.name, holders[i + 1..]);
        if holder.TypeHolder? { continue; }
        var from := Key(holder.kind, holder.relation);
        GatherFirst(w, subject, previous, path, Now(), key.kind, Held(from, key.name, Some(holder.relation)),
                    SetTerms(key.name, holders[i + 1..]), found);
        ghost var before := Now();
        var ids := Reach(from);
        if ids.Err? {
          StoppedFirst(previous, path, before, key, Held(from, key.name, Some(holder.relation)),
                       SetTerms(key.name, holders[i + 1..]), found, ids.error);
          return ids;
        }
        var more := Follow(key.kind, key.name, from, Some(holder.relation), ids.value);
        found := found + more;
      }
      return Ok(found);
    }

    method PermissionOf(key: Key) returns (r: Result<set<string>, Error>)
      requires Fit() && Untold(current) && key.kind in w.types && key.name in w.types[key.kind].permissions
      modifies this`current, this`path, this`looped
      decreases Declared(w.types) - path, 5
      ensures path == old(path)
      ensures r.Ok? ==> (Now(), r.value) ==
                        Gather(w, subject, previous, path, old(Now()), key.kind, Terms(w, key), Direct(w, subject, key))
      ensures r.Ok? ==> Fit() && Untold(current) && !Stops(w, subject, key, Walks.NoContext)
      ensures r.Err? ==>
                StoppedAt(key, Gather(w, subject, previous, path, old(Now()), key.kind, Terms(w, key),
                                      Direct(w, subject, key)).0, r.error)
    {
      var rules := w.types[key.kind].permissions[key.name];
      var found := {};
      ghost var whole := Gather(w, subject, previous, path, Now(), key.kind, Terms(w, key), found);
      assert rules[0..] == rules;
      for i := 0 to |rules|
        invariant path == old(path) && Fit() && Untold(current)
        invariant w.ctx.None? ==> forall j :: 0 <= j < i ==> rules[j].test.None?
        invariant whole == Gather(w, subject, previous, path, Now(), key.kind, RulesTerms(w, key.kind, rules[i..]),
                                  found)
      {
        var rule := rules[i];
        assert rules[i..][1..] == rules[i + 1..];
        GatherMore(w, subject, previous, path, Now(), key.kind, RuleTerms(w, key.kind, rule),
                   RulesTerms(w, key.kind, rules[i + 1..]), found);
        if rule.test.Some? {
          if w.ctx.None? {
            assert Stops(w, subject, key, Walks.NoContext);
            return Err(Walks.NoContext);
          }
          if rule.test.value !in w.ctx.value { continue; }
        }
        if rule.NameRule? {
          ghost var term := Term.Same(Key(key.kind, rule.name));
          GatherFirst(w, subject, previous, path, Now(), key.kind, term, [], found);
          assert RuleTerms(w, key.kind, rule) == [term] + [];
          ghost var before := Now();
          var ids := Reach(Key(key.kind, rule.name));
          if ids.Err? {
            StoppedFirst(previous, path, before, key, term, RulesTerms(w, key.kind, rules[i + 1..]), found, ids.error);
            return ids;
          }
          PullSame(w, key.kind, Key(key.kind, rule.name), ids.value);
          found := found + ids.value;
        } else {
          GatherOnto(w, subject, previous, path, Now(), key.kind, RuleTerms(w, key.kind, rule), found, {});
          assert found + {} == found;
          ghost var before := Now();
          var ids := Arrow(key, rule);
          if ids.Err? {
            StoppedEarlier(previous, path, before, key, RuleTerms(w, key.kind, rule),
                           RulesTerms(w, key.kind, rules[i + 1..]), found, ids.error);
            return ids;
          }
          found := found + ids.value;
        }
      }
      return Ok(found);
    }

    /** The objects of `key`'s type from which this arrow of its reaches one on which the subject holds the target. */
    method Arrow(key: Key, rule: Rule) returns (r: Result<set<string>, Error>)
      requires Fit() && Untold(current) && key.kind in w.types && key.name in w.types[key.kind].permissions
      requires rule in w.types[key.kind].permissions[key.name] && rule.ArrowRule? && Passes(w.ctx, rule.test)
      modifies this`current, this`path, this`looped
      decreases Declared(w.types) - path, 4
      ensures path == old(path)
      ensures r.Ok? ==> (Now(), r.value) ==
                        Gather(w, subject, previous, path, old(Now()), key.kind, RuleTerms(w, key.kind, rule), {})
      ensures r.Ok? ==> Fit() && Untold(current)
      ensures r.Err? ==>
                StoppedAt(key, Gather(w, subject, previous, path, old(Now()), key.kind,
                                      RuleTerms(w, key.kind, rule), {}).0, r.error)
    {
      var kind, relation, target := key.kind, rule.relation, rule.target;
      if relation !in w.types[kind].relations { return Ok({}); }
      var through := w.types[kind].relations[relation];
      if through.FromField? {
        var from := Key(through.subject, target);
        ghost var term := Named(from, through.field);
        GatherFirst(w, subject, previous, path, Now(), kind, term, [], {});
        assert [term] + [] == [term];
        ghost var before := Now();
        var ids := Reach(from);
        if ids.Err? {
          StoppedFirst(previous, path, before, key, term, [], {}, ids.error);
          return ids;
        }
        var found := FollowField(kind, relation, from, ids.value);
        assert found.Ok? ==> {} + found.value == found.value;
        if found.Err? { ArrowStops(key, rule, ids.value); }
        return found;
      }
      var found := {};
      ghost var whole := Gather(w, subject, previous, path, Now(), kind,
                                ArrowTerms(w.types, w.types[kind], relation, target), {});
      var holders := through.holders;
      assert holders[0..] == holders;
      for i := 0 to |holders|
        invariant path == old(path) && Fit() && Untold(current)
        invariant whole == Gather(w, subject, previous, path, Now(), kind,
                                  TypeTerms(w.types, relation, target, holders[i..]), found)
      {
        var holder := holders[i];
        TypeTermsFrom(w.types, relation, target, holders, i);
        assert [] + TypeTerms(w.types, relation, target, holders[i + 1..]) ==
                 TypeTerms(w.types, relation, target, holders[i + 1..]);
        // Subject sets and undeclared types are no targets.
        if holder.SetHolder? || holder.kind !in w.types { continue; }
        var from := Key(holder.kind, target);
        GatherFirst(w, subject, previous, path, Now(), kind, Held(from, relation, None),
                    TypeTerms(w.types, relation, target, holders[i + 1..]), found);
        ghost var before := Now();
        var ids := Reach(from);
        if ids.Err? {
          StoppedFirst(previous, path, before, key, Held(from, relation, None),
                       TypeTerms(w.types, relation, target, holders[i + 1..]), found, ids.error);
          return ids;
        }
        var more := Follow(kind, relation, from, None, ids.value);
        found := found + more;
      }
      return Ok(found);
    }

    /** An arrow without a lookup, and something to follow it back from. */
    lemma ArrowStops(key: Key, rule: Rule, ids: set<string>)
      requires key.kind in w.types && key.name in w.types[key.kind].permissions
      requires rule in w.types[key.kind].permissions[key.name] && rule.ArrowRule? && Passes(w.ctx, rule.test)
      requires LacksLookup(w.types, key.kind, rule.relation) && ids != {}
      requires SoundAt(w, subject, Key(w.types[key.kind].relations[rule.relation].subject, rule.target), ids)
      ensures Stops(w, subject, key, Walks.NoLookup)
    {
      var id :| id in ids;
      assert ArrowLacksLookup(w, subject, key.kind, rule);
    }

    /** The objects of `kind` whose `relation` is held by what was found at `from`, one id at a time. */
    method Follow(kind: string, relation: string, from: Key, relationName: Option<string>, ids: set<string>)
      returns (found: set<string>)
      ensures found == PullAll(w, kind, Held(from, relation, relationName), ids)
    {
      found := {};
      ghost var term := Held(from, relation, relationName);
      var todo := ids;
      while todo != {}
        invariant todo <= ids && found == PullAll(w, kind, term, ids - todo)
      {
        var id :| id in todo;
        var objects := Holding(kind, relation, Via(from, id, relationName));
        PullOneMore(w, kind, term, ids - todo, id);
        assert ids - (todo - {id}) == (ids - todo) + {id};
        todo := todo - {id};
        found := found + Set(objects);
      }
      assert ids - {} == ids;
    }

    /** The objects of `kind` whose field names what was found at `from`, one id at a time. */
    method FollowField(kind: string, relation: string, from: Key, ids: set<string>)
      returns (r: Result<set<string>, Error>)
      requires Inverse(w, lookups)
      requires kind in w.types && relation in w.types[kind].relations && w.types[kind].relations[relation].FromField?
      ensures r.Ok? ==> r.value == PullAll(w, kind, Named(from, w.types[kind].relations[relation].field), ids)
      ensures r.Err? <==> LacksLookup(w.types, kind, relation) && ids != {}
      ensures r.Err? ==> r.error == Walks.NoLookup
    {
      var found := {};
      ghost var term := Named(from, w.types[kind].relations[relation].field);
      var todo := ids;
      while todo != {}
        invariant todo <= ids && found == PullAll(w, kind, term, ids - todo)
        invariant todo != ids ==> !LacksLookup(w.types, kind, relation)
      {
        var id :| id in todo;
        var objects := LookupOf(kind, relation, id);
        if objects.Err? { return objects; }
        PullOneMore(w, kind, term, ids - todo, id);
        assert ids - (todo - {id}) == (ids - todo) + {id};
        todo := todo - {id};
        found := found + objects.value;
      }
      assert ids - {} == ids;
      return Ok(found);
    }

    /** What `findObjects` holds in all, read one page after another. */
    method Holding(kind: string, relation: string, s: Subject) returns (ids: seq<string>)
      ensures Set(ids) == FindObjects(w.store, kind, relation, s)
    {
      var found := FindObjects(w.store, kind, relation, s);
      ids := ReadEveryPage(Sorted(found), MAX_PAGE_SIZE);
      SetOfSorted(found);
    }

    /** Asks the caller's lookup for `id`, and keeps what a store could keep. */
    method LookupOf(kind: string, relation: string, id: string) returns (r: Result<set<string>, Error>)
      requires Inverse(w, lookups)
      requires kind in w.types && relation in w.types[kind].relations && w.types[kind].relations[relation].FromField?
      ensures r.Ok? <==> w.types[kind].relations[relation].hasLookup
      ensures r.Ok? ==> r.value == Lookup(w, kind, w.types[kind].relations[relation].field, id)
      ensures r.Err? ==> r.error == Walks.NoLookup
    {
      if !w.types[kind].relations[relation].hasLookup { return Err(Walks.NoLookup); }
      var answered := Answered(lookups, kind, relation, id);
      var ids := set x | x in answered && Storable(x);
      forall x ensures x in ids <==> x in Lookup(w, kind, w.types[kind].relations[relation].field, id) {
        InLookup(w, kind, w.types[kind].relations[relation].field, id, x);
        assert Entity(kind, x).id == x;
      }
      return Ok(ids);
    }
  }

  /** Comparing sizes, and the flag, tells whether a round is final. */
  lemma SettledBySame(p: Found, r: Round, same: bool)
    requires same <==> forall key :: key in r.current ==> At(p, key) == r.current[key]
    ensures !r.looped || same <==> Settled(p, r)
  {
  }

  /** `list()`, once what was passed is read: one page of what is found, nothing for a subject no store keeps. */
  method List(w: World, lookups: Lookups, maxDepth: nat, s: Subject, name: string, kind: string,
              after: Option<string>, limit: nat)
    returns (r: Result<Page, Error>, ghost ids: set<string>)
    requires Kept(w) && Inverse(w, lookups) && limit >= 1
    ensures r.Ok? ==> r.value == PageOf(ids, after, limit)
    ensures r.Ok? ==> forall id :: id in ids <==>
                        Storable(s.entity.id) && Storable(id) && Derivable(w, s, Node(Entity(kind, id), name))
    ensures r.Ok? || r == Err(Walks.PermissionDepth) ==>
              (r == Err(Walks.PermissionDepth) <==> Storable(s.entity.id) && TooDeep(w, s, Key(kind, name), maxDepth))
    ensures r == Err(Walks.PermissionDepth) ==>
              exists at: Key, id: string :: at in ReachedNames(w, s, Key(kind, name)) &&
                Derivable(w, s, NodeOf(at, id)) && !DerivableWithin(w, s, NodeOf(at, id), maxDepth)
    ensures r.Err? && r.error != Walks.PermissionDepth ==> Throws(w, s, Key(kind, name), r.error)
    ensures Storable(s.entity.id) && (r.Ok? || r == Err(Walks.PermissionDepth)) ==>
              !Throws(w, s, Key(kind, name), Walks.NoContext)
  {
    if !Storable(s.entity.id) {
      ids := {};
      return Ok(Page([], None)), ids;
    }
    var reverse := new Reverse(w, lookups, maxDepth, s);
    var found := reverse.Objects(Key(kind, name));
    if found.Err? { return Err(found.error), {}; }
    ids := found.value;
    return Ok(PageOf(found.value, after, limit)), ids;
  }

  /**
   * **`list()` is `can()` over every object.** Whenever neither throws, an id
   * is among those `list` pages through exactly when `can` grants it: on every
   * model, store and subject, tuples the model does not admit included.
   */
  method ListAgreesWithCan(w: World, lookups: Lookups, maxDepth: nat, s: Subject, name: string, kind: string,
                           after: Option<string>, limit: nat, id: string)
    returns (listed: Result<Page, Error>, ghost ids: set<string>, can: Walks.Answer)
    requires Kept(w) && Inverse(w, lookups) && Resolved(w.types) && limit >= 1
    ensures listed.Ok? ==> listed.value == PageOf(ids, after, limit)
    ensures listed.Ok? ==> forall x :: x in ids <==>
                             Storable(s.entity.id) && Storable(x) && Derivable(w, s, Node(Entity(kind, x), name))
    ensures listed.Ok? && !can.Threw? ==> (id in ids <==> can == Walks.Granted)
  {
    listed, ids := List(w, lookups, maxDepth, s, name, kind, after, limit);
    can := Walks.Can(w, maxDepth, s, name, Entity(kind, id));
  }
}
