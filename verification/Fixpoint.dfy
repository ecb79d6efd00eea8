/**
 * Why the rounds of `list()` end on the least fixpoint: each stays below what
 * is derivable, each holds what the one before held and one step more, and
 * one that changed nothing, or met no loop, holds everything.
 */
module Fixpoint {
  import opened Permissions
  import opened Rounds

  /** Key by key, `a` found no more than `b`. */
  ghost predicate Within(a: Found, b: Found) {
    forall key :: At(a, key) <= At(b, key)
  }

  /** Two rounds at the same place of the call tree, the second with more found. */
  ghost predicate InStep(a: Round, b: Round) {
    a.current.Keys == b.current.Keys && Within(a.current, b.current) && a.looped == b.looped
  }

  // ----- the call tree does not depend on what was found

  lemma RecordInStep(a: Round, b: Round, key: Key, x: set<string>, y: set<string>)
    requires InStep(a, b) && x <= y
    ensures InStep(a.(current := a.current[key := x]), b.(current := b.current[key := y]))
  {
    var c, d := a.current[key := x], b.current[key := y];
    forall k ensures At(c, k) <= At(d, k) {
      assert At(a.current, k) <= At(b.current, k);
    }
  }

  lemma {:induction false} ReachInStep(w: World, s: Subject, p: Found, q: Found, path: set<Key>, a: Round, b: Round,
                                       key: Key)
    requires Within(p, q) && InStep(a, b)
    ensures InStep(Reach(w, s, p, path, a, key).0, Reach(w, s, q, path, b, key).0)
    ensures Reach(w, s, p, path, a, key).1 <= Reach(w, s, q, path, b, key).1
    decreases Declared(w.types) - path, 0
  {
    if key in a.current {
      assert At(a.current, key) <= At(b.current, key);
    } else if key !in path && key in Declared(w.types) {
      GatherInStep(w, s, p, q, path + {key}, a, b, key.kind, Terms(w, key), Direct(w, s, key), Direct(w, s, key));
      var (a', x) := Gather(w, s, p, path + {key}, a, key.kind, Terms(w, key), Direct(w, s, key));
      var (b', y) := Gather(w, s, q, path + {key}, b, key.kind, Terms(w, key), Direct(w, s, key));
      RecordInStep(a', b', key, x, y);
    } else {
      RecordInStep(a, b, key, {}, {});
    }
  }

  lemma {:induction false} GatherInStep(w: World, s: Subject, p: Found, q: Found, path: set<Key>, a: Round, b: Round,
                                        kind: string, terms: seq<Term>, x: set<string>, y: set<string>)
    requires Within(p, q) && InStep(a, b) && x <= y
    ensures InStep(Gather(w, s, p, path, a, kind, terms, x).0, Gather(w, s, q, path, b, kind, terms, y).0)
    ensures Gather(w, s, p, path, a, kind, terms, x).1 <= Gather(w, s, q, path, b, kind, terms, y).1
    decreases Declared(w.types) - path, 1 + |terms|
  {
    if terms != [] {
      ReachInStep(w, s, p, q, path, a, b, terms[0].from);
      var (a', i) := Reach(w, s, p, path, a, terms[0].from);
      var (b', j) := Reach(w, s, q, path, b, terms[0].from);
      assert PullAll(w, kind, terms[0], i) <= PullAll(w, kind, terms[0], j);
      GatherInStep(w, s, p, q, path, a', b', kind, terms[1..],
                   x + PullAll(w, kind, terms[0], i), y + PullAll(w, kind, terms[0], j));
    }
  }

  /** Starting from more, a round reaches the same names and finds no less on any. */
  lemma RoundsInStep(w: World, s: Subject, p: Found, q: Found, key: Key)
    requires Within(p, q)
    ensures InStep(RoundOf(w, s, p, key).0, RoundOf(w, s, q, key).0)
  {
    ReachInStep(w, s, p, q, {}, START, START, key);
  }

  // ----- nothing is found that is not derivable

  ghost predicate SoundAt(w: World, s: Subject, key: Key, ids: set<string>) {
    forall id :: id in ids ==> Storable(id) && Derivable(w, s, NodeOf(key, id))
  }

  ghost predicate Sound(w: World, s: Subject, found: Found) {
    forall key :: SoundAt(w, s, key, At(found, key))
  }

  lemma RecordSound(w: World, s: Subject, found: Found, key: Key, ids: set<string>)
    requires Sound(w, s, found) && SoundAt(w, s, key, ids)
    ensures Sound(w, s, found[key := ids])
  {
    var more := found[key := ids];
    forall k ensures SoundAt(w, s, k, At(more, k)) {
      assert SoundAt(w, s, k, At(found, k));
    }
  }

  lemma DirectSound(w: World, s: Subject, key: Key)
    requires Kept(w)
    ensures SoundAt(w, s, key, Direct(w, s, key))
  {
    forall id | id in Direct(w, s, key) ensures Storable(id) && Derivable(w, s, NodeOf(key, id)) {
      DirectGrants(w, s, key, id);
      GrantDerivable(w, s, NodeOf(key, id));
    }
  }

  lemma PullSound(w: World, s: Subject, key: Key, term: Term, ids: set<string>)
    requires Kept(w) && term in Terms(w, key) && SoundAt(w, s, term.from, ids)
    ensures SoundAt(w, s, key, PullAll(w, key.kind, term, ids))
  {
    forall x | x in PullAll(w, key.kind, term, ids) ensures Storable(x) && Derivable(w, s, NodeOf(key, x)) {
      var id :| id in ids && x in Pull(w, key.kind, term, id);
      PullIsStep(w, key, term, id, x);
      StepDerivable(w, s, NodeOf(key, x), NodeOf(term.from, id));
    }
  }

  lemma {:induction false} ReachSound(w: World, s: Subject, p: Found, path: set<Key>, r: Round, key: Key)
    requires Kept(w) && Sound(w, s, p) && Sound(w, s, r.current)
    ensures Sound(w, s, Reach(w, s, p, path, r, key).0.current)
    ensures SoundAt(w, s, key, Reach(w, s, p, path, r, key).1)
    decreases Declared(w.types) - path, 0
  {
    assert SoundAt(w, s, key, At(r.current, key)) && SoundAt(w, s, key, At(p, key));
    if key !in r.current && key !in path && key in Declared(w.types) {
      DirectSound(w, s, key);
      GatherSound(w, s, p, path + {key}, r, key, Terms(w, key), Direct(w, s, key));
      var (r', x) := Gather(w, s, p, path + {key}, r, key.kind, Terms(w, key), Direct(w, s, key));
      RecordSound(w, s, r'.current, key, x);
    } else {
      RecordSound(w, s, r.current, key, {});
    }
  }

  lemma {:induction false} GatherSound(w: World, s: Subject, p: Found, path: set<Key>, r: Round,
                                       key: Key, terms: seq<Term>, found: set<string>)
    requires Kept(w) && Sound(w, s, p) && Sound(w, s, r.current)
    requires (forall t :: t in terms ==> t in Terms(w, key)) && SoundAt(w, s, key, found)
    ensures Sound(w, s, Gather(w, s, p, path, r, key.kind, terms, found).0.current)
    ensures SoundAt(w, s, key, Gather(w, s, p, path, r, key.kind, terms, found).1)
    decreases Declared(w.types) - path, 1 + |terms|
  {
    if terms != [] {
      ReachSound(w, s, p, path, r, terms[0].from);
      var (r', ids) := Reach(w, s, p, path, r, terms[0].from);
      PullSound(w, s, key, terms[0], ids);
      GatherSound(w, s, p, path, r', key, terms[1..], found + PullAll(w, key.kind, terms[0], ids));
    }
  }

  /** **Every round stays below the fixpoint.** */
  lemma RoundSound(w: World, s: Subject, p: Found, key: Key)
    requires Kept(w) && Sound(w, s, p)
    ensures Sound(w, s, RoundOf(w, s, p, key).0.current)
    ensures SoundAt(w, s, key, RoundOf(w, s, p, key).1)
  {
    ReachSound(w, s, p, {}, START, key);
  }

  // ----- what a round leaves at each name it reached

  /**
   * `ids`, found at a name of `kind`, hold what `term` leads to: from what
   * this round found, or, the term having met the path, from the round before.
   */
  ghost predicate Served(w: World, p: Found, path: set<Key>, r: Round, kind: string, term: Term, ids: set<string>) {
    || (term.from in r.current && PullAll(w, kind, term, r.current[term.from]) <= ids)
    || (r.looped && term.from in path + r.current.Keys && PullAll(w, kind, term, At(p, term.from)) <= ids)
    || term.from.kind !in w.types
  }

  ghost predicate ServedAt(w: World, s: Subject, p: Found, path: set<Key>, r: Round, key: Key) {
    key in r.current && Direct(w, s, key) <= r.current[key] &&
    forall term :: term in Terms(w, key) ==> Served(w, p, path, r, key.kind, term, r.current[key])
  }

  /** Every name found this round was served, and none of them is on the path. */
  ghost predicate Covered(w: World, s: Subject, p: Found, path: set<Key>, r: Round) {
    r.current.Keys !! path && forall key :: key in r.current ==> ServedAt(w, s, p, path, r, key)
  }

  /** `b` is `a` later: what was found stays as it was. */
  ghost predicate Later(a: Round, b: Round) {
    (a.looped ==> b.looped) && forall key :: key in a.current ==> key in b.current && b.current[key] == a.current[key]
  }

  /** What a name reached leaves: recorded, answered by the round before, or of no type declared. */
  ghost predicate Reached(w: World, p: Found, path: set<Key>, r: Round, key: Key, ids: set<string>) {
    || (key in r.current && ids == r.current[key])
    || (key in path && r.looped && ids == At(p, key))
    || (key.kind !in w.types && ids == {})
  }

  lemma {:induction false} ReachCovers(w: World, s: Subject, p: Found, path: set<Key>, r: Round, key: Key)
    requires Covered(w, s, p, path, r)
    ensures var (r', ids) := Reach(w, s, p, path, r, key);
            Later(r, r') && Covered(w, s, p, path, r') && Reached(w, p, path, r', key, ids)
    decreases Declared(w.types) - path, 0
  {
    hide Covered, Later, ServedAt, Served;
    LaterSame(r);
    if key in r.current {
    } else if key in path {
      CoveredLooped(w, s, p, path, r);
    } else if key.kind !in w.types {
    } else if key !in Declared(w.types) {
      UndeclaredCovers(w, s, p, path, r, key);
    } else {
      CoveredDeeper(w, s, p, path, r, key);
      GatherCovers(w, s, p, path + {key}, r, key.kind, Terms(w, key), Direct(w, s, key));
      var (m, found) := Gather(w, s, p, path + {key}, r, key.kind, Terms(w, key), Direct(w, s, key));
      RecordCovers(w, s, p, path, r, m, key, found);
    }
  }

  lemma LaterSame(r: Round)
    ensures Later(r, r) && Later(r, r.(looped := true))
  {
  }

  /** A name its type does not declare is found to hold nothing. */
  lemma UndeclaredCovers(w: World, s: Subject, p: Found, path: set<Key>, r: Round, key: Key)
    requires Covered(w, s, p, path, r) && key !in r.current && key !in path
    requires key.kind in w.types && key !in Declared(w.types)
    ensures var r' := r.(current := r.current[key := {}]); Later(r, r') && Covered(w, s, p, path, r')
  {
    var r' := r.(current := r.current[key := {}]);
    assert Terms(w, key) == [];
    assert ServedAt(w, s, p, path, r', key);
    CoveredLater(w, s, p, path, path, r, r', key);
  }

  /** A name is recorded once its terms are gathered, and comes off the path. */
  lemma RecordCovers(w: World, s: Subject, p: Found, path: set<Key>, r: Round, m: Round, key: Key, found: set<string>)
    requires key !in path && Later(r, m) && Covered(w, s, p, path + {key}, m) && Direct(w, s, key) <= found
    requires forall t :: t in Terms(w, key) ==> Served(w, p, path + {key}, m, key.kind, t, found)
    ensures var r' := m.(current := m.current[key := found]); Later(r, r') && Covered(w, s, p, path, r')
  {
    var r' := m.(current := m.current[key := found]);
    forall t | t in Terms(w, key) ensures Served(w, p, path, r', key.kind, t, found) {
      assert Served(w, p, path + {key}, m, key.kind, t, found);
    }
    CoveredLater(w, s, p, path + {key}, path, m, r', key);
  }

  /** Meeting the path changes nothing of what was found. */
  lemma CoveredLooped(w: World, s: Subject, p: Found, path: set<Key>, r: Round)
    requires Covered(w, s, p, path, r)
    ensures Covered(w, s, p, path, r.(looped := true))
  {
  }

  /** Going into `key` puts it on the path, and leaves what was found served. */
  lemma CoveredDeeper(w: World, s: Subject, p: Found, path: set<Key>, r: Round, key: Key)
    requires Covered(w, s, p, path, r) && key !in r.current
    ensures Covered(w, s, p, path + {key}, r)
  {
  }

  /** Recording `key` takes it off the path, and leaves every other name served. */
  lemma CoveredLater(w: World, s: Subject, p: Found, path: set<Key>, path': set<Key>, r: Round, r': Round, key: Key)
    requires Covered(w, s, p, path, r) && key !in r.current && key !in path' && path <= path' + {key} && path' <= path
    requires r'.current.Keys == r.current.Keys + {key} && Later(r, r')
    requires ServedAt(w, s, p, path', r', key)
    ensures Covered(w, s, p, path', r')
  {
  }

  lemma {:induction false} GatherCovers(w: World, s: Subject, p: Found, path: set<Key>, r: Round,
                                        kind: string, terms: seq<Term>, found: set<string>)
    requires Covered(w, s, p, path, r)
    ensures var (r', found') := Gather(w, s, p, path, r, kind, terms, found);
            Later(r, r') && Covered(w, s, p, path, r') && found <= found' &&
            forall t :: t in terms ==> Served(w, p, path, r', kind, t, found')
    decreases Declared(w.types) - path, 1 + |terms|
  {
    if terms != [] {
      ReachCovers(w, s, p, path, r, terms[0].from);
      var (m, ids) := Reach(w, s, p, path, r, terms[0].from);
      var more := found + PullAll(w, kind, terms[0], ids);
      assert Served(w, p, path, m, kind, terms[0], more);
      GatherCovers(w, s, p, path, m, kind, terms[1..], more);
      var (r', found') := Gather(w, s, p, path, m, kind, terms[1..], more);
      assert Served(w, p, path, r', kind, terms[0], found');
      forall t | t in terms ensures Served(w, p, path, r', kind, t, found') {
        if t != terms[0] { assert t in terms[1..]; }
      }
    }
  }

  lemma RoundCovers(w: World, s: Subject, p: Found, key: Key)
    ensures var (r, ids) := RoundOf(w, s, p, key);
            Covered(w, s, p, {}, r) &&
            (if key.kind in w.types then key in r.current && ids == r.current[key] else ids == {})
  {
    ReachCovers(w, s, p, {}, START, key);
  }

  // ----- a round that changed nothing holds everything

  /** Every step backwards from what was found is already found. */
  ghost predicate Closed(w: World, s: Subject, found: Found) {
    forall key :: key in found ==>
      Direct(w, s, key) <= found[key] &&
      forall term :: term in Terms(w, key) ==>
        term.from.kind !in w.types || (term.from in found && PullAll(w, key.kind, term, found[term.from]) <= found[key])
  }

  lemma StepKeepsStorable(w: World, n: Node, m: Node)
    requires Kept(w) && Step(w, n, m) && Storable(n.entity.id)
    ensures Storable(m.entity.id)
  {
  }

  lemma {:induction false} ClosedHasAll(w: World, s: Subject, found: Found, key: Key, id: string, c: seq<Node>)
    requires Kept(w) && Closed(w, s, found) && key in found && Storable(id)
    requires Derivation(w, s, NodeOf(key, id), c)
    ensures id in found[key]
    decreases |c|
  {
    if |c| == 1 {
      DirectGrants(w, s, key, id);
    } else {
      DropFirst(w, s, NodeOf(key, id), c);
      var m := c[1];
      assert Derivable(w, s, m);
      if m.entity.kind !in w.types { UndeclaredHoldsNothing(w, s, m); }
      StepKeepsStorable(w, c[0], m);
      var term := StepIsPulled(w, key, id, m);
      assert m == NodeOf(term.from, m.entity.id);
      ClosedHasAll(w, s, found, term.from, m.entity.id, c[1..]);
      assert id in PullAll(w, key.kind, term, found[term.from]);
    }
  }

  /** A round is final: it met no loop, or found what the round before did. */
  ghost predicate Settled(p: Found, r: Round) {
    !r.looped || forall key :: key in r.current ==> At(p, key) == r.current[key]
  }

  lemma SettledIsClosed(w: World, s: Subject, p: Found, r: Round)
    requires Covered(w, s, p, {}, r) && Settled(p, r)
    ensures Closed(w, s, r.current)
  {
  }

  /** **A settled round answers the least fixpoint**: the ids found are exactly the ids derivable. */
  lemma SettledIsLeast(w: World, s: Subject, p: Found, key: Key, id: string)
    requires Kept(w) && Sound(w, s, p) && Settled(p, RoundOf(w, s, p, key).0)
    ensures id in RoundOf(w, s, p, key).1 <==> Storable(id) && Derivable(w, s, NodeOf(key, id))
  {
    var (r, ids) := RoundOf(w, s, p, key);
    RoundSound(w, s, p, key);
    RoundCovers(w, s, p, key);
    if Storable(id) && Derivable(w, s, NodeOf(key, id)) {
      if key.kind !in w.types { UndeclaredHoldsNothing(w, s, NodeOf(key, id)); }
      SettledIsClosed(w, s, p, r);
      var c :| Derivation(w, s, NodeOf(key, id), c);
      ClosedHasAll(w, s, r.current, key, id, c);
    }
  }

  // ----- each round follows the derivations one step further

  /** At every name of `keys`, `found` holds what `k` nodes derive. */
  ghost predicate Holds(w: World, s: Subject, found: Found, keys: set<Key>, k: nat) {
    forall key, id :: key in keys && Storable(id) && DerivableWithin(w, s, NodeOf(key, id), k) ==> id in At(found, key)
  }

  /** A derivation of one node more than the round before held is found by this one. */
  lemma FoundOneFurther(w: World, s: Subject, p: Found, r: Round, at: Key, id: string, c: seq<Node>, k: nat)
    requires Kept(w) && Covered(w, s, p, {}, r) && Within(p, r.current) && Holds(w, s, p, r.current.Keys, k)
    requires at in r.current && Storable(id) && Derivation(w, s, NodeOf(at, id), c) && |c| <= k + 1
    ensures id in r.current[at]
  {
    assert ServedAt(w, s, p, {}, r, at);
    if |c| == 1 {
      DirectGrants(w, s, at, id);
    } else {
      DropFirst(w, s, NodeOf(at, id), c);
      var m := c[1];
      assert Derivable(w, s, m) && DerivableWithin(w, s, m, k) by { assert |c[1..]| <= k; }
      if m.entity.kind !in w.types { UndeclaredHoldsNothing(w, s, m); }
      StepKeepsStorable(w, c[0], m);
      var term := StepIsPulled(w, at, id, m);
      assert m == NodeOf(term.from, m.entity.id);
      assert Served(w, p, {}, r, at.kind, term, r.current[at]);
      assert At(p, term.from) <= At(r.current, term.from);
    }
  }

  lemma RoundGoesFurther(w: World, s: Subject, p: Found, key: Key, k: nat)
    requires Kept(w)
    requires var r := RoundOf(w, s, p, key).0; Within(p, r.current) && Holds(w, s, p, r.current.Keys, k)
    ensures var r := RoundOf(w, s, p, key).0; Holds(w, s, r.current, r.current.Keys, k + 1)
  {
    var r := RoundOf(w, s, p, key).0;
    RoundCovers(w, s, p, key);
    forall at, id | at in r.current && Storable(id) && DerivableWithin(w, s, NodeOf(at, id), k + 1)
      ensures id in At(r.current, at)
    {
      var c :| Derivation(w, s, NodeOf(at, id), c) && |c| <= k + 1;
      FoundOneFurther(w, s, p, r, at, id, c, k);
    }
  }

  lemma NoNodesDeriveNothing(w: World, s: Subject, found: Found, keys: set<Key>)
    ensures Holds(w, s, found, keys, 0)
  {
  }

  // ----- when the rounds are over

  /** What is found before the `n`-th round. */
  function RoundN(w: World, s: Subject, key: Key, n: nat): Found {
    if n == 0 then map[] else RoundOf(w, s, RoundN(w, s, key, n - 1), key).0.current
  }

  /** The names any round reaches, and whether it meets a loop: the same for all. */
  function ReachedNames(w: World, s: Subject, key: Key): set<Key> {
    RoundOf(w, s, map[], key).0.current.Keys
  }

  predicate Loops(w: World, s: Subject, key: Key) {
    RoundOf(w, s, map[], key).0.looped
  }

  /** Nothing derivable is left to find at any name of `keys`. */
  ghost predicate Complete(w: World, s: Subject, found: Found, keys: set<Key>) {
    forall at: Key, id: string :: at in keys && Storable(id) && Derivable(w, s, NodeOf(at, id)) ==> id in At(found, at)
  }

  /** **When `list()` is too deep**: some name loops, and `maxDepth` rounds leave something derivable to find. */
  ghost predicate TooDeep(w: World, s: Subject, key: Key, maxDepth: nat) {
    Loops(w, s, key) && !Complete(w, s, RoundN(w, s, key, maxDepth), ReachedNames(w, s, key))
  }

  /** Rounds only grow, stay below the fixpoint, and reach the same names. */
  lemma {:induction false} RoundNRises(w: World, s: Subject, key: Key, n: nat)
    requires Kept(w)
    ensures Within(RoundN(w, s, key, n), RoundN(w, s, key, n + 1)) && Sound(w, s, RoundN(w, s, key, n))
    ensures var r := RoundOf(w, s, RoundN(w, s, key, n), key).0;
            r.current.Keys == ReachedNames(w, s, key) && r.looped == Loops(w, s, key)
  {
    hide Reach;
    RoundsInStep(w, s, map[], RoundN(w, s, key, n), key);
    if n > 0 {
      RoundNRises(w, s, key, n - 1);
      RoundSound(w, s, RoundN(w, s, key, n - 1), key);
      RoundsInStep(w, s, RoundN(w, s, key, n - 1), RoundN(w, s, key, n), key);
    }
  }

  lemma {:induction false} RoundNWithin(w: World, s: Subject, key: Key, n: nat, m: nat)
    requires Kept(w) && n <= m
    ensures Within(RoundN(w, s, key, n), RoundN(w, s, key, m))
    decreases m
  {
    if n < m {
      RoundNWithin(w, s, key, n, m - 1);
      RoundNRises(w, s, key, m - 1);
    }
  }

  lemma {:induction false} RoundNHolds(w: World, s: Subject, key: Key, n: nat)
    requires Kept(w)
    ensures Holds(w, s, RoundN(w, s, key, n), ReachedNames(w, s, key), n)
  {
    if n == 0 {
      NoNodesDeriveNothing(w, s, map[], ReachedNames(w, s, key));
    } else {
      RoundNHolds(w, s, key, n - 1);
      RoundNRises(w, s, key, n - 1);
      RoundGoesFurther(w, s, RoundN(w, s, key, n - 1), key, n - 1);
    }
  }

  /** **A round is final exactly when no name loops, or the rounds before it found everything derivable.** */
  lemma SettledExactly(w: World, s: Subject, key: Key, n: nat)
    requires Kept(w)
    ensures Settled(RoundN(w, s, key, n), RoundOf(w, s, RoundN(w, s, key, n), key).0) <==>
            !Loops(w, s, key) || Complete(w, s, RoundN(w, s, key, n), ReachedNames(w, s, key))
  {
    var p := RoundN(w, s, key, n);
    var r := RoundOf(w, s, p, key).0;
    RoundNRises(w, s, key, n);
    hide Reach, RoundN;
    RoundSound(w, s, p, key);
    if Loops(w, s, key) && Settled(p, r) {
      RoundCovers(w, s, p, key);
      SettledIsClosed(w, s, p, r);
      forall at: Key, id: string | at in r.current && Storable(id) && Derivable(w, s, NodeOf(at, id))
        ensures id in At(p, at)
      {
        var c :| Derivation(w, s, NodeOf(at, id), c);
        ClosedHasAll(w, s, r.current, at, id, c);
      }
    }
    if Complete(w, s, p, ReachedNames(w, s, key)) {
      forall at | at in r.current ensures At(p, at) == r.current[at] {
        assert SoundAt(w, s, at, At(r.current, at));
        assert At(p, at) <= At(r.current, at);
      }
    }
  }

  /** Being too deep has an object behind it, of which every derivation is longer than `maxDepth` nodes. */
  lemma TooDeepIsLong(w: World, s: Subject, key: Key, maxDepth: nat) returns (at: Key, id: string)
    requires Kept(w) && TooDeep(w, s, key, maxDepth)
    ensures at in ReachedNames(w, s, key) && Storable(id)
    ensures Derivable(w, s, NodeOf(at, id)) && !DerivableWithin(w, s, NodeOf(at, id), maxDepth)
  {
    RoundNHolds(w, s, key, maxDepth);
    hide Reach, RoundN;
    at, id :| at in ReachedNames(w, s, key) && Storable(id) && Derivable(w, s, NodeOf(at, id)) &&
              id !in At(RoundN(w, s, key, maxDepth), at);
  }

  /** Once final, every later round would be: more rounds never make `list()` too deep. */
  lemma SettledForGood(w: World, s: Subject, key: Key, n: nat, maxDepth: nat)
    requires Kept(w) && n <= maxDepth && Settled(RoundN(w, s, key, n), RoundOf(w, s, RoundN(w, s, key, n), key).0)
    ensures !TooDeep(w, s, key, maxDepth)
  {
    SettledExactly(w, s, key, n);
    RoundNWithin(w, s, key, n, maxDepth);
    hide Reach, RoundN;
    if Loops(w, s, key) {
      var p, q := RoundN(w, s, key, n), RoundN(w, s, key, maxDepth);
      forall at: Key, id: string | at in ReachedNames(w, s, key) && Storable(id) && Derivable(w, s, NodeOf(at, id))
        ensures id in At(q, at)
      {
        assert At(p, at) <= At(q, at);
      }
    }
  }

  // ----- which names a round reaches

  /** One step backwards from `a` asks for `b`. */
  ghost predicate AsksFor(w: World, a: Key, b: Key) {
    exists term | term in Terms(w, a) :: term.from == b
  }

  /** Step by step backwards, from `key`. */
  ghost predicate IsLine(w: World, key: Key, c: seq<Key>) {
    |c| > 0 && c[0] == key && forall i :: 0 <= i < |c| - 1 ==> AsksFor(w, c[i], c[i + 1])
  }

  /** `at` is asked for on the way back from `key`, and its type is declared. */
  ghost predicate AskedFor(w: World, key: Key, at: Key) {
    at.kind in w.types && exists c :: IsLine(w, key, c) && c[|c| - 1] == at
  }

  lemma AskedAtOnce(w: World, key: Key)
    requires key.kind in w.types
    ensures AskedFor(w, key, key)
  {
    assert IsLine(w, key, [key]);
  }

  lemma AskedFurther(w: World, a: Key, term: Term, at: Key)
    requires term in Terms(w, a) && AskedFor(w, term.from, at)
    ensures AskedFor(w, a, at)
  {
    var c :| IsLine(w, term.from, c) && c[|c| - 1] == at;
    var d := [a] + c;
    assert AsksFor(w, a, d[1]);
    assert IsLine(w, a, d) by {
      forall i | 0 <= i < |d| - 1 ensures AsksFor(w, d[i], d[i + 1]) {
        if i > 0 { assert AsksFor(w, c[i - 1], c[i]); }
      }
    }
  }

  lemma {:induction false} ReachAsks(w: World, s: Subject, p: Found, path: set<Key>, r: Round, key: Key, at: Key)
    requires at in Reach(w, s, p, path, r, key).0.current && at !in r.current
    ensures AskedFor(w, key, at)
    decreases Declared(w.types) - path, 0
  {
    if at == key {
      AskedAtOnce(w, key);
    } else {
      GatherAsks(w, s, p, path + {key}, r, key, Terms(w, key), Direct(w, s, key), at);
    }
  }

  lemma {:induction false} GatherAsks(w: World, s: Subject, p: Found, path: set<Key>, r: Round, key: Key,
                                      terms: seq<Term>, found: set<string>, at: Key)
    requires at in Gather(w, s, p, path, r, key.kind, terms, found).0.current && at !in r.current
    requires forall t :: t in terms ==> t in Terms(w, key)
    ensures AskedFor(w, key, at)
    decreases Declared(w.types) - path, 1 + |terms|
  {
    var (r', ids) := Reach(w, s, p, path, r, terms[0].from);
    if at in r'.current {
      ReachAsks(w, s, p, path, r, terms[0].from, at);
      AskedFurther(w, key, terms[0], at);
    } else {
      GatherAsks(w, s, p, path, r', key, terms[1..], found + PullAll(w, key.kind, terms[0], ids), at);
    }
  }

  /** **The names a round reaches are exactly those asked for on the way back.** */
  lemma ReachedExactly(w: World, s: Subject, key: Key, at: Key)
    ensures at in ReachedNames(w, s, key) <==> AskedFor(w, key, at)
  {
    var r := RoundOf(w, s, map[], key).0;
    if at in r.current { ReachAsks(w, s, map[], {}, START, key, at); }
    if AskedFor(w, key, at) {
      var c :| IsLine(w, key, c) && c[|c| - 1] == at;
      RoundCovers(w, s, map[], key);
      hide Reach;
      LineIsReached(w, s, key, c, 0);
    }
  }

  lemma {:induction false} LineIsReached(w: World, s: Subject, key: Key, c: seq<Key>, i: nat)
    requires IsLine(w, key, c) && i < |c| && c[|c| - 1].kind in w.types
    requires Covered(w, s, map[], {}, RoundOf(w, s, map[], key).0)
    requires c[i].kind in w.types ==> c[i] in ReachedNames(w, s, key)
    ensures c[|c| - 1] in ReachedNames(w, s, key)
    decreases |c| - i
  {
    hide Reach;
    if i < |c| - 1 {
      assert AsksFor(w, c[i], c[i + 1]);
      var term :| term in Terms(w, c[i]) && term.from == c[i + 1];
      assert ServedAt(w, s, map[], {}, RoundOf(w, s, map[], key).0, c[i]);
      LineIsReached(w, s, key, c, i + 1);
    }
  }

  /** What a round has reached it keeps. */
  lemma {:induction false} ReachKeeps(w: World, s: Subject, p: Found, path: set<Key>, r: Round, key: Key)
    ensures r.current.Keys <= Reach(w, s, p, path, r, key).0.current.Keys
    decreases Declared(w.types) - path, 0
  {
    if key !in r.current && key !in path && key in Declared(w.types) {
      GatherKeeps(w, s, p, path + {key}, r, key.kind, Terms(w, key), Direct(w, s, key));
    }
  }

  lemma {:induction false} GatherKeeps(w: World, s: Subject, p: Found, path: set<Key>, r: Round, kind: string,
                                       terms: seq<Term>, found: set<string>)
    ensures r.current.Keys <= Gather(w, s, p, path, r, kind, terms, found).0.current.Keys
    decreases Declared(w.types) - path, 1 + |terms|
  {
    if terms != [] {
      var (r', ids) := Reach(w, s, p, path, r, terms[0].from);
      ReachKeeps(w, s, p, path, r, terms[0].from);
      GatherKeeps(w, s, p, path, r', kind, terms[1..], found + PullAll(w, kind, terms[0], ids));
    }
  }

  lemma SameSizeIsSame(a: set<string>, b: set<string>)
    requires a <= b && |a| == |b|
    ensures a == b
  {
    if x :| x in b && x !in a {
      SizeWithin(a, b - {x});
    }
  }

  lemma {:induction false} SizeWithin(a: set<string>, b: set<string>)
    requires a <= b
    ensures |a| <= |b|
  {
    if x :| x in a { SizeWithin(a - {x}, b - {x}); }
  }
}
