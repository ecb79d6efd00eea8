/**
 * What each side's depth bounds: `can()` counts the relations it crosses,
 * `list()` its rounds. On a tree of folders viewable through their parents
 * `list()` is too deep first, on a ladder of types joined by arrows `can()`.
 * A `maxDepth` of 0 is refused when a model is bound; what is said holds of
 * it too.
 */
module Depth {
  import opened Std
  import opened Paging
  import opened Permissions
  import opened Rounds
  import opened Fixpoint
  import opened Reverses
  import Walks

  const FOLDER := ObjectType(
    map["parent" := Stored([TypeHolder("folder")]), "viewer" := Stored([TypeHolder("user")])],
    map["view" := [NameRule("viewer", None), ArrowRule("parent", "view", None)]])

  const USER := One(Entity("user", "u"))
  const VIEW := Key("folder", "view")
  const VIEWER := Key("folder", "viewer")

  /** The folder `i` levels below the root. */
  function FolderId(i: nat): (id: string)
    ensures |id| == i + 1 && '\0' !in id
  {
    seq(i + 1, _ => 'f')
  }

  function Folder(i: nat): Entity {
    Entity("folder", FolderId(i))
  }

  function Parents(depth: nat): set<Tuple> {
    set i | 0 <= i < depth :: Tuple(Folder(i + 1), "parent", One(Folder(i)))
  }

  /** Folders one below the other, `depth` parents in all; the user views the root. */
  function Tree(depth: nat): World {
    World(map["folder" := FOLDER], Parents(depth) + {Tuple(Folder(0), "viewer", USER)}, map[], None)
  }

  lemma InTree(depth: nat, t: Tuple)
    ensures t in Tree(depth).store <==>
            t == Tuple(Folder(0), "viewer", USER) ||
            exists i: nat :: i < depth && t == Tuple(Folder(i + 1), "parent", One(Folder(i)))
  {
  }

  lemma TreeIsKept(depth: nat)
    ensures Kept(Tree(depth)) && Inverse(Tree(depth), map[])
  {
  }

  /** A model that reads no field at all is resolved, once its names are told apart. */
  ghost predicate ReadsNothing(types: Model) {
    forall kind, r :: kind in types && r in types[kind].relations ==> types[kind].relations[r].Stored?
  }

  lemma {:induction false} NoFieldWithin(types: Model, kind: string, name: string, n: nat)
    requires ReadsNothing(types)
    ensures !ReadsWithin(types, kind, name, n)
    decreases n
  {
    if n > 0 {
      var less: nat := n - 1;
      forall other ensures !ReadsWithin(types, kind, other, less) {
        NoFieldWithin(types, kind, other, less);
      }
    }
  }

  lemma NoFieldRead(types: Model, kind: string, name: string)
    requires ReadsNothing(types)
    ensures !ReadsField(types, kind, name)
  {
    forall n: nat ensures !ReadsWithin(types, kind, name, n) {
      NoFieldWithin(types, kind, name, n);
    }
  }

  lemma TreeIsResolved(depth: nat)
    ensures Resolved(Tree(depth).types)
  {
    forall kind, name ensures !ReadsField(Tree(depth).types, kind, name) {
      NoFieldRead(Tree(depth).types, kind, name);
    }
  }

  // ----- what a round finds

  lemma TreeTerms(depth: nat)
    ensures Terms(Tree(depth), VIEW) == [Same(VIEWER), Held(VIEW, "parent", None)] && Terms(Tree(depth), VIEWER) == []
    ensures VIEW in Declared(Tree(depth).types) && VIEWER in Declared(Tree(depth).types)
  {
    var w := Tree(depth);
    var rules, arrow := FOLDER.permissions["view"], ArrowRule("parent", "view", None);
    assert rules[1..] == [arrow] && [arrow][1..] == [];
    var holders, user := [TypeHolder("folder")], [TypeHolder("user")];
    assert holders[1..] == [] && user[1..] == [];
    assert "folder" in w.types && FOLDER.relations["parent"] == Stored(holders);
    assert TypeTerms(w.types, "parent", "view", holders) ==
             [Held(VIEW, "parent", None)] + TypeTerms(w.types, "parent", "view", []);
    assert ArrowTerms(w.types, FOLDER, "parent", "view") == [Held(VIEW, "parent", None)];
    assert RulesTerms(w, "folder", [arrow]) == [Held(VIEW, "parent", None)];
    assert SetTerms("viewer", user) == [];
  }

  lemma TreeDirect(depth: nat)
    ensures Direct(Tree(depth), USER, VIEW) == {} && Direct(Tree(depth), USER, VIEWER) == {FolderId(0)}
  {
    var w := Tree(depth);
    forall id ensures id in FindObjects(w.store, "folder", "viewer", USER) <==> id == FolderId(0) {
      InFindObjects(w.store, "folder", "viewer", USER, id);
    }
    assert FOLDER.relations["viewer"] == Stored([TypeHolder("user")]) && TypeHolder("user") in [TypeHolder("user")];
    assert Admits([TypeHolder("user")], USER);
  }

  /** The children of what the round before found, and the root. */
  function NextLevel(depth: nat, p: Found): set<string> {
    {FolderId(0)} + PullAll(Tree(depth), "folder", Held(VIEW, "parent", None), At(p, VIEW))
  }

  /** One round finds one level more, and meets its own name. */
  lemma TreeRound(depth: nat, p: Found)
    ensures var r := RoundOf(Tree(depth), USER, p, VIEW).0;
            r.looped && r.current == map[VIEWER := {FolderId(0)}, VIEW := NextLevel(depth, p)]
  {
    var w := Tree(depth);
    var root := {FolderId(0)};
    TreeTerms(depth);
    TreeDirect(depth);
    assert "folder" in w.types;
    hide Tree, Terms, Direct, Declared, PullAll, FolderId;
    var viewed := Round(map[VIEWER := root], false);
    var parent := Held(VIEW, "parent", None);
    assert {} + {VIEW} == {VIEW} && [Same(VIEWER)] + [parent] == [Same(VIEWER), parent] && [parent] + [] == [parent];
    assert {} + root == root;
    assert Reach(w, USER, p, {VIEW}, START, VIEWER) == (viewed, root);
    assert Reach(w, USER, p, {VIEW}, viewed, VIEW) == (viewed.(looped := true), At(p, VIEW));
    GatherFirst(w, USER, p, {VIEW}, START, "folder", Same(VIEWER), [Held(VIEW, "parent", None)], {});
    PullSame(w, "folder", VIEWER, root);
    GatherFirst(w, USER, p, {VIEW}, viewed, "folder", Held(VIEW, "parent", None), [], root);
  }

  // ----- when `list()` is too deep

  /** The folders of the first `n` levels. */
  function Levels(n: nat): set<string> {
    set i: nat | i < n :: FolderId(i)
  }

  lemma InLevels(n: nat, i: nat)
    ensures FolderId(i) in Levels(n) <==> i < n
  {
  }

  function Min(a: nat, b: nat): nat {
    if a < b then a else b
  }

  lemma OneLevelMore(depth: nat, n: nat, p: Found)
    requires At(p, VIEW) == Levels(n)
    ensures NextLevel(depth, p) == Levels(1 + Min(n, depth))
  {
    var w, parent := Tree(depth), Held(VIEW, "parent", None);
    hide FolderId;
    forall x ensures x in NextLevel(depth, p) <==> x in Levels(1 + Min(n, depth)) {
      forall i: nat | i < n ensures x in Pull(w, "folder", parent, FolderId(i)) <==> i < depth && x == FolderId(i + 1) {
        InFindObjects(w.store, "folder", "parent", One(Folder(i)), x);
        InTree(depth, Tuple(Entity("folder", x), "parent", One(Folder(i))));
        forall j: nat | Folder(j) == Folder(i) ensures j == i { assert |FolderId(j)| == |FolderId(i)|; }
      }
      if x in Levels(1 + Min(n, depth)) {
        var i: nat :| i < 1 + Min(n, depth) && x == FolderId(i);
        if i > 0 { assert FolderId(i - 1) in Levels(n) && x in Pull(w, "folder", parent, FolderId(i - 1)); }
      }
      if x in PullAll(w, "folder", parent, Levels(n)) {
        var i: nat :| i < n && x in Pull(w, "folder", parent, FolderId(i));
        assert x == FolderId(i + 1);
      }
    }
  }

  lemma {:induction false} TreeRoundN(depth: nat, n: nat)
    ensures At(RoundN(Tree(depth), USER, VIEW, n), VIEW) == Levels(Min(n, depth + 1))
    ensures n > 0 ==>
              RoundN(Tree(depth), USER, VIEW, n) == map[VIEWER := {FolderId(0)}, VIEW := Levels(Min(n, depth + 1))]
  {
    hide Tree, RoundOf, Levels, FolderId, NextLevel;
    if n > 0 {
      TreeRoundN(depth, n - 1);
      TreeRound(depth, RoundN(Tree(depth), USER, VIEW, n - 1));
      OneLevelMore(depth, Min(n - 1, depth + 1), RoundN(Tree(depth), USER, VIEW, n - 1));
    } else {
      NoLevels();
    }
  }

  lemma NoLevels()
    ensures Levels(0) == {}
  {
  }

  /** Every folder of the tree is viewable. */
  lemma TreeIsViewed(depth: nat, i: nat)
    requires i <= depth
    ensures Storable(FolderId(i)) && Derivable(Tree(depth), USER, Node(Folder(i), "view"))
  {
    TreeIsKept(depth);
    TreeRoundN(depth, depth + 1);
    RoundNRises(Tree(depth), USER, VIEW, depth + 1);
    InLevels(depth + 1, i);
    hide Tree, RoundN, Levels, RoundOf;
    assert SoundAt(Tree(depth), USER, VIEW, At(RoundN(Tree(depth), USER, VIEW, depth + 1), VIEW));
  }

  /** **`list()` is too deep on a tree exactly when `maxDepth` is no more than its depth.** */
  lemma TreeTooDeep(depth: nat, maxDepth: nat)
    ensures TooDeep(Tree(depth), USER, VIEW, maxDepth) <==> maxDepth <= depth
  {
    TreeIsKept(depth);
    TreeRound(depth, map[]);
    if maxDepth <= depth { DeepestIsLeft(depth, maxDepth); } else { NoneIsLeft(depth, maxDepth); }
  }

  lemma DeepestIsLeft(depth: nat, maxDepth: nat)
    requires maxDepth <= depth && VIEW in ReachedNames(Tree(depth), USER, VIEW)
    ensures !Complete(Tree(depth), USER, RoundN(Tree(depth), USER, VIEW, maxDepth),
                      ReachedNames(Tree(depth), USER, VIEW))
  {
    TreeRoundN(depth, maxDepth);
    TreeIsViewed(depth, maxDepth);
    InLevels(maxDepth, maxDepth);
    hide Tree, RoundN, Levels, FolderId, ReachedNames, Derivable, Storable;
    assert Folder(maxDepth) == Entity("folder", FolderId(maxDepth));
    assert NodeOf(VIEW, FolderId(maxDepth)) == Node(Folder(maxDepth), "view");
  }

  lemma NoneIsLeft(depth: nat, maxDepth: nat)
    requires maxDepth > depth && Kept(Tree(depth))
    ensures !TooDeep(Tree(depth), USER, VIEW, maxDepth)
  {
    TreeRoundN(depth, maxDepth);
    TreeRoundN(depth, maxDepth + 1);
    SettledForGood(Tree(depth), USER, VIEW, maxDepth, maxDepth);
  }

  // ----- and how far `can()` goes

  /** A crossing goes up one parent. */
  lemma TreeCrossing(depth: nat, n: Node, m: Node) returns (i: nat)
    requires Crossing(Tree(depth), n, m)
    ensures i < depth && n.entity == Folder(i + 1) && m.entity == Folder(i)
  {
    var w := Tree(depth);
    var t := Tuple(n.entity, "parent", One(m.entity));
    assert n.entity.kind == "folder";
    assert t in w.store;
    InTree(depth, t);
    i :| i < depth && t == Tuple(Folder(i + 1), "parent", One(Folder(i)));
  }

  lemma {:induction false} TreeTrail(depth: nat, t: seq<Hop>) returns (i: nat)
    requires IsTrail(Tree(depth), t)
    ensures t[0].left <= i <= depth && (i > 0 ==> t[0].node.entity == Folder(i))
    decreases |t|
  {
    hide FolderId;
    if |t| == 1 {
      i := 0;
    } else {
      var rest := t[1..];
      assert IsTrail(Tree(depth), rest);
      i := TreeTrail(depth, rest);
      if t[0].left == rest[0].left + 1 {
        var j := TreeCrossing(depth, t[0].node, t[1].node);
        assert |FolderId(j)| == j + 1;
        if i > 0 { assert |FolderId(i)| == i + 1; }
        i := j + 1;
      }
    }
  }

  /** **Nothing on a tree crosses more relations than it is deep.** */
  lemma TreeCrossesNoMore(depth: nat, n: Node, path: set<Node>)
    ensures !Crosses(Tree(depth), n, path, depth + 1)
  {
    var over := depth + 1;
    forall m ensures !TrailTo(Tree(depth), n, path, over, m) {
      if TrailTo(Tree(depth), n, path, over, m) {
        var t: seq<Hop> :| IsTrail(Tree(depth), t) && Simple(t, path) && t[0] == Hop(n, over) && t[|t| - 1].node == m;
        var i := TreeTrail(depth, t);
      }
    }
  }

  /** At its smallest: a folder viewed, one folder below it, and `maxDepth` 1. */
  lemma TooDeepAtOne()
    ensures TooDeep(Tree(1), USER, VIEW, 1) && forall n :: !Crosses(Tree(1), n, {}, 2)
  {
    TreeTooDeep(1, 1);
    hide TooDeep, Tree, Crosses;
    forall n ensures !Crosses(Tree(1), n, {}, 2) {
      TreeCrossesNoMore(1, n, {});
    }
  }

  /**
   * **`list()` refuses a tree as deep as `maxDepth`, of which `can()` answers
   * every folder**: the walk crosses `maxDepth` relations and no more, and
   * the last round still has the deepest folder to find.
   */
  method ListRefusesATree(maxDepth: nat, i: nat, after: Option<string>, limit: nat)
    returns (listed: Result<Page, Error>, can: Walks.Answer)
    requires i <= maxDepth && limit >= 1
    ensures listed == Err(Walks.PermissionDepth) && can == Walks.Granted
  {
    hide Tree, TooDeep, Derivable, DerivableWithin, Crosses, GrantsAcross, TrailTo, Kept, Inverse, Resolved, Throws,
      Walks.MeetsFault, Walks.ComesOf, Grants,
      PageOf, Storable, Walks.Unreadable, Walks.MeetsCondition, FolderId, ReachedNames;
    var w := Tree(maxDepth);
    TreeIsKept(maxDepth);
    TreeIsResolved(maxDepth);
    TreeTooDeep(maxDepth, maxDepth);
    TreeIsViewed(maxDepth, i);
    TreeCrossesNoMore(maxDepth, Node(Folder(i), "view"), {});
    TreeThrowsNothing(maxDepth, Folder(i));
    ghost var ids;
    listed, ids := List(w, map[], maxDepth, USER, "view", "folder", after, limit);
    can := Walks.Can(w, maxDepth, USER, "view", Folder(i));
  }

  /** No field to read, no lookup to lack, no condition to meet. */
  lemma TreeThrowsNothing(depth: nat, e: Entity)
    ensures !Walks.Unreadable(Tree(depth), e) && (forall n :: !Walks.MeetsCondition(Tree(depth).types, n))
    ensures (forall key, error :: !Throws(Tree(depth), USER, key, error)) && Storable(USER.entity.id)
  {
  }

  // ----- and the other way

  /** The type `i` rungs above the lowest. */
  function RungKind(i: nat): (kind: string)
    ensures |kind| == i + 1
  {
    seq(i + 1, _ => 'r')
  }

  /** The lowest rung is viewed by users, every other through the one below it. */
  function RungType(i: nat): ObjectType {
    if i == 0 then ObjectType(map["view" := Stored([TypeHolder("user")])], map[])
    else ObjectType(map["parent" := Stored([TypeHolder(RungKind(i - 1))])],
                    map["view" := [ArrowRule("parent", "view", None)]])
  }

  function RungKinds(height: nat): set<string> {
    set i: nat | i <= height :: RungKind(i)
  }

  function Rung(i: nat): Entity {
    Entity(RungKind(i), "x")
  }

  function RungKey(i: nat): Key {
    Key(RungKind(i), "view")
  }

  function RungNode(i: nat): Node {
    Node(Rung(i), "view")
  }

  function Rungs(height: nat): set<Tuple> {
    set i | 0 <= i < height :: Tuple(Rung(i + 1), "parent", One(Rung(i)))
  }

  /** Types joined by `height` arrows, no name of which loops; the user views the lowest object. */
  function Ladder(height: nat): World {
    World(map kind | kind in RungKinds(height) :: RungType(|kind| - 1),
          Rungs(height) + {Tuple(Rung(0), "view", USER)}, map[], None)
  }

  lemma OnLadder(height: nat, i: nat)
    ensures RungKind(i) in Ladder(height).types <==> i <= height
    ensures i <= height ==> Ladder(height).types[RungKind(i)] == RungType(i)
  {
  }

  lemma InLadder(height: nat, t: Tuple)
    ensures t in Ladder(height).store <==>
            t == Tuple(Rung(0), "view", USER) ||
            exists i: nat :: i < height && t == Tuple(Rung(i + 1), "parent", One(Rung(i)))
  {
  }

  lemma LadderIsKept(height: nat)
    ensures Kept(Ladder(height))
  {
    forall t | t in Ladder(height).store ensures Storable(t.on.id) && Storable(t.subject.entity.id) {
      InLadder(height, t);
    }
  }

  /** Every type of a ladder is a rung's. */
  lemma LadderKind(height: nat, kind: string) returns (i: nat)
    requires kind in Ladder(height).types
    ensures kind == RungKind(i) && i <= height && Ladder(height).types[kind] == RungType(i)
  {
    i := |kind| - 1;
  }

  lemma LadderReadsNothing(height: nat)
    ensures ReadsNothing(Ladder(height).types) && Inverse(Ladder(height), map[])
  {
    forall kind, r | kind in Ladder(height).types && r in Ladder(height).types[kind].relations
      ensures Ladder(height).types[kind].relations[r].Stored?
    {
      var i := LadderKind(height, kind);
    }
  }

  lemma LadderIsResolved(height: nat)
    ensures Resolved(Ladder(height).types)
  {
    var types := Ladder(height).types;
    LadderReadsNothing(height);
    forall kind, name ensures !ReadsField(types, kind, name) {
      NoFieldRead(types, kind, name);
    }
    hide Ladder, ReadsField;
    forall kind | kind in types
      ensures types[kind].relations.Keys !! types[kind].permissions.Keys
      ensures forall r, h | r in types[kind].relations && types[kind].relations[r].Stored? &&
                h in types[kind].relations[r].holders :: h.TypeHolder?
    {
      var i := LadderKind(height, kind);
    }
  }

  /** No field to read, no lookup to lack, no condition to meet. */
  lemma LadderThrowsNothing(height: nat, e: Entity)
    ensures !Walks.Unreadable(Ladder(height), e) && forall n :: !Walks.MeetsCondition(Ladder(height).types, n)
    ensures forall key, error :: !Throws(Ladder(height), USER, key, error)
    ensures Storable(USER.entity.id) && Storable("x")
  {
    LadderReadsNothing(height);
    forall at, error ensures !Stops(Ladder(height), USER, at, error) {
      RungStopsNothing(height, at, error);
    }
    hide Ladder, Stops;
    forall n ensures !Walks.MeetsCondition(Ladder(height).types, n) {
      if n.entity.kind in Ladder(height).types { var i := LadderKind(height, n.entity.kind); }
    }
  }

  lemma RungStopsNothing(height: nat, at: Key, error: Walks.Error)
    ensures !Stops(Ladder(height), USER, at, error)
  {
    LadderReadsNothing(height);
    hide Ladder;
    if at.kind in Ladder(height).types { var i := LadderKind(height, at.kind); }
  }

  /** From a rung, the only step goes down to the next. */
  lemma RungStep(height: nat, i: nat, m: Node)
    requires i <= height
    ensures !NameStep(Ladder(height), RungNode(i), m)
    ensures Crossing(Ladder(height), RungNode(i), m) <==> i > 0 && m == RungNode(i - 1)
  {
    var w := Ladder(height);
    OnLadder(height, i);
    if i > 0 {
      var holders := [TypeHolder(RungKind(i - 1))];
      var rule := ArrowRule("parent", "view", None);
      assert w.types[RungKind(i)].permissions["view"] == [rule] && rule in [rule];
      assert w.types[RungKind(i)].relations["parent"] == Stored(holders) && holders[0] in holders;
      InLadder(height, Tuple(Rung(i), "parent", One(m.entity)));
      forall j: nat | Rung(j) == Rung(i) ensures j == i { assert |RungKind(j)| == |RungKind(i)|; }
      assert ArrowReaches(w, Rung(i), "parent", Rung(i - 1));
    }
  }

  /** Only the lowest rung answers by itself. */
  lemma RungGrants(height: nat, i: nat)
    requires i <= height
    ensures Grants(Ladder(height), USER, RungNode(i)) <==> i == 0
  {
    OnLadder(height, i);
    var users := [TypeHolder("user")];
    assert users[0] in users && Admits(users, USER);
  }

  lemma {:induction false} RungIsViewed(height: nat, i: nat)
    requires i <= height
    ensures Derivable(Ladder(height), USER, RungNode(i))
  {
    hide Ladder, Derivable;
    RungGrants(height, i);
    if i == 0 {
      GrantDerivable(Ladder(height), USER, RungNode(0));
    } else {
      RungIsViewed(height, i - 1);
      RungStep(height, i, RungNode(i - 1));
      StepDerivable(Ladder(height), USER, RungNode(i), RungNode(i - 1));
    }
  }

  /** A trail down the ladder crosses one relation a rung. */
  lemma {:induction false} LadderTrail(height: nat, i: nat, t: seq<Hop>) returns (j: nat)
    requires i <= height && IsTrail(Ladder(height), t) && t[0].node == RungNode(i)
    ensures j <= i && t[|t| - 1].node == RungNode(j) && t[0].left == i - j
    decreases |t|
  {
    hide Ladder, RungKind, NameStep, Crossing;
    if |t| == 1 {
      j := i;
    } else {
      RungStep(height, i, t[1].node);
      assert IsTrail(Ladder(height), t[1..]);
      j := LadderTrail(height, i - 1, t[1..]);
    }
  }

  /** **Every derivation crosses every arrow**: as many as the rung is high, and a walk meets no more. */
  lemma LadderIsCrossed(height: nat, i: nat)
    requires i <= height
    ensures forall most: int :: most < i ==> !GrantsAcross(Ladder(height), USER, RungNode(i), {}, most)
    ensures forall k: nat :: k > i ==> !Crosses(Ladder(height), RungNode(i), {}, k)
  {
    hide Ladder, Grants;
    forall k: nat, m | TrailTo(Ladder(height), RungNode(i), {}, k, m)
      ensures k <= i && (Grants(Ladder(height), USER, m) ==> k == i)
    {
      var t: seq<Hop> :| IsTrail(Ladder(height), t) && Simple(t, {}) && t[0] == Hop(RungNode(i), k) &&
        t[|t| - 1].node == m;
      var j := LadderTrail(height, i, t);
      RungGrants(height, j);
    }
  }

  lemma RungTerms(height: nat, i: nat)
    requires i <= height
    ensures Terms(Ladder(height), RungKey(i)) == if i == 0 then [] else [Held(RungKey(i - 1), "parent", None)]
    ensures RungKey(i) in Declared(Ladder(height).types) && RungKind(i) in Ladder(height).types
  {
    var w := Ladder(height);
    OnLadder(height, i);
    if i == 0 {
      var users := [TypeHolder("user")];
      assert users[1..] == [] && SetTerms("view", users) == [];
    } else {
      OnLadder(height, i - 1);
      var rules, holders := [ArrowRule("parent", "view", None)], [TypeHolder(RungKind(i - 1))];
      assert rules[1..] == [] && holders[1..] == [];
      var term := Held(RungKey(i - 1), "parent", None);
      assert TypeTerms(w.types, "parent", "view", holders) == [term] + TypeTerms(w.types, "parent", "view", []);
      assert RuleTerms(w, RungKind(i), rules[0]) == [term];
      assert RulesTerms(w, RungKind(i), rules) == [term] + RulesTerms(w, RungKind(i), []);
    }
  }

  /** A name with one term or none, met for the first time, loops only where that term does. */
  lemma LoopsAsItsTerm(w: World, path: set<Key>, key: Key, term: Term)
    requires key !in path && key.kind in w.types && key in Declared(w.types)
    requires Terms(w, key) == [] || Terms(w, key) == [term]
    ensures Reach(w, USER, map[], path, START, key).0.looped ==>
              Terms(w, key) == [term] && Reach(w, USER, map[], path + {key}, START, term.from).0.looped
  {
    hide Terms, Direct, Declared, PullAll;
    var found := Direct(w, USER, key);
    if Terms(w, key) == [] {
      assert Gather(w, USER, map[], path + {key}, START, key.kind, [], found) == (START, found);
    } else {
      assert [term] + [] == [term];
      GatherFirst(w, USER, map[], path + {key}, START, key.kind, term, [], found);
    }
  }

  /** A round goes down the ladder and never meets a name of its path. */
  lemma {:induction false} RungReach(height: nat, i: nat, path: set<Key>)
    requires i <= height && forall k :: k in path ==> |k.kind| > i + 1
    ensures !Reach(Ladder(height), USER, map[], path, START, RungKey(i)).0.looped
  {
    hide Ladder, Terms, Declared, Reach, RungKind;
    RungTerms(height, i);
    var below: nat := if i == 0 then 0 else i - 1;
    LoopsAsItsTerm(Ladder(height), path, RungKey(i), Held(RungKey(below), "parent", None));
    if i > 0 { RungReach(height, below, path + {RungKey(i)}); }
  }

  lemma LadderNeverTooDeep(height: nat, maxDepth: nat)
    ensures !TooDeep(Ladder(height), USER, RungKey(height), maxDepth)
  {
    RungReach(height, height, {});
  }

  /**
   * **`can()` refuses what `list()` answers**: no name of a ladder loops, so
   * its first round is final however many relations it crosses, and `can()`
   * is too deep exactly when the ladder is higher than `maxDepth`. At its
   * smallest, two arrows and `maxDepth` 1.
   */
  method CanRefusesALadder(height: nat, maxDepth: nat, after: Option<string>, limit: nat)
    returns (listed: Result<Page, Error>, ghost ids: set<string>, can: Walks.Answer)
    requires limit >= 1
    ensures listed.Ok? && listed.value == PageOf(ids, after, limit) && "x" in ids
    ensures can == if height > maxDepth then Walks.Threw(Walks.PermissionDepth) else Walks.Granted
  {
    hide Ladder, TooDeep, Derivable, DerivableWithin, Crosses, GrantsAcross, TrailTo, Kept, Inverse, Resolved, Throws,
      Walks.MeetsFault, Walks.ComesOf, Grants,
      PageOf, Storable, Walks.Unreadable, Walks.MeetsCondition, ReachedNames, RungKind;
    LadderIsKept(height);
    LadderReadsNothing(height);
    LadderIsResolved(height);
    LadderThrowsNothing(height, Rung(height));
    RungIsViewed(height, height);
    LadderIsCrossed(height, height);
    LadderNeverTooDeep(height, maxDepth);
    listed, ids := List(Ladder(height), map[], maxDepth, USER, "view", RungKind(height), after, limit);
    can := Walks.Can(Ladder(height), maxDepth, USER, "view", Rung(height));
    assert Node(Rung(height), "view") == RungNode(height);
    assert can.Threw? ==> !can.error.NoContext? && !can.error.FieldUnreadable?;
  }
}
