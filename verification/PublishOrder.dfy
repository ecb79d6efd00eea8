/** The order packages are published in: dependencies first, or a refusal of a dependency cycle. */
module PublishOrder {
  import opened Std

  datatype Pkg = Pkg(name: string, deps: set<string>)

  function Names(pkgs: seq<Pkg>): (names: set<string>)
    ensures forall n :: n in names <==> exists p :: p in pkgs && p.name == n
  {
    set p | p in pkgs :: p.name
  }

  ghost predicate NamesDiffer(pkgs: seq<Pkg>) {
    forall i, j :: 0 <= i < j < |pkgs| ==> pkgs[i].name != pkgs[j].name
  }

  /** The package named `a` depends on `b`, and both are listed. */
  ghost predicate DependsOn(pkgs: seq<Pkg>, a: string, b: string) {
    b in Names(pkgs) && exists p :: p in pkgs && p.name == a && b in p.deps
  }

  ghost predicate Follows(pkgs: seq<Pkg>, path: seq<string>, k: int) {
    0 <= k < |path| - 1 && DependsOn(pkgs, path[k], path[k + 1])
  }

  ghost predicate IsPath(pkgs: seq<Pkg>, path: seq<string>) {
    forall k :: 0 <= k < |path| - 1 ==> Follows(pkgs, path, k)
  }

  /** A path back to where it starts; a package depending on itself is one. */
  ghost predicate IsCycle(pkgs: seq<Pkg>, path: seq<string>) {
    |path| >= 2 && path[0] == path[|path| - 1] && IsPath(pkgs, path)
  }

  ghost predicate HasCycle(pkgs: seq<Pkg>) {
    exists path :: IsCycle(pkgs, path)
  }

  /** Every listed dependency comes before its dependants. */
  ghost predicate DependenciesFirst(pkgs: seq<Pkg>, order: seq<Pkg>) {
    forall i, d :: 0 <= i < |order| && d in order[i].deps && d in Names(pkgs) ==> d in Names(order[..i])
  }

  /** `a` depends on one of these. */
  ghost predicate WaitsFor(pkgs: seq<Pkg>, a: string, names: set<string>) {
    exists b :: b in names && DependsOn(pkgs, a, b)
  }

  /** Everyone here waits for someone here. */
  ghost predicate Stuck(pkgs: seq<Pkg>, names: set<string>) {
    names <= Names(pkgs) && names != {} && forall a {:trigger WaitsFor(pkgs, a, names)} ::
      a in names ==> WaitsFor(pkgs, a, names)
  }

  // ----- waiting for one another is a cycle, and no order has one

  lemma {:induction false} Walk(pkgs: seq<Pkg>, names: set<string>, n: nat) returns (path: seq<string>)
    requires Stuck(pkgs, names)
    ensures |path| == n + 1 && IsPath(pkgs, path) && forall k :: 0 <= k <= n ==> path[k] in names
  {
    hide DependsOn;
    if n == 0 {
      var a :| a in names;
      path := [a];
    } else {
      var less := Walk(pkgs, names, n - 1);
      assert WaitsFor(pkgs, less[n - 1], names);
      var b :| b in names && DependsOn(pkgs, less[n - 1], b);
      path := less + [b];
      forall k | 0 <= k < n ensures Follows(pkgs, path, k) {
        assert k < n - 1 ==> Follows(pkgs, less, k);
      }
    }
  }

  lemma {:induction false} Pigeonhole(path: seq<string>, names: set<string>) returns (i: nat, j: nat)
    requires |path| > |names| && forall k :: 0 <= k < |path| ==> path[k] in names
    ensures i < j < |path| && path[i] == path[j]
    decreases |path|
  {
    var last := |path| - 1;
    if path[last] in path[..last] {
      i :| 0 <= i < last && path[i] == path[last];
      j := last;
    } else {
      assert |names - {path[last]}| == |names| - 1;
      i, j := Pigeonhole(path[..last], names - {path[last]});
    }
  }

  /** **Packages all waiting for one another hold a cycle.** */
  lemma StuckIsCycle(pkgs: seq<Pkg>, names: set<string>)
    requires Stuck(pkgs, names)
    ensures HasCycle(pkgs)
  {
    hide DependsOn;
    var path := Walk(pkgs, names, |names|);
    var i, j := Pigeonhole(path, names);
    var cycle := path[i..j + 1];
    forall k | 0 <= k < |cycle| - 1 ensures Follows(pkgs, cycle, k) {
      assert Follows(pkgs, path, i + k);
    }
    assert IsCycle(pkgs, cycle);
  }

  ghost predicate IsOrder(pkgs: seq<Pkg>, order: seq<Pkg>) {
    multiset(order) == multiset(pkgs) && DependenciesFirst(pkgs, order)
  }

  lemma SameMembers(pkgs: seq<Pkg>, order: seq<Pkg>)
    requires multiset(order) == multiset(pkgs)
    ensures forall p :: p in order <==> p in pkgs
    ensures Names(order) == Names(pkgs)
  {
    forall p ensures p in order <==> p in pkgs {
      assert p in order <==> p in multiset(order);
      assert p in pkgs <==> p in multiset(pkgs);
    }
  }

  /** Where a name comes in the order. */
  ghost predicate At(order: seq<Pkg>, name: string, i: int) {
    0 <= i < |order| && order[i].name == name
  }

  lemma DependencyIsEarlier(pkgs: seq<Pkg>, order: seq<Pkg>, a: string, b: string, i: int, j: int)
    requires NamesDiffer(order) && IsOrder(pkgs, order) && DependsOn(pkgs, a, b) && At(order, a, i) && At(order, b, j)
    ensures j < i
  {
    SameMembers(pkgs, order);
    var p :| p in pkgs && p.name == a && b in p.deps;
    var k :| 0 <= k < |order| && order[k] == p;
    assert k == i;
    var q :| q in order[..i] && q.name == b;
    var m :| 0 <= m < i && order[m] == q;
    assert m == j;
  }

  lemma {:induction false} PathGoesEarlier(pkgs: seq<Pkg>, order: seq<Pkg>, path: seq<string>, i: int, j: int)
    requires NamesDiffer(order) && IsOrder(pkgs, order) && |path| >= 2 && IsPath(pkgs, path)
    requires At(order, path[0], i) && At(order, path[|path| - 1], j)
    ensures j < i
    decreases |path|
  {
    assert Follows(pkgs, path, 0);
    if |path| == 2 {
      DependencyIsEarlier(pkgs, order, path[0], path[1], i, j);
    } else {
      SameMembers(pkgs, order);
      var q :| q in order && q.name == path[1];
      var m :| 0 <= m < |order| && order[m] == q;
      DependencyIsEarlier(pkgs, order, path[0], path[1], i, m);
      var rest := path[1..];
      forall k | 0 <= k < |rest| - 1 ensures Follows(pkgs, rest, k) {
        assert Follows(pkgs, path, k + 1);
      }
      PathGoesEarlier(pkgs, order, rest, m, j);
    }
  }

  /** **What is ordered has no cycle.** */
  lemma OrderedHasNoCycle(pkgs: seq<Pkg>, order: seq<Pkg>)
    requires NamesDiffer(order) && IsOrder(pkgs, order)
    ensures !HasCycle(pkgs)
  {
    forall path ensures !IsCycle(pkgs, path) {
      if |path| >= 2 && path[0] == path[|path| - 1] && IsPath(pkgs, path) {
        SameMembers(pkgs, order);
        assert Follows(pkgs, path, 0);
        var p :| p in pkgs && p.name == path[0];
        var i :| 0 <= i < |order| && order[i] == p;
        PathGoesEarlier(pkgs, order, path, i, i);
      }
    }
  }

  // ----- the loop

  predicate IsReady(p: Pkg, done: set<string>, listed: set<string>) {
    p.name !in done && forall d :: d in p.deps && d in listed ==> d in done
  }

  /** Those ready, in the order they are listed. */
  function Ready(pkgs: seq<Pkg>, done: set<string>, listed: set<string>): (ready: seq<Pkg>)
    ensures forall p :: p in ready <==> p in pkgs && IsReady(p, done, listed)
  {
    if pkgs == [] then []
    else (if IsReady(pkgs[0], done, listed) then [pkgs[0]] else []) + Ready(pkgs[1..], done, listed)
  }

  /** The names still waiting, in the order they are listed. */
  function Waiting(pkgs: seq<Pkg>, done: set<string>): (names: seq<string>)
    ensures forall n :: n in names <==> n !in done && n in Names(pkgs)
  {
    if pkgs == [] then []
    else
      assert Names(pkgs) == {pkgs[0].name} + Names(pkgs[1..]) by {
        assert pkgs == [pkgs[0]] + pkgs[1..];
      }
      (if pkgs[0].name in done then [] else [pkgs[0].name]) + Waiting(pkgs[1..], done)
  }

  lemma {:induction false} ReadyDistinct(pkgs: seq<Pkg>, done: set<string>, listed: set<string>)
    requires NamesDiffer(pkgs)
    ensures NamesDiffer(Ready(pkgs, done, listed))
  {
    if pkgs != [] {
      ReadyDistinct(pkgs[1..], done, listed);
      forall p | p in Ready(pkgs[1..], done, listed) ensures p.name != pkgs[0].name {
        var i :| 0 <= i < |pkgs[1..]| && pkgs[1..][i] == p;
        assert pkgs[1 + i] == p;
      }
    }
  }

  /** What the loop keeps: part of the list, in an order, and the names in it. */
  ghost predicate Ordering(pkgs: seq<Pkg>, order: seq<Pkg>, done: set<string>) {
    && done == Names(order) && NamesDiffer(order) && DependenciesFirst(pkgs, order)
    && forall p :: p in order ==> p in pkgs
  }

  lemma OrderOne(pkgs: seq<Pkg>, order: seq<Pkg>, done: set<string>, p: Pkg)
    requires Ordering(pkgs, order, done) && p in pkgs && p.name !in done
    requires forall d :: d in p.deps && d in Names(pkgs) ==> d in done
    ensures Ordering(pkgs, order + [p], done + {p.name})
  {
    var more := order + [p];
    assert Names(more) == Names(order) + {p.name};
    forall i, d | 0 <= i < |more| && d in more[i].deps && d in Names(pkgs) ensures d in Names(more[..i]) {
      assert more[..i] == if i < |order| then order[..i] else order;
    }
    forall i, j | 0 <= i < j < |more| ensures more[i].name != more[j].name {
      assert order[i] in order;
    }
  }

  lemma {:induction false} NamesCount(pkgs: seq<Pkg>)
    requires NamesDiffer(pkgs)
    ensures |Names(pkgs)| == |pkgs|
  {
    if pkgs != [] {
      var less := pkgs[..|pkgs| - 1];
      var last := pkgs[|pkgs| - 1];
      assert pkgs == less + [last];
      NamesCount(less);
      assert Names(pkgs) == Names(less) + {last.name};
      assert last.name !in Names(less);
    }
  }

  lemma SomeLeft(pkgs: seq<Pkg>, order: seq<Pkg>)
    requires NamesDiffer(pkgs) && NamesDiffer(order) && |order| < |pkgs|
    ensures Names(pkgs) - Names(order) != {}
  {
    hide Names, NamesDiffer;
    NamesCount(pkgs);
    NamesCount(order);
    Within(Names(pkgs), Names(order));
  }

  lemma WaitsForOne(pkgs: seq<Pkg>, done: set<string>, a: string)
    requires a in Names(pkgs) - done && Ready(pkgs, done, Names(pkgs)) == []
    ensures WaitsFor(pkgs, a, Names(pkgs) - done)
  {
    hide Names;
    var p :| p in pkgs && p.name == a;
    assert !IsReady(p, done, Names(pkgs)) by { assert p !in Ready(pkgs, done, Names(pkgs)); }
    var d :| d in p.deps && d in Names(pkgs) && d !in done;
    assert DependsOn(pkgs, a, d);
  }

  lemma StuckWhenNoneReady(pkgs: seq<Pkg>, order: seq<Pkg>, done: set<string>)
    requires NamesDiffer(pkgs) && Ordering(pkgs, order, done) && |order| < |pkgs| &&
             Ready(pkgs, done, Names(pkgs)) == []
    ensures Stuck(pkgs, Names(pkgs) - done)
  {
    hide Names, Ready, WaitsFor, DependenciesFirst, NamesDiffer;
    SomeLeft(pkgs, order);
    forall a | a in Names(pkgs) - done ensures WaitsFor(pkgs, a, Names(pkgs) - done) {
      WaitsForOne(pkgs, done, a);
    }
  }

  lemma Within(a: set<string>, b: set<string>)
    ensures a - b == {} ==> |a| <= |b|
  {
    assert a <= (a - b) + b && |b| == |a * b| + |b - a| && a == a * b + (a - b);
  }

  lemma {:induction false} OneOfEach(pkgs: seq<Pkg>, p: Pkg)
    requires NamesDiffer(pkgs)
    ensures multiset(pkgs)[p] == if p in pkgs then 1 else 0
  {
    if pkgs != [] {
      var less := pkgs[..|pkgs| - 1];
      assert pkgs == less + [pkgs[|pkgs| - 1]];
      OneOfEach(less, p);
    }
  }

  lemma AllOrdered(pkgs: seq<Pkg>, order: seq<Pkg>, done: set<string>)
    requires NamesDiffer(pkgs) && Ordering(pkgs, order, done) && |order| >= |pkgs|
    ensures IsOrder(pkgs, order)
  {
    forall p ensures multiset(order)[p] <= multiset(pkgs)[p] {
      OneOfEach(pkgs, p);
      OneOfEach(order, p);
    }
    var left := multiset(pkgs) - multiset(order);
    assert multiset(pkgs) == multiset(order) + left;
    assert |left| == 0;
  }

  /**
   * **A permutation in which every listed dependency precedes its dependants,
   * or a refusal naming those waiting, exactly when there is a cycle.**
   */
  method InDependencyOrder(pkgs: seq<Pkg>) returns (r: Result<seq<Pkg>, seq<string>>)
    requires NamesDiffer(pkgs)
    ensures r.Ok? ==> IsOrder(pkgs, r.value)
    ensures r.Err? <==> HasCycle(pkgs)
    ensures r.Err? ==> Stuck(pkgs, set n | n in r.error)
  {
    hide DependsOn, DependenciesFirst, IsOrder, NamesDiffer, HasCycle, Stuck, Names, Ordering, Ready, IsReady, Waiting;
    var listed := Names(pkgs);
    var done: set<string> := {};
    var order: seq<Pkg> := [];
    NothingOrdered(pkgs);
    while |order| < |pkgs|
      invariant Ordering(pkgs, order, done)
      decreases |pkgs| - |order|
    {
      var ready := Ready(pkgs, done, listed);
      if ready == [] {
        StuckWhenNoneReady(pkgs, order, done);
        StuckIsCycle(pkgs, listed - done);
        var waiting := Waiting(pkgs, done);
        assert (set n | n in waiting) == listed - done;
        return Err(waiting);
      }
      ReadyDistinct(pkgs, done, listed);
      order, done := PushAll(pkgs, order, done, ready);
    }
    AllOrdered(pkgs, order, done);
    OrderDistinct(pkgs, order, done);
    OrderedHasNoCycle(pkgs, order);
    r := Ok(order);
  }

  method PushAll(ghost pkgs: seq<Pkg>, before: seq<Pkg>, done0: set<string>, ready: seq<Pkg>)
    returns (order: seq<Pkg>, done: set<string>)
    requires Ordering(pkgs, before, done0) && NamesDiffer(ready)
    requires forall p :: p in ready ==> p in pkgs && IsReady(p, done0, Names(pkgs))
    ensures Ordering(pkgs, order, done) && |order| == |before| + |ready|
  {
    order, done := before, done0;
    assert forall j :: 0 <= j < |ready| ==> ready[j] in ready;
    for i := 0 to |ready|
      invariant Ordering(pkgs, order, done) && |order| == |before| + i && done0 <= done
      invariant forall j :: i <= j < |ready| ==> ready[j].name !in done
    {
      assert ready[i] in ready;
      OrderOne(pkgs, order, done, ready[i]);
      order := order + [ready[i]];
      done := done + {ready[i].name};
    }
  }

  lemma NothingOrdered(pkgs: seq<Pkg>)
    ensures Ordering(pkgs, [], {})
  {
  }

  lemma OrderDistinct(pkgs: seq<Pkg>, order: seq<Pkg>, done: set<string>)
    requires Ordering(pkgs, order, done)
    ensures NamesDiffer(order)
  {
  }
}
