/**
 * The holders of a relation, by pages, under a predicate the store cannot
 * see and a budget of how many it may be asked about.
 */
module Holders {
  import opened Order
  import opened Std

  /** `kind` is the entity's type. */
  datatype Holder = Holder(kind: string, id: string)

  datatype Page = Page(items: seq<Holder>, next: Option<Holder>)

  const MAX_PAGE_SIZE := 100

  // ----- the order of the pages

  predicate Precedes(a: Holder, b: Holder) {
    Less(a.kind, b.kind) || (a.kind == b.kind && Less(a.id, b.id))
  }

  /** Every holder once, by type and then id. */
  ghost predicate InOrder(all: seq<Holder>) {
    forall i, j :: 0 <= i < j < |all| ==> Precedes(all[i], all[j])
  }

  lemma PrecedesOnce(a: Holder, b: Holder)
    requires Precedes(a, b)
    ensures !Precedes(b, a) && a != b
  {
    LessIrreflexive(a.kind);
    LessIrreflexive(a.id);
    if Less(a.kind, b.kind) && Less(b.kind, a.kind) { LessTransitive(a.kind, b.kind, a.kind); }
    if Less(a.id, b.id) && Less(b.id, a.id) { LessTransitive(a.id, b.id, a.id); }
  }

  /** How many holders come no later than the cursor: where the page after it starts. */
  function Start(all: seq<Holder>, after: Option<Holder>): (k: nat)
    ensures k <= |all|
  {
    if after.None? || all == [] || Precedes(after.value, all[0]) then 0 else 1 + Start(all[1..], after)
  }

  /** What a store reads: those after the cursor, in order, and a cursor when there are more. */
  function Read(all: seq<Holder>, after: Option<Holder>, size: nat): Page {
    var rest := all[Start(all, after)..];
    if |rest| <= size then Page(rest, None) else Page(rest[..size], if size == 0 then None else Some(rest[size - 1]))
  }

  /** The page after a holder starts at the next one. */
  lemma {:induction false} StartAfter(all: seq<Holder>, j: nat)
    requires InOrder(all) && j < |all|
    ensures Start(all, Some(all[j])) == j + 1
  {
    var rest := all[1..];
    if j == 0 {
      if Precedes(all[0], all[0]) { PrecedesOnce(all[0], all[0]); }
      if rest != [] { assert Precedes(all[0], all[1]); }
      assert Start(rest, Some(all[0])) == 0;
    } else {
      assert Precedes(all[0], all[j]);
      PrecedesOnce(all[0], all[j]);
      StartAfter(rest, j - 1);
    }
  }

  // ----- what a page answers

  function Passing(holders: seq<Holder>, p: Holder -> bool): (r: seq<Holder>)
    ensures |r| <= |holders|
    decreases |holders|
  {
    if holders == [] then []
    else
      var n := |holders| - 1;
      Passing(holders[..n], p) + (if p(holders[n]) then [holders[n]] else [])
  }

  lemma PassingOne(holders: seq<Holder>, h: Holder, p: Holder -> bool)
    ensures Passing(holders + [h], p) == Passing(holders, p) + (if p(h) then [h] else [])
  {
  }

  lemma {:induction false} PassingJoins(a: seq<Holder>, b: seq<Holder>, p: Holder -> bool)
    ensures Passing(a + b, p) == Passing(a, p) + Passing(b, p)
    decreases |b|
  {
    if b == [] {
      assert a + b == a;
    } else {
      var n := |b| - 1;
      PassingJoins(a, b[..n], p);
      assert a + b == a + b[..n] + [b[n]];
      PassingOne(a + b[..n], b[n], p);
    }
  }

  /** Where the holders are whose matching ones are the first `limit`, the last of them matching. */
  lemma {:induction false} CutAt(holders: seq<Holder>, p: Holder -> bool, limit: nat) returns (n: nat)
    requires 1 <= limit <= |Passing(holders, p)|
    ensures 1 <= n <= |holders| && Passing(holders[..n], p) == Passing(holders, p)[..limit]
    ensures holders[n - 1] == Passing(holders, p)[limit - 1]
    decreases |holders|
  {
    var k := |holders| - 1;
    assert holders == holders[..k] + [holders[k]];
    PassingOne(holders[..k], holders[k], p);
    hide Passing;
    var found, before := Passing(holders, p), Passing(holders[..k], p);
    if |before| < limit {
      n := |holders|;
      assert holders[..n] == holders && found[..limit] == found;
    } else {
      n := CutAt(holders[..k], p, limit);
      assert holders[..k][..n] == holders[..n] && holders[..k][n - 1] == holders[n - 1];
      assert found[..limit] == before[..limit] && found[limit - 1] == before[limit - 1];
    }
  }

  /**
   * A page of those matching, after a cursor: the matching ones among the next
   * `seen`, at most `limit`; it ends the list, or leaves a cursor at the last
   * of the `seen`. `judged` were asked about, at most the budget, and short of
   * it one more than the page was found.
   */
  ghost predicate IsScan(all: seq<Holder>, p: Holder -> bool, after: Option<Holder>, limit: nat, budget: Option<nat>,
                         page: Page, seen: nat, judged: nat) {
    var rest := all[Start(all, after)..];
    && seen <= judged <= |rest| && (budget.Some? ==> judged <= budget.value)
    && page.items == Passing(rest[..seen], p) && |page.items| <= limit
    && (page.next.None? ==> seen == |rest|)
    && (page.next.Some? ==> 1 <= seen && page.next.value == rest[seen - 1])
    && (page.next.Some? ==> budget == Some(judged) || (|page.items| == limit && |Passing(rest[..judged], p)| > limit))
  }

  function Min(a: nat, b: nat): nat {
    if a < b then a else b
  }

  /** What is read is what comes next of the rest. */
  lemma ReadIsNext(all: seq<Holder>, after: Option<Holder>, cursor: Option<Holder>, scanned: nat)
    requires InOrder(all) && Start(all, cursor) == Start(all, after) + scanned
    ensures var rest := all[Start(all, after)..];
            var read := Read(all, cursor, MAX_PAGE_SIZE);
            var to := scanned + |read.items|;
            && to <= |rest| && read.items == rest[scanned..to]
            && (if read.next.None? then to == |rest|
                else to > scanned && read.next == Some(rest[to - 1]) && Start(all, read.next) == Start(all, after) + to)
  {
    hide InOrder, Start;
    var read := Read(all, cursor, MAX_PAGE_SIZE);
    var start := Start(all, after);
    assert all[start..][scanned..] == all[start + scanned..];
    if read.next.Some? { StartAfter(all, start + scanned + MAX_PAGE_SIZE - 1); }
  }

  /** A page one more than which is known. */
  lemma FullScan(all: seq<Holder>, p: Holder -> bool, after: Option<Holder>, limit: nat, budget: Option<nat>,
                 kept: seq<Holder>, judged: nat)
    returns (seen: nat)
    requires var rest := all[Start(all, after)..];
             limit >= 1 && judged <= |rest| && (budget.Some? ==> judged <= budget.value) &&
             |kept| > limit && kept <= Passing(rest[..judged], p)
    ensures IsScan(all, p, after, limit, budget, Page(kept[..limit], Some(kept[limit - 1])), seen, judged)
  {
    var rest := all[Start(all, after)..];
    seen := CutAt(rest[..judged], p, limit);
    assert rest[..judged][..seen] == rest[..seen];
  }

  /** **Reads the largest pages and keeps what passes**, `step` at a time, within the budget; `None` is no budget. */
  method ScanHolders(all: seq<Holder>, p: Holder -> bool, after: Option<Holder>, limit: nat, step: nat,
                     budget: Option<nat>)
    returns (page: Page, judged: nat)
    requires InOrder(all) && limit >= 1 && step >= 1 && (budget.Some? ==> budget.value >= 1)
    ensures exists seen: nat :: IsScan(all, p, after, limit, budget, page, seen, judged)
  {
    hide Precedes, InOrder, Start, Read, Passing;
    var kept: seq<Holder> := [];
    var cursor := after;
    judged := 0;
    ghost var rest := all[Start(all, after)..];
    NonePass(p);
    assert rest[..0] == [];
    while true
      invariant judged <= |rest| && Start(all, cursor) == Start(all, after) + judged
      invariant budget.Some? ==> judged < budget.value
      invariant kept == Passing(rest[..judged], p) && |kept| <= limit
      decreases |rest| - judged
    {
      var read := Read(all, cursor, MAX_PAGE_SIZE);
      ReadIsNext(all, after, cursor, judged);
      var room := if budget.Some? then budget.value - judged else |read.items|;
      var visible := read.items[..Min(room, |read.items|)];
      SliceOf(rest, judged, |read.items|, 0, |visible|);
      var full;
      kept, judged, full := JudgeVisible(rest, judged, visible, p, limit, step, kept);
      if full {
        ghost var seen := FullScan(all, p, after, limit, budget, kept, judged);
        return Page(kept[..limit], Some(kept[limit - 1])), judged;
      }
      if |visible| < |read.items| {
        page := Page(kept, Some(visible[|visible| - 1]));
        assert IsScan(all, p, after, limit, budget, page, judged, judged);
        return;
      }
      if read.next.None? || (budget.Some? && judged >= budget.value) {
        page := Page(kept, read.next);
        assert IsScan(all, p, after, limit, budget, page, judged, judged);
        return;
      }
      cursor := read.next;
    }
  }

  lemma NonePass(p: Holder -> bool)
    ensures Passing([], p) == []
  {
  }

  /** The batches of one page read: kept on the way, and `full` once one more than the page is known. */
  method JudgeVisible(ghost rest: seq<Holder>, from: nat, visible: seq<Holder>, p: Holder -> bool, limit: nat,
                      step: nat, before: seq<Holder>)
    returns (kept: seq<Holder>, scanned: nat, full: bool)
    requires from + |visible| <= |rest| && visible == rest[from..from + |visible|] && step >= 1
    requires before == Passing(rest[..from], p) && |before| <= limit
    ensures from <= scanned <= from + |visible|
    ensures !full ==> scanned == from + |visible| && kept == Passing(rest[..scanned], p) && |kept| <= limit
    ensures full ==> |kept| > limit && kept <= Passing(rest[..scanned], p)
  {
    hide Passing;
    kept, scanned, full := before, from, false;
    var at := 0;
    while at < |visible|
      invariant scanned == from + Min(at, |visible|)
      invariant kept == Passing(rest[..scanned], p) && |kept| <= limit
    {
      var to := Min(at + step, |visible|);
      SliceOf(rest, from, |visible|, at, to);
      var batch := visible[at..to];
      kept, full := JudgeBatch(rest, scanned, batch, p, limit, kept);
      scanned := scanned + |batch|;
      if full { return; }
      at := at + step;
    }
  }

  lemma SliceOf(rest: seq<Holder>, from: nat, n: nat, a: nat, b: nat)
    requires from + n <= |rest| && a <= b <= n
    ensures rest[from..from + n][a..b] == rest[from + a..from + b]
  {
    var all, part := rest[from..from + n], rest[from + a..from + b];
    forall i | 0 <= i < b - a ensures all[a..b][i] == part[i] {
      assert all[a + i] == rest[from + (a + i)] && part[i] == rest[from + a + i];
    }
    assert all[a..b] == part;
  }

  /** One batch judged at once, and its holders kept one by one until the page is full. */
  method JudgeBatch(ghost rest: seq<Holder>, ghost from: nat, batch: seq<Holder>, p: Holder -> bool, limit: nat,
                    before: seq<Holder>)
    returns (kept: seq<Holder>, full: bool)
    requires from + |batch| <= |rest| && batch == rest[from..from + |batch|]
    requires before == Passing(rest[..from], p) && |before| <= limit
    ensures !full ==> kept == Passing(rest[..from + |batch|], p) && |kept| <= limit
    ensures full ==> |kept| > limit && kept <= Passing(rest[..from + |batch|], p)
  {
    hide Passing;
    kept, full := before, false;
    for i := 0 to |batch|
      invariant kept == Passing(rest[..from + i], p) && |kept| <= limit
    {
      assert rest[..from + i + 1] == rest[..from + i] + [batch[i]];
      PassingOne(rest[..from + i], batch[i], p);
      if p(batch[i]) { kept := kept + [batch[i]]; }
      if |kept| > limit {
        full := true;
        assert rest[..from + |batch|] == rest[..from + i + 1] + rest[from + i + 1..from + |batch|];
        PassingJoins(rest[..from + i + 1], rest[from + i + 1..from + |batch|], p);
        return;
      }
    }
  }

  // ----- every page

  /** Pages asked one after the other, each after the cursor of the one before, under whatever limit and budget. */
  ghost predicate IsChain(all: seq<Holder>, p: Holder -> bool, after: Option<Holder>, pages: seq<Page>)
    decreases |pages|
  {
    && pages != []
    && (exists limit, budget, seen, judged :: IsScan(all, p, after, limit, budget, pages[0], seen, judged))
    && (if pages[0].next.None? then |pages| == 1 else IsChain(all, p, pages[0].next, pages[1..]))
  }

  function Items(pages: seq<Page>): seq<Holder> {
    if pages == [] then [] else pages[0].items + Items(pages[1..])
  }

  /** **The cursor moves strictly forward.** */
  lemma CursorMoves(all: seq<Holder>, p: Holder -> bool, after: Option<Holder>, limit: nat, budget: Option<nat>,
                    page: Page, seen: nat, judged: nat)
    requires InOrder(all) && IsScan(all, p, after, limit, budget, page, seen, judged) && page.next.Some?
    ensures Start(all, page.next) == Start(all, after) + seen > Start(all, after)
  {
    hide Passing, Start, InOrder;
    StartAfter(all, Start(all, after) + seen - 1);
  }

  /**
   * **Following the cursor to its end lists exactly the matching holders, in
   * order, once each**, whatever the limit, the budget and the batch of every
   * page.
   */
  lemma {:induction false} ChainIsAll(all: seq<Holder>, p: Holder -> bool, after: Option<Holder>, pages: seq<Page>)
    requires InOrder(all) && IsChain(all, p, after, pages)
    ensures Items(pages) == Passing(all[Start(all, after)..], p)
    decreases |pages|
  {
    hide Passing, Start, InOrder, IsScan;
    var limit: nat, budget: Option<nat>, seen: nat, judged: nat :|
      IsScan(all, p, after, limit, budget, pages[0], seen, judged);
    ScanAdds(all, p, after, limit, budget, pages[0], seen, judged);
    if pages[0].next.None? {
      assert Items(pages[1..]) == [];
    } else {
      ChainIsAll(all, p, pages[0].next, pages[1..]);
    }
  }

  /** A page answers the matching holders up to its cursor, from which the next one starts. */
  lemma ScanAdds(all: seq<Holder>, p: Holder -> bool, after: Option<Holder>, limit: nat, budget: Option<nat>,
                 page: Page, seen: nat, judged: nat)
    requires InOrder(all) && IsScan(all, p, after, limit, budget, page, seen, judged)
    ensures Passing(all[Start(all, after)..], p) ==
            if page.next.None? then page.items else page.items + Passing(all[Start(all, page.next)..], p)
  {
    hide Passing, Start, InOrder;
    var rest := all[Start(all, after)..];
    if page.next.None? {
      assert rest[..seen] == rest;
    } else {
      CursorMoves(all, p, after, limit, budget, page, seen, judged);
      assert all[Start(all, page.next)..] == rest[seen..] && rest == rest[..seen] + rest[seen..];
      PassingJoins(rest[..seen], rest[seen..], p);
    }
  }

  /** The loop a caller writes: `while (cursor)`. */
  method ReadEveryHolder(all: seq<Holder>, p: Holder -> bool, limit: nat, step: nat, budget: Option<nat>)
    returns (holders: seq<Holder>)
    requires InOrder(all) && limit >= 1 && step >= 1 && (budget.Some? ==> budget.value >= 1)
    ensures holders == Passing(all, p)
  {
    hide Passing, Start, InOrder;
    NonePass(p);
    StartsFirst(all);
    holders := [];
    var cursor: Option<Holder> := None;
    while true
      invariant holders == Passing(all[..Start(all, cursor)], p)
      decreases |all| - Start(all, cursor)
    {
      var page, judged := ScanHolders(all, p, cursor, limit, step, budget);
      ghost var seen: nat :| IsScan(all, p, cursor, limit, budget, page, seen, judged);
      ghost var start := Start(all, cursor);
      assert all[start..][..seen] == all[start..start + seen] &&
             all[..start + seen] == all[..start] + all[start..start + seen];
      PassingJoins(all[..start], all[start..start + seen], p);
      holders := holders + page.items;
      if page.next.None? {
        assert all[..start + seen] == all;
        return;
      }
      CursorMoves(all, p, cursor, limit, budget, page, seen, judged);
      cursor := page.next;
    }
  }

  lemma StartsFirst(all: seq<Holder>)
    ensures Start(all, None) == 0 && all[..0] == []
  {
  }

  // ----- what passes, and where a page starts

  /** **What passes is every holder the predicate holds of**, each once, in the order they come. */
  lemma {:induction false} PassingIs(holders: seq<Holder>, p: Holder -> bool)
    requires InOrder(holders)
    ensures forall h :: h in Passing(holders, p) <==> h in holders && p(h)
    ensures InOrder(Passing(holders, p))
    decreases |holders|
  {
    if holders != [] {
      var n := |holders| - 1;
      var init, last := holders[..n], holders[n];
      PassingIs(init, p);
      assert holders == init + [last];
      forall h | h in init ensures Precedes(h, last) { var i :| 0 <= i < n && holders[i] == h; }
      hide Precedes;
    }
  }

  /** **A page starts after the holders that come no later than its cursor**, and at the first of the others. */
  lemma {:induction false} StartIs(all: seq<Holder>, after: Holder)
    requires InOrder(all)
    ensures forall i :: 0 <= i < |all| ==> (i >= Start(all, Some(after)) <==> Precedes(after, all[i]))
  {
    if all != [] {
      if Precedes(after, all[0]) {
        forall i | 0 <= i < |all| ensures Precedes(after, all[i]) {
          if i > 0 { PrecedesAll(after, all[0], all[i]); }
        }
      } else {
        StartIs(all[1..], after);
        forall i | 0 < i < |all| ensures i >= Start(all, Some(after)) <==> Precedes(after, all[i]) {
          assert all[i] == all[1..][i - 1];
        }
      }
    }
  }

  lemma PrecedesAll(a: Holder, b: Holder, c: Holder)
    requires Precedes(a, b) && Precedes(b, c)
    ensures Precedes(a, c)
  {
    if Less(a.kind, b.kind) && Less(b.kind, c.kind) { LessTransitive(a.kind, b.kind, c.kind); }
    LessIrreflexive(a.kind);
    if a.kind == b.kind == c.kind { LessTransitive(a.id, b.id, c.id); }
  }
}
