/** Pages of a set of ids, ascending, each starting after the cursor of the one before. */
module Paging {
  import opened Std
  import opened Order

  datatype Page = Page(items: seq<string>, next: Option<string>)

  /** Those after the cursor, in the order they come. */
  function AfterCursor(ids: seq<string>, after: Option<string>): seq<string> {
    if ids == [] then [] else
      (if after.None? || Less(after.value, ids[0]) then [ids[0]] else []) + AfterCursor(ids[1..], after)
  }

  /** One page of an ascending list, after the cursor. */
  function PageIn(all: seq<string>, after: Option<string>, limit: nat): Page {
    var rest := AfterCursor(all, after);
    var items := if |rest| <= limit then rest else rest[..limit];
    Page(items, if |rest| > limit && items != [] then Some(items[|items| - 1]) else None)
  }

  /** The first `limit` of the sorted ids that lie past the cursor. */
  function PageOf(ids: set<string>, after: Option<string>, limit: nat): Page {
    PageIn(Sorted(ids), after, limit)
  }

  lemma {:induction false} AfterNothing(ids: seq<string>)
    ensures AfterCursor(ids, None) == ids
  {
    if ids != [] { AfterNothing(ids[1..]); }
  }

  lemma {:induction false} AfterAll(ids: seq<string>, after: string)
    requires forall x :: x in ids ==> Less(after, x)
    ensures AfterCursor(ids, Some(after)) == ids
  {
    if ids != [] { AfterAll(ids[1..], after); }
  }

  /** What comes after a cursor is the end of the list. */
  lemma {:induction false} AfterIsSuffix(ids: seq<string>, after: Option<string>) returns (k: nat)
    requires Ascending(ids)
    ensures k <= |ids| && AfterCursor(ids, after) == ids[k..]
    ensures forall i :: 0 <= i < |ids| ==> (i >= k <==> after.None? || Less(after.value, ids[i]))
  {
    if after.None? {
      AfterNothing(ids);
      k := 0;
    } else if ids == [] {
      k := 0;
    } else if Less(after.value, ids[0]) {
      forall x | x in ids ensures Less(after.value, x) {
        var i :| 0 <= i < |ids| && ids[i] == x;
        if i > 0 { LessTransitive(after.value, ids[0], ids[i]); }
      }
      AfterAll(ids, after.value);
      k := 0;
    } else {
      var j := AfterIsSuffix(ids[1..], after);
      k := j + 1;
      forall i | 0 <= i < |ids| ensures i >= k <==> Less(after.value, ids[i]) {
        if i > 0 { assert ids[i] == ids[1..][i - 1]; }
      }
    }
  }

  /** After the last id of a page comes what the page left. */
  lemma AfterAnId(all: seq<string>, j: nat)
    requires Ascending(all) && j < |all|
    ensures AfterCursor(all, Some(all[j])) == all[j + 1..]
  {
    var k := AfterIsSuffix(all, Some(all[j]));
    LessIrreflexive(all[j]);
    if j + 1 < |all| { assert Less(all[j], all[j + 1]); }
  }

  /** A page is the next `limit` ids, and the next one starts right where it ended. */
  lemma PageThenRest(all: seq<string>, after: Option<string>, limit: nat)
    requires Ascending(all) && limit >= 1
    ensures var p := PageIn(all, after, limit);
            AfterCursor(all, after) == p.items + (if p.next.Some? then AfterCursor(all, p.next) else [])
    ensures var p := PageIn(all, after, limit);
            p.next.Some? ==> |AfterCursor(all, p.next)| < |AfterCursor(all, after)|
    ensures var p := PageIn(all, after, limit);
            if |AfterCursor(all, after)| > limit then |p.items| == limit && p.next == Some(p.items[limit - 1])
            else p.items == AfterCursor(all, after) && p.next.None?
  {
    var k := AfterIsSuffix(all, after);
    PageFrom(all, after, limit, k);
    hide AfterCursor, Ascending, Less, PageIn;
    if |all| - k > limit {
      AfterAnId(all, k + limit - 1);
      CutInTwo(all, k, limit);
    } else {
      assert all[k..] + [] == all[k..];
    }
  }

  lemma PageFrom(all: seq<string>, after: Option<string>, limit: nat, k: nat)
    requires k <= |all| && AfterCursor(all, after) == all[k..] && limit >= 1
    ensures PageIn(all, after, limit) ==
            if |all| - k > limit then Page(all[k..][..limit], Some(all[k + limit - 1])) else Page(all[k..], None)
  {
    hide AfterCursor;
  }

  lemma CutInTwo(all: seq<string>, k: nat, limit: nat)
    requires k + limit <= |all| && limit >= 1
    ensures all[k..] == all[k..][..limit] + all[k + limit..] && all[k..][..limit][limit - 1] == all[k + limit - 1]
  {
  }

  /** One more page, put after those already read. */
  lemma PageAdds(all: seq<string>, ids: seq<string>, after: Option<string>, limit: nat)
    requires Ascending(all) && limit >= 1 && all == ids + AfterCursor(all, after)
    ensures var p := PageIn(all, after, limit);
            if p.next.Some? then
              all == ids + p.items + AfterCursor(all, p.next) && |AfterCursor(all, p.next)| < |AfterCursor(all, after)|
            else
              all == ids + p.items
  {
    PageThenRest(all, after, limit);
    var p := PageIn(all, after, limit);
    if p.next.Some? {
      assert ids + (p.items + AfterCursor(all, p.next)) == ids + p.items + AfterCursor(all, p.next);
    } else {
      assert p.items + [] == p.items;
    }
  }

  /** A query asked page after page until there is no cursor left. */
  method ReadEveryPage(all: seq<string>, limit: nat) returns (ids: seq<string>)
    requires Ascending(all) && limit >= 1
    ensures ids == all
  {
    AfterNothing(all);
    PageAdds(all, [], None, limit);
    var page := PageIn(all, None, limit);
    ids := page.items;
    while page.next.Some?
      invariant all == if page.next.Some? then ids + AfterCursor(all, page.next) else ids
      decreases if page.next.Some? then 1 + |AfterCursor(all, page.next)| else 0
    {
      PageAdds(all, ids, page.next, limit);
      page := PageIn(all, page.next, limit);
      ids := ids + page.items;
    }
  }

  /** Every page from a cursor on, one after the other. */
  function EveryPage(all: seq<string>, after: Option<string>, limit: nat): seq<string>
    requires Ascending(all) && limit >= 1
    decreases |AfterCursor(all, after)|
  {
    PageThenRest(all, after, limit);
    var p := PageIn(all, after, limit);
    if p.next.None? then p.items else p.items + EveryPage(all, p.next, limit)
  }

  /** **Following the cursor to its end lists every id once, ascending**, whatever the limit. */
  lemma {:induction false} EveryPageIsAll(all: seq<string>, after: Option<string>, limit: nat)
    requires Ascending(all) && limit >= 1
    ensures EveryPage(all, after, limit) == AfterCursor(all, after)
    ensures after.None? ==> EveryPage(all, after, limit) == all
    decreases |AfterCursor(all, after)|
  {
    PageThenRest(all, after, limit);
    AfterNothing(all);
    var p := PageIn(all, after, limit);
    if p.next.Some? { EveryPageIsAll(all, p.next, limit); }
  }
}
