/** The earliest members of a scored set: what a sort and a slice, or a range by score, answer. */
module Earliest {

  ghost predicate Distinct<T>(s: seq<T>) {
    forall i, j :: 0 <= i < j < |s| ==> s[i] != s[j]
  }

  function Members<T>(s: seq<T>): set<T> {
    set x | x in s
  }

  lemma {:induction false} DistinctSize<T>(s: seq<T>)
    requires Distinct(s)
    ensures |Members(s)| == |s|
  {
    if s != [] {
      var init := s[..|s| - 1];
      assert Members(s) == Members(init) + {s[|s| - 1]};
      DistinctSize(init);
    }
  }

  lemma {:induction false} SubsetSize<T>(a: set<T>, b: set<T>)
    requires a <= b
    ensures |a| <= |b|
    ensures |a| == |b| ==> a == b
  {
    if x :| x in a {
      SubsetSize(a - {x}, b - {x});
    }
  }

  /** `ids` are `limit` members of `scores` — or all, when there are fewer — and none left out is earlier. */
  ghost predicate IsEarliest(scores: map<string, int>, limit: nat, ids: seq<string>) {
    && Distinct(ids)
    && (forall id :: id in ids ==> id in scores)
    && |ids| == (if limit < |scores| then limit else |scores|)
    && (forall i, j :: 0 <= i < j < |ids| ==> scores[ids[i]] <= scores[ids[j]])
    && (forall i, id :: 0 <= i < |ids| && id in scores && id !in ids ==> scores[ids[i]] <= scores[id])
  }

  /** When a list shorter than its limit was answered, nothing was left out. */
  lemma ShortIsAll(scores: map<string, int>, limit: nat, ids: seq<string>)
    requires IsEarliest(scores, limit, ids) && (|ids| < limit || limit >= |scores|)
    ensures Members(ids) == scores.Keys
  {
    DistinctSize(ids);
    SubsetSize(Members(ids), scores.Keys);
  }

  lemma {:induction false} FirstExists(scores: map<string, int>, left: set<string>)
    requires left != {} && left <= scores.Keys
    ensures exists x :: x in left && forall y :: y in left ==> scores[x] <= scores[y]
  {
    var x :| x in left;
    if left != {x} {
      FirstExists(scores, left - {x});
      var y :| y in left - {x} && forall z :: z in left - {x} ==> scores[y] <= scores[z];
      var least := if scores[x] <= scores[y] then x else y;
      assert forall z :: z in left ==> scores[least] <= scores[z];
    }
  }

  /** The earliest so far, and what is left. */
  ghost predicate Taking(scores: map<string, int>, ids: seq<string>, left: set<string>) {
    && Distinct(ids) && left <= scores.Keys && |ids| + |left| == |scores|
    && (forall id :: id in scores <==> id in left || id in ids)
    && (forall id :: id in ids ==> id !in left)
    && (forall i, j :: 0 <= i < j < |ids| ==> scores[ids[i]] <= scores[ids[j]])
    && (forall i, id :: 0 <= i < |ids| && id in left ==> scores[ids[i]] <= scores[id])
  }

  lemma TakeOne(scores: map<string, int>, ids: seq<string>, left: set<string>, id: string)
    requires Taking(scores, ids, left) && id in left && forall y :: y in left ==> scores[id] <= scores[y]
    ensures Taking(scores, ids + [id], left - {id})
  {
  }

  /** Equal scores come in any order. */
  method TakeEarliest(scores: map<string, int>, limit: nat) returns (ids: seq<string>)
    ensures IsEarliest(scores, limit, ids)
  {
    ids := [];
    var left := scores.Keys;
    while |ids| < limit && left != {}
      invariant Taking(scores, ids, left) && |ids| <= limit
      decreases left
    {
      FirstExists(scores, left);
      var id :| id in left && forall y :: y in left ==> scores[id] <= scores[y];
      TakeOne(scores, ids, left, id);
      ids := ids + [id];
      left := left - {id};
    }
  }
}
