/** The queue the others are measured by: a single map, kept in memory. */
module MemoryQueues {
  import opened Std
  import opened Earliest
  import opened Queue

  class MemoryQueue {
    var held: Deliveries

    /** What `randomUUID()` answers, call after call. */
    const uuids: nat -> string

    /** How many leases were drawn. */
    var drawn: nat

    constructor (uuids: nat -> string)
      ensures held == map[] && drawn == 0 && this.uuids == uuids
    {
      this.uuids, held, drawn := uuids, map[], 0;
    }

    /** Every delivery answered has a lease of its own, drawn by this claim. */
    ghost predicate NewLeases(before: nat, after: nat, out: seq<Queued>) {
      after == before + |out| && forall i :: 0 <= i < |out| ==> out[i].lease == uuids(before + i)
    }

    method InsertDeliveries(event: Event, endpoints: seq<string>, dueAt: int) returns (inserted: nat)
      modifies this`held
      ensures held == Inserted(old(held), event, endpoints, dueAt)
      ensures inserted == |held| - |old(held)|
    {
      inserted := 0;
      var all := Once(endpoints);
      for i := 0 to |all|
        invariant held == Inserted(old(held), event, all[..i], dueAt)
        invariant inserted == |held| - |old(held)|
      {
        assert all[..i + 1][..i] == all[..i];
        var id := DeliveryId(event, all[i]);
        if id in held { continue; }
        held := held[id := NewDelivery(event, all[i], dueAt)];
        inserted := inserted + 1;
      }
      assert all[..|all|] == all;
      InsertOnceIsInsert(old(held), event, endpoints, dueAt);
    }

    method ClaimDeliveries(endpoints: seq<string>, now: int, leaseUntil: int, limit: nat) returns (out: seq<Queued>)
      modifies this
      ensures Claimed(old(held), held, Once(endpoints), now, leaseUntil, limit, out)
      ensures NewLeases(old(drawn), drawn, out)
    {
      out := Claim(endpoints, now, leaseUntil, limit);
    }

    method ClaimOrphanedDeliveries(known: seq<string>, dueBefore: int, leaseUntil: int, limit: nat)
      returns (out: seq<Queued>, ghost walked: seq<string>)
      modifies this
      ensures Claimed(old(held), held, walked, dueBefore, leaseUntil, limit, out)
      ensures OrphanOrder(old(held), known, walked)
      ensures NewLeases(old(drawn), drawn, out)
    {
      var orphaned: seq<string> := [];
      var left := held.Keys;
      while left != {}
        invariant left <= held.Keys && held == old(held) && drawn == old(drawn)
        invariant forall e :: e in orphaned <==> e !in known && exists id ::
                    id in held && id !in left && held[id].endpoint == e
      {
        var id :| id in left;
        left := left - {id};
        if held[id].endpoint !in known { orphaned := orphaned + [held[id].endpoint]; }
      }
      walked := Once(orphaned);
      out := Claim(orphaned, dueBefore, leaseUntil, limit);
    }

    method ExtendLease(id: string, lease: string, until: int) returns (ok: bool)
      modifies this`held
      ensures ok == Leased(old(held), id, lease) && held == Extended(old(held), id, lease, until)
    {
      if !Leased(held, id, lease) { return false; }
      held := held[id := held[id].(due := until)];
      return true;
    }

    method ScheduleRetry(id: string, lease: string, dueAt: int, failed: Failure) returns (ok: bool)
      modifies this`held
      ensures ok == Leased(old(held), id, lease) && held == Retried(old(held), id, lease, dueAt, failed)
    {
      if !Leased(held, id, lease) { return false; }
      held := held[id := held[id].(failed := Some(failed), lease := None, due := dueAt)];
      return true;
    }

    method DeleteDelivery(id: string, lease: string) returns (ok: bool)
      modifies this`held
      ensures ok == Leased(old(held), id, lease) && held == Deleted(old(held), id, lease)
    {
      if !Leased(held, id, lease) { return false; }
      held := held - {id};
      return true;
    }

    /** Endpoint by endpoint, each one's due deliveries earliest first, up to `limit` in all. */
    method Claim(endpoints: seq<string>, at: int, leaseUntil: int, limit: nat) returns (out: seq<Queued>)
      modifies this
      ensures Claimed(old(held), held, Once(endpoints), at, leaseUntil, limit, out)
      ensures NewLeases(old(drawn), drawn, out)
    {
      hide Claimed;
      out := [];
      var all := Once(endpoints);
      ClaimNothing(held, all[..0], at, leaseUntil, limit);
      var i := 0;
      while i < |all| && |out| < limit
        invariant i <= |all| && |out| <= limit && Claimed(old(held), held, all[..i], at, leaseUntil, limit, out)
        invariant NewLeases(old(drawn), drawn, out)
      {
        ghost var mid := held;
        var more := ClaimEndpoint(all[i], at, leaseUntil, limit - |out|);
        WalkOne(old(held), mid, held, all, i, at, leaseUntil, limit, out, more);
        out := out + more;
        i := i + 1;
      }
      WalkStops(old(held), held, all, i, at, leaseUntil, limit, out);
    }

    /** Up to `limit` deliveries of one endpoint, earliest first. */
    method ClaimEndpoint(endpoint: string, at: int, leaseUntil: int, limit: nat) returns (out: seq<Queued>)
      modifies this
      ensures Claimed(old(held), held, [endpoint], at, leaseUntil, limit, out)
      ensures NewLeases(old(drawn), drawn, out)
    {
      var due := DueOf(held, endpoint, at);
      var n := if limit < |due| then limit else |due|;
      forall id | id in due[..n] ensures id in due { }
      out := ClaimList(due[..n], leaseUntil);
      assert |out| == |IdsOf(out)|;
      EndpointClaimed(old(held), held, endpoint, at, leaseUntil, limit, due, out);
    }

    /** Takes a list of deliveries one by one: an attempt and a new lease each. */
    method ClaimList(ids: seq<string>, leaseUntil: int) returns (out: seq<Queued>)
      requires Distinct(ids) && forall id :: id in ids ==> id in held
      modifies this
      ensures IdsOf(out) == ids && TakenAll(old(held), held, leaseUntil, out)
      ensures NewLeases(old(drawn), drawn, out)
    {
      hide TakenSoFar, NewLeases, Distinct;
      out := [];
      TakenStarts(held, leaseUntil, ids);
      NoneDrawn();
      for k := 0 to |ids|
        invariant |out| == k && TakenSoFar(old(held), held, leaseUntil, ids, out) && NewLeases(old(drawn), drawn, out)
      {
        TakenOne(old(held), held, leaseUntil, ids, out, uuids(drawn));
        var id, lease := ids[k], uuids(drawn);
        drawn := drawn + 1;
        held := held[id := Taken(held[id], lease, leaseUntil)];
        var one := QueuedOf(id, held[id], lease);
        OneMoreDrawn(old(drawn), drawn - 1, out, one);
        out := out + [one];
      }
      TakenEnds(old(held), held, leaseUntil, ids, out);
    }

    lemma NoneDrawn()
      ensures NewLeases(drawn, drawn, [])
    {
    }

    lemma OneMoreDrawn(before: nat, after: nat, out: seq<Queued>, one: Queued)
      requires NewLeases(before, after, out) && one.lease == uuids(after)
      ensures NewLeases(before, after + 1, out + [one])
    {
    }
  }

  /** The deliveries of the first ids taken, one after the other, and the rest as they were. */
  ghost predicate TakenSoFar(before: Deliveries, held: Deliveries, leaseUntil: int, ids: seq<string>,
                             out: seq<Queued>) {
    && |out| <= |ids| && held == TakeAll(before, leaseUntil, out)
    && (forall i :: 0 <= i < |out| ==> out[i].id == ids[i] && AnswersTaken(before, leaseUntil, out[i]))
    && (forall j :: |out| <= j < |ids| ==> ids[j] in held && ids[j] in before && held[ids[j]] == before[ids[j]])
  }

  lemma TakenStarts(held: Deliveries, leaseUntil: int, ids: seq<string>)
    requires forall id :: id in ids ==> id in held
    ensures TakenSoFar(held, held, leaseUntil, ids, [])
  {
  }

  lemma TakenOne(before: Deliveries, held: Deliveries, leaseUntil: int, ids: seq<string>, out: seq<Queued>,
                 lease: string)
    requires TakenSoFar(before, held, leaseUntil, ids, out) && |out| < |ids| && Distinct(ids)
    ensures ids[|out|] in held
    ensures var id := ids[|out|];
            var taken := Taken(held[id], lease, leaseUntil);
            TakenSoFar(before, held[id := taken], leaseUntil, ids, out + [QueuedOf(id, taken, lease)])
  {
    var id := ids[|out|];
    var one := QueuedOf(id, Taken(held[id], lease, leaseUntil), lease);
    assert (out + [one])[..|out|] == out && (out + [one])[|out|] == one;
  }

  lemma TakenEnds(before: Deliveries, held: Deliveries, leaseUntil: int, ids: seq<string>, out: seq<Queued>)
    requires TakenSoFar(before, held, leaseUntil, ids, out) && |out| == |ids| && Distinct(ids)
    ensures IdsOf(out) == ids && TakenAll(before, held, leaseUntil, out)
  {
    assert IdsOf(out) == ids;
    TakeAllTakes(before, leaseUntil, out);
  }

  /** All an endpoint has due by `at`, sorted by when it fell due. */
  method DueOf(held: Deliveries, endpoint: string, at: int) returns (ids: seq<string>)
    ensures IsEarliest(DueMap(held, endpoint, at), |DueMap(held, endpoint, at)|, ids)
  {
    ids := TakeEarliest(DueMap(held, endpoint, at), |DueMap(held, endpoint, at)|);
  }

  function DueMap(held: Deliveries, endpoint: string, at: int): map<string, int> {
    map id | id in held && held[id].endpoint == endpoint && held[id].due <= at :: held[id].due
  }

  /** Of one endpoint, the due order is the order walked. */
  lemma OneEndpointOrder(held: Deliveries, e: string, a: string, b: string)
    requires a in held && b in held && held[a].endpoint == held[b].endpoint == e && held[a].due <= held[b].due
    ensures NoLater(held, [e], a, b)
  {
  }

  /** Claiming the front of the due list is the claim of that endpoint. */
  lemma EndpointClaimed(before: Deliveries, after: Deliveries, e: string, at: int, leaseUntil: int, limit: nat,
                        due: seq<string>, out: seq<Queued>)
    requires var m := DueMap(before, e, at); IsEarliest(m, |m|, due)
    requires |out| == (if limit < |due| then limit else |due|) && IdsOf(out) == due[..|out|]
    requires TakenAll(before, after, leaseUntil, out)
    ensures Claimed(before, after, [e], at, leaseUntil, limit, out)
  {
    var m := DueMap(before, e, at);
    assert m.Keys == DueIds(before, [e], at);
    assert |m| == |m.Keys|;
    ShortIsAll(m, |m|, due);
    FrontChosen(before, e, at, due, out);
  }

  lemma FrontChosen(held: Deliveries, e: string, at: int, due: seq<string>, out: seq<Queued>)
    requires var m := DueMap(held, e, at); IsEarliest(m, |m|, due) && Members(due) == m.Keys
    requires |out| <= |due| && IdsOf(out) == due[..|out|]
    ensures Chosen(held, [e], at, out)
  {
    var m := DueMap(held, e, at);
    forall i | 0 <= i < |out| ensures out[i].id == due[i] && out[i].id in m { assert IdsOf(out)[i] == due[..|out|][i]; }
    forall i, j | 0 <= i < j < |out| ensures NoLater(held, [e], out[i].id, out[j].id) && out[i].id != out[j].id {
      OneEndpointOrder(held, e, due[i], due[j]);
    }
    forall i, id | 0 <= i < |out| && id in DueIds(held, [e], at) && id !in IdsOf(out)
      ensures NoLater(held, [e], out[i].id, id)
    {
      forall k | 0 <= k < |out| ensures due[k] in IdsOf(out) { assert IdsOf(out)[k] == due[k]; }
      assert id in Members(due);
      var j :| 0 <= j < |due| && due[j] == id;
      OneEndpointOrder(held, e, due[i], id);
    }
  }

  /** Naming an endpoint twice inserts what naming it once does. */
  lemma {:induction false} InsertOnceIsInsert(held: Deliveries, event: Event, endpoints: seq<string>, dueAt: int)
    ensures Inserted(held, event, Once(endpoints), dueAt) == Inserted(held, event, endpoints, dueAt)
  {
    if endpoints != [] {
      var init, last := endpoints[..|endpoints| - 1], endpoints[|endpoints| - 1];
      InsertOnceIsInsert(held, event, init, dueAt);
      if last in Once(init) {
        InsertKeeps(held, event, init, dueAt, "");
      } else {
        assert (Once(init) + [last])[..|Once(init)|] == Once(init);
      }
    }
  }
}
