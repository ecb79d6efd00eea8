/**
 * The durable queue over Redis: a hash per delivery, a sorted set of ids per
 * endpoint scored by when each is due, and the set of endpoints with
 * deliveries waiting. Each method is one script, atomic at one instant.
 */
module RedisQueues {
  import opened Std
  import opened Order
  import opened Earliest
  import opened Queue

  /** A delivery's hash. A released lease and an absent error are `''`. */
  datatype Hash = Hash(event: Event, endpoint: string, attempts: nat, lease: string,
                       failure: Option<(Option<nat>, string)>)

  /** A member of an endpoint's sorted set; the sets together map each to its score. */
  datatype Member = Member(endpoint: string, id: string)

  type Due = map<Member, int>

  /** How one write of an insert is undone. */
  datatype Undo = Zrem(endpoint: string, id: string) | Srem(endpoint: string) | Del(id: string)

  /** Neither the event's id nor its type holds a colon: a UUID, and one of the listed types. */
  predicate WellNamed(event: Event) {
    ':' !in event.id && ':' !in event.kind
  }

  lemma {:induction false} ColonSplits(a: string, b: string, x: string, y: string)
    requires ':' !in a && ':' !in b && a + ":" + x == b + ":" + y
    ensures a == b && x == y
  {
    assert (a + ":" + x)[0] == (b + ":" + y)[0];
    if a == "" || b == "" {
      assert (a + ":" + x)[|a|] == ':' && (b + ":" + y)[|b|] == ':';
      assert |a| == |b|;
      assert (a + ":" + x)[1..] == x && (b + ":" + y)[1..] == y;
    } else {
      assert (a + ":" + x)[0] == a[0] && (b + ":" + y)[0] == b[0];
      assert (a + ":" + x)[1..] == a[1..] + ":" + x;
      assert (b + ":" + y)[1..] == b[1..] + ":" + y;
      ColonSplits(a[1..], b[1..], x, y);
    }
  }

  /** **Well named, an event makes an id for one endpoint only**, whatever other event makes it. */
  lemma MadeForOne(a: Event, e: string, b: Event, f: string)
    requires WellNamed(a) && WellNamed(b) && DeliveryId(a, e) == DeliveryId(b, f)
    ensures e == f
  {
    var id := DeliveryId(a, e);
    assert id == a.id + ":" + (a.kind + ":" + e) == b.id + ":" + (b.kind + ":" + f);
    ColonSplits(a.id, b.id, a.kind + ":" + e, b.kind + ":" + f);
    ColonSplits(a.kind, b.kind, e, f);
  }

  /** One event makes its ids apart, well named or not. */
  lemma IdsApart(event: Event, e: string, f: string)
    requires DeliveryId(event, e) == DeliveryId(event, f)
    ensures e == f
  {
    var head := event.id + ":" + event.kind + ":";
    assert DeliveryId(event, e)[|head|..] == e && DeliveryId(event, f)[|head|..] == f;
  }

  // ----- what the keys stand for

  function FailureOf(failure: Option<(Option<nat>, string)>): Option<Failure> {
    if failure.None? then None
    else Some(Failure(failure.value.0, if failure.value.1 == "" then None else Some(failure.value.1)))
  }

  /** A failure written and read back: an error of `''` is read as none. */
  function ReadBack(failed: Failure): Failure {
    if failed.error == Some("") then failed.(error := None) else failed
  }

  function HeldOf(hash: Hash, score: int): Held {
    Held(hash.event, hash.endpoint, hash.attempts, FailureOf(hash.failure),
         if hash.lease == "" then None else Some(hash.lease), score)
  }

  /** Every delivery has its member in its endpoint's set. */
  ghost predicate Indexed(hashes: map<string, Hash>, due: Due) {
    forall id :: id in hashes ==> Member(hashes[id].endpoint, id) in due
  }

  /** A delivery is a member of no other endpoint's set. */
  ghost predicate Rightly(hashes: map<string, Hash>, due: Due) {
    forall m :: m in due && m.id in hashes ==> hashes[m.id].endpoint == m.endpoint
  }

  ghost predicate Listed(due: Due, endpoints: set<string>) {
    forall m :: m in due ==> m.endpoint in endpoints
  }

  /**
   * No delivery is lost from its set, and no endpoint with members from the
   * endpoints: in every state a run reaches (`Run`).
   */
  ghost predicate Sound(hashes: map<string, Hash>, due: Due, endpoints: set<string>) {
    Indexed(hashes, due) && Rightly(hashes, due) && Listed(due, endpoints)
  }

  /** The deliveries the keys stand for. A member whose hash is gone stands for nothing. */
  function DeliveriesOf(hashes: map<string, Hash>, due: Due): (r: Deliveries)
    requires Indexed(hashes, due)
    ensures r.Keys == hashes.Keys
  {
    map id | id in hashes :: HeldOf(hashes[id], due[Member(hashes[id].endpoint, id)])
  }

  lemma IndexedIfSound(hashes: map<string, Hash>, due: Due, endpoints: set<string>)
    requires Sound(hashes, due, endpoints)
    ensures Indexed(hashes, due) && Rightly(hashes, due) && Listed(due, endpoints)
  {
  }

  lemma AsMany(hashes: map<string, Hash>, due: Due)
    requires Indexed(hashes, due)
    ensures |DeliveriesOf(hashes, due)| == |hashes|
  {
  }

  /** A member with a hash is its own endpoint's. */
  lemma MemberIsOwn(hashes: map<string, Hash>, due: Due, m: Member)
    requires Indexed(hashes, due) && Rightly(hashes, due) && m in due && m.id in hashes
    ensures hashes[m.id].endpoint == m.endpoint
  {
  }

  class RedisQueue {
    var hashes: map<string, Hash>
    var due: Due
    var endpoints: set<string>

    ghost predicate Valid()
      reads this
    {
      Sound(hashes, due, endpoints)
    }

    ghost function Deliveries(): Deliveries
      reads this
      requires Valid()
    {
      DeliveriesOf(hashes, due)
    }

    constructor ()
      ensures Valid() && Deliveries() == map[] && due == map[]
    {
      hashes, due, endpoints := map[], map[], {};
    }

    method Zadd(endpoint: string, id: string, score: int)
      modifies this`due
      ensures due == old(due)[Member(endpoint, id) := score]
    {
      due := due[Member(endpoint, id) := score];
    }

    /** `until`, while the lease is held. */
    method ExtendLease(id: string, lease: string, until: int) returns (ok: bool)
      requires Valid()
      modifies this`due
      ensures Valid() && ok == Leased(old(Deliveries()), id, lease)
      ensures Deliveries() == Extended(old(Deliveries()), id, lease, until) && due.Keys <= old(due).Keys
    {
      if lease == "" || id !in hashes || hashes[id].lease != lease { return false; }
      Zadd(hashes[id].endpoint, id, until);
      ScoreMoved(hashes, old(due), due, endpoints, id, until);
      return true;
    }

    /** Due again at `dueAt`, remembering the failure, the lease released. */
    method ScheduleRetry(id: string, lease: string, dueAt: int, failed: Failure) returns (ok: bool)
      requires Valid()
      modifies this`hashes, this`due
      ensures Valid() && ok == Leased(old(Deliveries()), id, lease)
      ensures Deliveries() == Retried(old(Deliveries()), id, lease, dueAt, ReadBack(failed))
      ensures due.Keys <= old(due).Keys
    {
      hide Sound, DeliveriesOf, Indexed, Rightly, Listed;
      IndexedIfSound(hashes, due, endpoints);
      LeasedInHash(hashes, due, id, lease);
      if lease == "" || id !in hashes || hashes[id].lease != lease { return false; }
      DeliveryAt(hashes, due, id);
      var endpoint := hashes[id].endpoint;
      var hash := hashes[id].(failure := Some((failed.status, if failed.error.None? then "" else failed.error.value)),
                              lease := "");
      hashes := hashes[id := hash];
      HashRewritten(old(hashes), hashes, due, endpoints, id, hash);
      Zadd(endpoint, id, dueAt);
      ScoreMoved(hashes, old(due), due, endpoints, id, dueAt);
      return true;
    }

    /** Removed, while the lease is held. The hash first: its member is dropped by the next claim, were it left. */
    method DeleteDelivery(id: string, lease: string) returns (ok: bool)
      requires Valid()
      modifies this
      ensures Valid() && ok == Leased(old(Deliveries()), id, lease)
      ensures Deliveries() == Deleted(old(Deliveries()), id, lease) && due.Keys <= old(due).Keys
    {
      hide Indexed, Rightly, Listed, DeliveriesOf;
      LeasedInHash(hashes, due, id, lease);
      if lease == "" || id !in hashes || hashes[id].lease != lease { return false; }
      var endpoint := hashes[id].endpoint;
      HashGone(hashes, due, endpoints, id);
      hashes := hashes - {id};
      Zrem(endpoint, id);
      Unlist(endpoint);
      return true;
    }

    /** Drops a member whose hash is gone. */
    method Zrem(endpoint: string, id: string)
      requires Valid() && id !in hashes
      modifies this`due
      ensures Valid() && Deliveries() == old(Deliveries())
      ensures due == old(due) - {Member(endpoint, id)}
    {
      due := due - {Member(endpoint, id)};
    }

    /** The endpoint leaves the endpoints with its last member. */
    method Unlist(endpoint: string)
      requires Listed(due, endpoints)
      modifies this`endpoints
      ensures Listed(due, endpoints)
    {
      if forall m | m in due :: m.endpoint != endpoint { endpoints := endpoints - {endpoint}; }
    }

    /** A key deleted by hand: the delivery is gone, and its member is left behind. */
    method DeleteHashByHand(id: string)
      requires Valid()
      modifies this`hashes
      ensures Valid() && Deliveries() == old(Deliveries()) - {id}
    {
      hashes := hashes - {id};
    }

    // ----- claiming

    /** `endpoints` in the order given, each walked once. */
    method ClaimDeliveries(to: seq<string>, now: int, leaseUntil: int, limit: nat, lease: string)
      returns (out: seq<Queued>)
      requires Valid() && lease != ""
      modifies this
      ensures Valid() && Claimed(old(Deliveries()), Deliveries(), Once(to), now, leaseUntil, limit, out)
      ensures (forall i :: 0 <= i < |out| ==> out[i].lease == lease) && due.Keys <= old(due).Keys
    {
      hide Claimed, Sound, DeliveriesOf, Once, SeenIn, AnswersLive, Indexed, Rightly, Listed;
      out := [];
      var seen, walked := {}, {};
      var remaining: nat := limit;
      var i := 0;
      ghost var done: seq<string> := [];
      OnceOfNone(to);
      ClaimNothing(Deliveries(), done, now, leaseUntil, limit);
      NoneSeen(hashes, done);
      while i < |to| && remaining > 0
        invariant Valid() && i <= |to| && remaining + |out| == limit
        invariant done == Once(to[..i]) && SeenIn(seen, hashes, done)
        invariant Claimed(old(Deliveries()), Deliveries(), done, now, leaseUntil, limit, out)
        invariant forall e :: e in walked <==> e in done
        invariant (forall j :: 0 <= j < |out| ==> out[j].lease == lease) && due.Keys <= old(due).Keys
      {
        OnceNext(to, i);
        if to[i] !in walked {
          ghost var mid, h := Deliveries(), hashes;
          ghost var d := due;
          SeenNotHere(seen, hashes, due, endpoints, done, to[i]);
          var more, more' := ClaimFrom(to[i], now, leaseUntil, lease, remaining, seen);
          AnsweredHere(h, d, to[i], now, leaseUntil, lease, remaining, more, hashes);
          ClaimMore(old(Deliveries()), mid, Deliveries(), done, to[i], now, leaseUntil, limit, out, more);
          SeenMore(seen, h, done, to[i], more', hashes);
          seen, done := more', done + [to[i]];
          out := out + more;
          remaining := remaining - |more|;
          walked := walked + {to[i]};
        }
        i := i + 1;
      }
      ghost var rest := OnceIsPrefix(to, i);
      assert Distinct(Once(to));
      if i < |to| {
        ClaimStops(old(Deliveries()), Deliveries(), done, rest, now, leaseUntil, limit, out);
      } else {
        assert to[..i] == to;
      }
    }

    /** The same claim over every endpoint with members that is not known, in the order of their ids. */
    method ClaimOrphanedDeliveries(known: seq<string>, dueBefore: int, leaseUntil: int, limit: nat, lease: string)
      returns (out: seq<Queued>, ghost walked: seq<string>)
      requires Valid() && lease != ""
      modifies this
      ensures Valid() && Claimed(old(Deliveries()), Deliveries(), walked, dueBefore, leaseUntil, limit, out)
      ensures OrphanOrder(old(Deliveries()), known, walked)
      ensures (forall i :: 0 <= i < |out| ==> out[i].lease == lease) && due.Keys <= old(due).Keys
    {
      hide Claimed, Sound, DeliveriesOf, SeenIn, AnswersLive, Indexed, Rightly, Listed;
      var orphaned := Sorted(endpoints - Members(known));
      SortedOrphans(hashes, due, endpoints, known);
      walked := orphaned;
      out := [];
      var seen := {};
      var remaining: nat := limit;
      var i := 0;
      ClaimNothing(Deliveries(), orphaned[..0], dueBefore, leaseUntil, limit);
      NoneSeen(hashes, orphaned[..0]);
      while i < |orphaned| && remaining > 0
        invariant Valid() && i <= |orphaned| && remaining + |out| == limit
        invariant Claimed(old(Deliveries()), Deliveries(), orphaned[..i], dueBefore, leaseUntil, limit, out)
        invariant SeenIn(seen, hashes, orphaned[..i])
        invariant (forall j :: 0 <= j < |out| ==> out[j].lease == lease) && due.Keys <= old(due).Keys
      {
        ghost var mid, h := Deliveries(), hashes;
        assert orphaned[..i + 1] == orphaned[..i] + [orphaned[i]];
        ghost var d := due;
        SeenNotHere(seen, hashes, due, endpoints, orphaned[..i], orphaned[i]);
        var more, more' := ClaimFrom(orphaned[i], dueBefore, leaseUntil, lease, remaining, seen);
        AnsweredHere(h, d, orphaned[i], dueBefore, leaseUntil, lease, remaining, more, hashes);
        SeenMore(seen, h, orphaned[..i], orphaned[i], more', hashes);
        seen := more';
        WalkOne(old(Deliveries()), mid, Deliveries(), orphaned, i, dueBefore, leaseUntil, limit, out, more);
        out := out + more;
        remaining := remaining - |more|;
        i := i + 1;
      }
      WalkStops(old(Deliveries()), Deliveries(), orphaned, i, dueBefore, leaseUntil, limit, out);
    }

    /**
     * Claims up to `remaining` deliveries of one endpoint due at `now`,
     * earliest first. A member whose hash is gone is dropped on the way, and
     * the range is read again; what this call claimed already, still in range
     * when its lease ends at `now` or before, is not claimed twice.
     */
    method ClaimFrom(endpoint: string, now: int, leaseUntil: int, lease: string, remaining: nat, seen: set<string>)
      returns (out: seq<Queued>, seen': set<string>)
      requires Indexed(hashes, due) && Listed(due, endpoints) && lease != ""
      requires forall id :: id in seen ==> Member(endpoint, id) !in due
      modifies this
      ensures Indexed(hashes, due) && Listed(due, endpoints) && due.Keys <= old(due).Keys
      ensures AnswersLive(old(hashes), old(due), endpoint, now, leaseUntil, lease, remaining, out)
      ensures old(Valid()) ==>
                Valid() && Claimed(old(Deliveries()), Deliveries(), [endpoint], now, leaseUntil, remaining, out)
      ensures forall id :: id in old(hashes) ==> id in hashes && hashes[id].endpoint == old(hashes)[id].endpoint
      ensures forall id :: id in seen' ==> id in seen || id in IdsOf(out)
    {
      hide Rightly, Claimed, DeliveriesOf, Progress, AnswersLive;
      out, seen' := [], seen;
      var left: nat := remaining;
      ghost var h, d := hashes, due;
      var stale := true;
      NoProgressYet(h, d, endpoint, now, leaseUntil, lease);
      while left > 0 && stale
        invariant Progress(h, d, endpoint, now, leaseUntil, lease, hashes, due, out) && endpoints == old(endpoints)
        invariant left + |out| == remaining
        invariant forall id :: id in seen' <==> id in seen || id in IdsOf(out)
        invariant left == 0 || stale || AllClaimed(h, d, endpoint, now, out)
        decreases if stale then 1 + |due| else 0
      {
        left, seen', stale, out := Pass(endpoint, now, leaseUntil, lease, left, seen', out, h, d);
      }
      ProgressAnswers(h, d, endpoints, endpoint, now, leaseUntil, lease, hashes, due, remaining, out);
      if old(Valid()) {
        ProgressKeeps(h, d, endpoints, endpoint, now, leaseUntil, lease, hashes, due, out);
        ProgressIsClaim(h, d, endpoints, endpoint, now, leaseUntil, lease, hashes, due, remaining, out);
      }
      Unlist(endpoint);
    }

    /** One reading of the range, and what it claims and drops. */
    method Pass(endpoint: string, now: int, leaseUntil: int, lease: string, remaining: nat, seen: set<string>,
                claimed: seq<Queued>, ghost h: map<string, Hash>, ghost d: Due)
      returns (left: nat, seen': set<string>, stale: bool, out: seq<Queued>)
      requires remaining > 0
      requires Progress(h, d, endpoint, now, leaseUntil, lease, hashes, due, claimed)
      requires forall id :: id in seen && Member(endpoint, id) in d ==> id in IdsOf(claimed)
      requires forall id :: id in IdsOf(claimed) ==> id in seen
      modifies this`hashes, this`due
      ensures Progress(h, d, endpoint, now, leaseUntil, lease, hashes, due, out)
      ensures left + |out| == remaining + |claimed|
      ensures forall id :: id in seen' <==> id in seen || id in IdsOf(out)
      ensures forall id :: id in IdsOf(claimed) ==> id in IdsOf(out)
      ensures stale ==> |due| < |old(due)|
      ensures left == 0 || stale || AllClaimed(h, d, endpoint, now, out)
    {
      hide Progress, Passing, IsEarliest, IdsOf, HeldOf, TakenHash, EarliestLive, Live, AllClaimed;
      RangeIsOld(h, d, endpoint, now, leaseUntil, lease, hashes, due, claimed);
      var range := InRange(due, endpoint, now);
      var ids := TakeEarliest(range, remaining + |claimed|);
      EarliestAreScored(range, remaining + |claimed|, ids);
      left, seen', stale, out := remaining, seen, false, claimed;
      PassBegins(h, claimed, ids, remaining, seen);
      for k := 0 to |ids|
        invariant Progress(h, d, endpoint, now, leaseUntil, lease, hashes, due, out)
        invariant Passing(h, claimed, ids, k, remaining, seen, left, seen', stale, out)
        invariant |due| <= |old(due)| && (stale ==> |due| < |old(due)|)
        invariant forall j :: k <= j < |ids| ==> Member(endpoint, ids[j]) in due
      {
        var id := ids[k];
        assert Member(endpoint, id) in d;
        if id in seen' || left == 0 {
          // one of its own, or no room for another
          PassSkips(h, claimed, ids, k, remaining, seen, left, seen', stale, out);
        } else if id !in hashes {
          DropsOne(h, d, endpoint, now, leaseUntil, lease, hashes, due, claimed, ids, k, remaining, seen, left, seen',
                   stale, out);
          due := due - {Member(endpoint, id)};
          stale := true;
        } else {
          ClaimsOne(h, d, endpoint, now, leaseUntil, lease, old(hashes), old(due), hashes, due, claimed, ids, k,
                    remaining, seen, left, seen', stale, out);
          hashes := hashes[id := TakenHash(hashes[id], lease)];
          var one := QueuedOf(id, HeldOf(hashes[id], leaseUntil), lease);
          seen' := seen' + {id};
          due := due[Member(endpoint, id) := leaseUntil];
          out := out + [one];
          left := left - 1;
        }
      }
      PassEnds(h, d, endpoint, now, leaseUntil, lease, old(hashes), old(due), claimed, ids, remaining, seen, left,
               seen', stale, out);
    }

    // ----- inserting

    /**
     * One delivery per endpoint, all or none. `refused` is the write Redis
     * refuses, counting from zero, if any: the writes before it are undone,
     * in reverse, and every delivery is as it was. **The keys go on agreeing
     * exactly unless a member without its hash is left, at another endpoint,
     * under the id of a delivery inserted.** Its own deliveries are the only
     * members it adds.
     */
    method InsertDeliveries(event: Event, to: seq<string>, dueAt: int, refused: Option<nat>)
      returns (inserted: Option<nat>)
      requires Valid()
      modifies this
      ensures Indexed(hashes, due) && Listed(due, endpoints)
      ensures inserted.Some? ==> DeliveriesOf(hashes, due) == Inserted(old(Deliveries()), event, to, dueAt)
      ensures inserted.Some? ==> inserted.value == |DeliveriesOf(hashes, due)| - |old(Deliveries())|
      ensures inserted.Some? ==> (Valid() <==> LeftToNoOther(old(hashes), old(due), event, to))
      ensures inserted.None? ==> refused.Some? && Valid() && Deliveries() == old(Deliveries())
      ensures inserted.None? ==> hashes == old(hashes) && endpoints == old(endpoints) && due.Keys <= old(due).Keys
      ensures inserted.Some? ==> Grown(old(hashes), old(due), hashes, due, event, to)
      ensures refused.None? ==> inserted.Some?
    {
      hide Undoable, Indexed, Listed, Rightly, DeliveriesOf, Grown, LeftToNoOther;
      var undo: seq<Undo> := [];
      var count := 0;
      NothingToUndo(hashes, due, endpoints);
      NotYetGrown(hashes, due, event, to);
      AsMany(hashes, due);
      for i := 0 to |to|
        invariant Indexed(hashes, due) && Listed(due, endpoints)
        invariant DeliveriesOf(hashes, due) == Inserted(old(Deliveries()), event, to[..i], dueAt)
        invariant count == |hashes| - |old(hashes)| && Grown(old(hashes), old(due), hashes, due, event, to[..i])
        invariant Rightly(hashes, due) <==> LeftToNoOther(old(hashes), old(due), event, to[..i])
        invariant Undoable(old(hashes), old(due), old(endpoints), hashes, due, endpoints, undo)
      {
        assert to[..i + 1] == to[..i] + [to[i]];
        assert to[..i + 1][..i] == to[..i];
        if DeliveryId(event, to[i]) in hashes {
          GrowsNoMore(old(hashes), old(due), hashes, due, event, to[..i], to[i]);
          continue;
        }
        GrowsBy(old(hashes), old(due), hashes, due, event, to[..i], to[i], dueAt);
        var ok;
        ok, undo := InsertOne(event, to[i], dueAt, refused, undo, old(hashes), old(due), old(endpoints));
        if !ok {
          Rollback(undo, old(hashes), old(due), old(endpoints));
          return None;
        }
        count := count + 1;
      }
      assert to[..|to|] == to;
      AsMany(hashes, due);
      return Some(count);
    }

    /** The writes of one delivery, each recording how it is undone; false once one is refused. */
    method InsertOne(event: Event, endpoint: string, dueAt: int, refused: Option<nat>, undo: seq<Undo>,
                     ghost hashes0: map<string, Hash>, ghost due0: Due, ghost endpoints0: set<string>)
      returns (ok: bool, undo': seq<Undo>)
      requires Indexed(hashes, due) && Listed(due, endpoints) && DeliveryId(event, endpoint) !in hashes
      requires Undoable(hashes0, due0, endpoints0, hashes, due, endpoints, undo)
      modifies this
      ensures Undoable(hashes0, due0, endpoints0, hashes, due, endpoints, undo')
      ensures ok ==> Indexed(hashes, due) && Listed(due, endpoints)
      ensures ok ==> DeliveriesOf(hashes, due) == InsertedOne(old(DeliveriesOf(hashes, due)), event, endpoint, dueAt)
      ensures ok ==> hashes == old(hashes)[DeliveryId(event, endpoint) := NewHash(event, endpoint)]
      ensures ok ==> due == old(due)[Member(endpoint, DeliveryId(event, endpoint)) := dueAt]
      ensures !ok ==> refused.Some?
    {
      hide Indexed, Listed, Undoable, DeliveriesOf;
      var id := DeliveryId(event, endpoint);
      undo' := undo;
      if refused == Some(|undo'|) { return false, undo'; }
      UndoesZadd(hashes0, due0, endpoints0, hashes, due, endpoints, undo', Member(endpoint, id), dueAt);
      Zadd(endpoint, id, dueAt);
      undo' := undo' + [Undo.Zrem(endpoint, id)];
      if endpoint !in endpoints {
        if refused == Some(|undo'|) { return false, undo'; }
        UndoesSadd(hashes0, due0, endpoints0, hashes, due, endpoints, undo', endpoint);
        endpoints := endpoints + {endpoint};
        undo' := undo' + [Undo.Srem(endpoint)];
      }
      if refused == Some(|undo'|) { return false, undo'; }
      UndoesHset(hashes0, due0, endpoints0, hashes, due, endpoints, undo', id, NewHash(event, endpoint));
      hashes := hashes[id := NewHash(event, endpoint)];
      undo' := undo' + [Undo.Del(id)];
      assert endpoints == old(endpoints) + {endpoint};
      DeliveryAdded(old(hashes), old(due), old(endpoints), hashes, due, endpoints, event, endpoint, dueAt);
      return true, undo';
    }

    /** Undoes the writes made, the last first. */
    method Rollback(undo: seq<Undo>, ghost hashes0: map<string, Hash>, ghost due0: Due, ghost endpoints0: set<string>)
      requires Sound(hashes0, due0, endpoints0)
      requires Undoable(hashes0, due0, endpoints0, hashes, due, endpoints, undo)
      modifies this
      ensures hashes == hashes0 && endpoints == endpoints0 && Valid() && Deliveries() == DeliveriesOf(hashes0, due0)
      ensures due.Keys <= due0.Keys
    {
      hide Undoable, Sound, DeliveriesOf;
      var i := |undo|;
      assert undo[..i] == undo;
      while i > 0
        invariant i <= |undo| && Undoable(hashes0, due0, endpoints0, hashes, due, endpoints, undo[..i])
      {
        i := i - 1;
        assert undo[..i + 1] == undo[..i] + [undo[i]];
        OneUndone(hashes0, due0, endpoints0, hashes, due, endpoints, undo[..i], undo[i]);
        match undo[i]
        case Zrem(endpoint, id) => due := due - {Member(endpoint, id)};
        case Srem(endpoint) => endpoints := endpoints - {endpoint};
        case Del(id) => hashes := hashes - {id};
      }
      AllUndone(hashes0, due0, endpoints0, hashes, due, endpoints);
    }
  }

  // ----- runs

  /** One script, or a hash deleted by hand. */
  datatype Script =
    | Insert(event: Event, to: seq<string>, dueAt: int, refused: Option<nat>)
    | Claim(to: seq<string>, now: int, leaseUntil: int, limit: nat, lease: string)
    | ClaimOrphaned(known: seq<string>, dueBefore: int, leaseUntil: int, limit: nat, lease: string)
    | Extend(id: string, lease: string, until: int)
    | Retry(id: string, lease: string, dueAt: int, failed: Failure)
    | Delete(id: string, lease: string)
    | LoseHash(id: string)

  datatype Reply = Took(count: Option<nat>) | Answers(out: seq<Queued>) | Done(ok: bool) | Nothing

  /** What the port promises of a script's answer, and of the deliveries after it. */
  ghost predicate Follows(held: Deliveries, script: Script, reply: Reply, held': Deliveries) {
    match script
    case Insert(event, to, dueAt, refused) =>
      reply.Took? &&
      if reply.count.Some? then
        held' == Queue.Inserted(held, event, to, dueAt) && reply.count.value == |held'| - |held|
      else
        refused.Some? && held' == held
    case Claim(to, now, leaseUntil, limit, lease) =>
      reply.Answers? && Claimed(held, held', Once(to), now, leaseUntil, limit, reply.out) &&
      forall i :: 0 <= i < |reply.out| ==> reply.out[i].lease == lease
    case ClaimOrphaned(known, dueBefore, leaseUntil, limit, lease) =>
      reply.Answers? && ClaimedOrphans(held, held', known, dueBefore, leaseUntil, limit, reply.out) &&
      forall i :: 0 <= i < |reply.out| ==> reply.out[i].lease == lease
    case Extend(id, lease, until) =>
      reply == Done(Leased(held, id, lease)) && held' == Extended(held, id, lease, until)
    case Retry(id, lease, dueAt, failed) =>
      reply == Done(Leased(held, id, lease)) && held' == Retried(held, id, lease, dueAt, ReadBack(failed))
    case Delete(id, lease) =>
      reply == Done(Leased(held, id, lease)) && held' == Deleted(held, id, lease)
    case LoseHash(id) =>
      reply == Nothing && held' == held - {id}
  }

  /** A claim over every endpoint with deliveries that is not known, in some order. */
  ghost predicate ClaimedOrphans(held: Deliveries, held': Deliveries, known: seq<string>, at: int, leaseUntil: int,
                                 limit: nat, out: seq<Queued>) {
    exists walked :: OrphanOrder(held, known, walked) && Claimed(held, held', walked, at, leaseUntil, limit, out)
  }

  /** Whether a script makes this id for this endpoint. */
  predicate MakesFor(script: Script, id: string, endpoint: string) {
    script.Insert? && endpoint in script.to && DeliveryId(script.event, endpoint) == id
  }

  /** **No id is made for two endpoints.** */
  ghost predicate OnePlaceEach(scripts: seq<Script>) {
    forall i, j, id, e, f |
      0 <= i < |scripts| && 0 <= j < |scripts| && MakesFor(scripts[i], id, e) && MakesFor(scripts[j], id, f) :: e == f
  }

  /** Events well named, as janus names them, make no id for two endpoints. */
  lemma WellNamedHasOnePlace(scripts: seq<Script>)
    requires forall i :: 0 <= i < |scripts| && scripts[i].Insert? ==> WellNamed(scripts[i].event)
    ensures OnePlaceEach(scripts)
  {
    forall i, j, id, e, f |
      0 <= i < |scripts| && 0 <= j < |scripts| && MakesFor(scripts[i], id, e) && MakesFor(scripts[j], id, f)
      ensures e == f
    {
      MadeForOne(scripts[i].event, e, scripts[j].event, f);
    }
  }

  /** The endpoint an id is made for in these scripts. */
  ghost function PlaceIn(scripts: seq<Script>, id: string): string {
    if i, e :| 0 <= i < |scripts| && MakesFor(scripts[i], id, e) then e else ""
  }

  /** A script makes every id for its place. */
  ghost predicate MakesInPlace(script: Script, place: string -> string) {
    forall id, e :: MakesFor(script, id, e) ==> place(id) == e
  }

  lemma EachHasItsPlace(scripts: seq<Script>, i: nat)
    requires OnePlaceEach(scripts) && i < |scripts|
    ensures MakesInPlace(scripts[i], id => PlaceIn(scripts, id))
  {
    forall id, e | MakesFor(scripts[i], id, e) ensures PlaceIn(scripts, id) == e {
      var j, f :| 0 <= j < |scripts| && MakesFor(scripts[j], id, f) && PlaceIn(scripts, id) == f;
    }
  }

  /** Every member, those left without a hash included, stands at the place of its id. */
  ghost predicate InPlace(due: Due, place: string -> string) {
    forall m :: m in due ==> place(m.id) == m.endpoint
  }

  lemma NoneInPlace(place: string -> string)
    ensures InPlace(map[], place)
  {
  }

  lemma FewerInPlace(due: Due, due': Due, place: string -> string)
    requires InPlace(due, place) && due'.Keys <= due.Keys
    ensures InPlace(due', place)
  {
    assert forall m :: m in due' ==> m in due;
  }

  /** **Ids made in their place keep every delivery rightly placed**, whatever was left without a hash before. */
  lemma GrownInPlace(hashes0: map<string, Hash>, due0: Due, hashes: map<string, Hash>, due: Due, script: Script,
                     place: string -> string)
    requires InPlace(due0, place) && script.Insert? && MakesInPlace(script, place)
    requires Grown(hashes0, due0, hashes, due, script.event, script.to) && Indexed(hashes, due)
    ensures InPlace(due, place) && Rightly(hashes, due)
  {
    forall m | m in due ensures place(m.id) == m.endpoint {
      if m !in due0 { assert MakesFor(script, m.id, m.endpoint); }
    }
    forall m | m in due && m.id in hashes ensures hashes[m.id].endpoint == m.endpoint {
      assert Member(hashes[m.id].endpoint, m.id) in due;
    }
  }

  predicate Leases(script: Script) {
    (script.Claim? || script.ClaimOrphaned?) ==> script.lease != ""
  }

  /** **Any script follows the port and leaves the keys agreeing**, while no id is made for two endpoints. */
  method Make(queue: RedisQueue, script: Script, ghost place: string -> string) returns (reply: Reply)
    requires queue.Valid() && InPlace(queue.due, place) && MakesInPlace(script, place) && Leases(script)
    modifies queue
    ensures queue.Valid() && InPlace(queue.due, place)
    ensures Follows(old(queue.Deliveries()), script, reply, queue.Deliveries())
  {
    hide Indexed, Rightly, Listed, DeliveriesOf, Grown, LeftToNoOther, InPlace, MakesInPlace, Claimed, OrphanOrder,
      Once, Leased, Queue.Inserted, Extended, Retried, Deleted, ReadBack;
    ghost var hashes, due := queue.hashes, queue.due;
    match script
    case Insert(event, to, dueAt, refused) =>
      var count := queue.InsertDeliveries(event, to, dueAt, refused);
      if count.Some? {
        GrownInPlace(hashes, due, queue.hashes, queue.due, script, place);
      } else {
        FewerInPlace(due, queue.due, place);
      }
      reply := Took(count);
    case Claim(to, now, leaseUntil, limit, lease) =>
      var out := queue.ClaimDeliveries(to, now, leaseUntil, limit, lease);
      FewerInPlace(due, queue.due, place);
      reply := Answers(out);
    case ClaimOrphaned(known, dueBefore, leaseUntil, limit, lease) =>
      var out, walked := queue.ClaimOrphanedDeliveries(known, dueBefore, leaseUntil, limit, lease);
      FewerInPlace(due, queue.due, place);
      reply := Answers(out);
    case Extend(id, lease, until) =>
      var ok := queue.ExtendLease(id, lease, until);
      FewerInPlace(due, queue.due, place);
      reply := Done(ok);
    case Retry(id, lease, dueAt, failed) =>
      var ok := queue.ScheduleRetry(id, lease, dueAt, failed);
      FewerInPlace(due, queue.due, place);
      reply := Done(ok);
    case Delete(id, lease) =>
      var ok := queue.DeleteDelivery(id, lease);
      FewerInPlace(due, queue.due, place);
      reply := Done(ok);
    case LoseHash(id) =>
      queue.DeleteHashByHand(id);
      reply := Nothing;
  }

  /**
   * **Over every run**: whatever the scripts, from an empty queue, inserts
   * refused half way and hashes deleted by hand among them, each is answered
   * as the port promises, as long as no id is made for two endpoints.
   */
  method Run(scripts: seq<Script>)
    returns (queue: RedisQueue, replies: seq<Reply>, ghost states: seq<Deliveries>)
    requires OnePlaceEach(scripts) && forall i :: 0 <= i < |scripts| ==> Leases(scripts[i])
    ensures |states| == |scripts| + 1 && |replies| == |scripts| && states[0] == map[]
    ensures forall i :: 0 <= i < |scripts| ==> Follows(states[i], scripts[i], replies[i], states[i + 1])
    ensures fresh(queue) && queue.Valid() && states[|scripts|] == queue.Deliveries()
  {
    hide Sound, DeliveriesOf, InPlace, MakesInPlace, Follows, OnePlaceEach, PlaceIn, Leases;
    queue := new RedisQueue();
    replies, states := [], [queue.Deliveries()];
    ghost var place := id => PlaceIn(scripts, id);
    NoneInPlace(place);
    for i := 0 to |scripts|
      invariant fresh(queue) && queue.Valid() && InPlace(queue.due, place)
      invariant |states| == i + 1 && |replies| == i && states[0] == map[] && states[i] == queue.Deliveries()
      invariant forall k :: 0 <= k < i ==> Follows(states[k], scripts[k], replies[k], states[k + 1])
    {
      EachHasItsPlace(scripts, i);
      var reply := Make(queue, scripts[i], place);
      replies, states := replies + [reply], states + [queue.Deliveries()];
    }
  }

  // ----- an id made for two endpoints

  /** A claim of an endpoint answers whatever stands in its set, were it another's. */
  lemma AnsweredFromThere(h: map<string, Hash>, d: Due, endpoint: string, now: int, leaseUntil: int, lease: string,
                          limit: nat, out: seq<Queued>, id: string)
    requires AnswersLive(h, d, endpoint, now, leaseUntil, lease, limit, out) && Live(h, d, endpoint, now, id)
    requires |IdsAt(d, endpoint)| < limit
    ensures exists i :: 0 <= i < |out| && out[i].id == id && out[i].endpoint == h[id].endpoint
  {
    DistinctSize(IdsOf(out));
    forall x | x in IdsOf(out) ensures x in IdsAt(d, endpoint) { assert Member(endpoint, x) in d; }
    SubsetSize(Members(IdsOf(out)), IdsAt(d, endpoint));
    InIdsOf(out, id);
  }

  lemma SameIdsAt(hashes0: map<string, Hash>, due0: Due, hashes: map<string, Hash>, due: Due, event: Event,
                  to: seq<string>, endpoint: string)
    requires Grown(hashes0, due0, hashes, due, event, to) && endpoint !in to
    ensures IdsAt(due, endpoint) == IdsAt(due0, endpoint)
    ensures forall m :: m in due0 && m.endpoint == endpoint ==> m in due && due[m] == due0[m]
  {
    forall id ensures id in IdsAt(due, endpoint) <==> id in IdsAt(due0, endpoint) {
      assert id in IdsAt(due, endpoint) <==> Member(endpoint, id) in due;
      assert id in IdsAt(due0, endpoint) <==> Member(endpoint, id) in due0;
    }
  }

  lemma OnlyItsOwn(hashes: map<string, Hash>, due: Due, event: Event, e: string)
    requires Grown(map[], map[], hashes, due, event, [e])
    ensures |IdsAt(due, e)| <= 1
  {
    assert IdsAt(due, e) <= {DeliveryId(event, e)};
    SubsetSize(IdsAt(due, e), {DeliveryId(event, e)});
  }

  lemma InsertedAt(before: Deliveries, hashes: map<string, Hash>, due: Due, event: Event, endpoint: string, dueAt: int)
    requires Indexed(hashes, due) && DeliveryId(event, endpoint) !in before
    requires DeliveriesOf(hashes, due) == Queue.Inserted(before, event, [endpoint], dueAt)
    ensures DeliveryId(event, endpoint) in hashes && hashes[DeliveryId(event, endpoint)].endpoint == endpoint
  {
    assert Queue.Inserted(before, event, [], dueAt) == before && [endpoint][..0] == [];
    DeliveryAt(hashes, due, DeliveryId(event, endpoint));
  }

  /**
   * **The condition an insert puts on the members left is needed**: once an
   * id left at one endpoint is made again for another, a claim of the first
   * endpoint, for as many as stand there, answers the other's delivery.
   */
  method AnswersAnothers(queue: RedisQueue, event: Event, endpoint: string, left: string, now: int, leaseUntil: int,
                         lease: string, limit: nat)
    returns (out: seq<Queued>)
    requires queue.Valid() && endpoint != left && lease != ""
    requires var id := DeliveryId(event, endpoint);
             id !in queue.hashes && Member(left, id) in queue.due && queue.due[Member(left, id)] <= now
    requires |IdsAt(queue.due, left)| < limit
    modifies queue
    ensures exists i :: 0 <= i < |out| && out[i].id == DeliveryId(event, endpoint) && out[i].endpoint == endpoint
  {
    hide Rightly, DeliveriesOf, Claimed, LeftToNoOther, AnswersLive, DeliveryId, Grown, IdsAt;
    ghost var id := DeliveryId(event, endpoint);
    ghost var before, h0, d0 := queue.Deliveries(), queue.hashes, queue.due;
    var count := queue.InsertDeliveries(event, [endpoint], now, None);
    InsertedAt(before, queue.hashes, queue.due, event, endpoint, now);
    SameIdsAt(h0, d0, queue.hashes, queue.due, event, [endpoint], left);
    ghost var h, d := queue.hashes, queue.due;
    var seen;
    out, seen := queue.ClaimFrom(left, now, leaseUntil, lease, limit, {});
    AnsweredFromThere(h, d, left, now, leaseUntil, lease, limit, out, id);
  }

  const FIRST := Event("e", "k", 0, "u", "user")
  const SECOND := Event("e", "k:a", 0, "u", "user")

  /** Two events, one with a colon in its type, make one id: for endpoint `a:b`, and for endpoint `b`. */
  lemma OneIdForTwo()
    ensures DeliveryId(FIRST, "a:b") == DeliveryId(SECOND, "b") == "e:k:a:b"
  {
  }

  lemma OneEndpoint(event: Event, e: string, dueAt: int)
    ensures Queue.Inserted(map[], event, [e], dueAt) == map[DeliveryId(event, e) := NewDelivery(event, e, dueAt)]
  {
    assert Queue.Inserted(map[], event, [], dueAt) == map[] && [e][..0] == [];
  }

  /** Such an id is left at `a:b` by a hash deleted by hand: a claim of `a:b` then answers a delivery of `b`. */
  method AnothersIsMet(leaseUntil: int, lease: string) returns (out: seq<Queued>)
    requires lease != ""
    ensures exists i :: 0 <= i < |out| && out[i].id == "e:k:a:b" && out[i].endpoint == "b"
  {
    hide Rightly, Grown, DeliveryId;
    OneIdForTwo();
    var queue := new RedisQueue();
    var count := queue.InsertDeliveries(FIRST, ["a:b"], 0, None);
    OneEndpoint(FIRST, "a:b", 0);
    OnlyItsOwn(queue.hashes, queue.due, FIRST, "a:b");
    DeliveryAt(queue.hashes, queue.due, "e:k:a:b");
    queue.DeleteHashByHand("e:k:a:b");
    out := AnswersAnothers(queue, SECOND, "b", "a:b", 0, leaseUntil, lease, 2);
  }

  // ----- moving and adding one member

  lemma ScoreMoved(hashes: map<string, Hash>, due0: Due, due: Due, endpoints: set<string>, id: string, score: int)
    requires Sound(hashes, due0, endpoints) && id in hashes
    requires due == due0[Member(hashes[id].endpoint, id) := score]
    ensures Sound(hashes, due, endpoints)
    ensures DeliveriesOf(hashes, due) == DeliveriesOf(hashes, due0)[id := HeldOf(hashes[id], score)]
  {
  }

  lemma HashRewritten(hashes0: map<string, Hash>, hashes: map<string, Hash>, due: Due, endpoints: set<string>,
                      id: string, hash: Hash)
    requires Sound(hashes0, due, endpoints) && id in hashes0
    requires hash.endpoint == hashes0[id].endpoint && hashes == hashes0[id := hash]
    ensures Sound(hashes, due, endpoints)
    ensures DeliveriesOf(hashes, due) == DeliveriesOf(hashes0, due)[id := HeldOf(hash, due[Member(hash.endpoint, id)])]
  {
  }

  lemma DeliveryAt(hashes: map<string, Hash>, due: Due, id: string)
    requires Indexed(hashes, due) && id in hashes
    ensures Member(hashes[id].endpoint, id) in due
    ensures DeliveriesOf(hashes, due)[id] == HeldOf(hashes[id], due[Member(hashes[id].endpoint, id)])
  {
  }

  lemma HashGone(hashes: map<string, Hash>, due: Due, endpoints: set<string>, id: string)
    requires Sound(hashes, due, endpoints)
    ensures Sound(hashes - {id}, due, endpoints)
    ensures DeliveriesOf(hashes - {id}, due) == DeliveriesOf(hashes, due) - {id}
  {
  }

  /** Holding a lease is what the hash says, and `''` is never held. */
  lemma LeasedInHash(hashes: map<string, Hash>, due: Due, id: string, lease: string)
    requires Indexed(hashes, due)
    ensures Leased(DeliveriesOf(hashes, due), id, lease) <==> lease != "" && id in hashes && hashes[id].lease == lease
  {
  }

  function NewHash(event: Event, endpoint: string): Hash {
    Hash(event, endpoint, 0, "", None)
  }

  lemma DeliveryAdded(h: map<string, Hash>, d: Due, e: set<string>, hashes: map<string, Hash>, due: Due,
                      endpoints: set<string>, event: Event, endpoint: string, dueAt: int)
    requires Indexed(h, d) && Listed(d, e)
    requires var id := DeliveryId(event, endpoint);
             id !in h && hashes == h[id := NewHash(event, endpoint)] &&
             due == d[Member(endpoint, id) := dueAt] && endpoints == e + {endpoint}
    ensures Indexed(hashes, due) && Listed(due, endpoints)
    ensures DeliveriesOf(hashes, due) == InsertedOne(DeliveriesOf(h, d), event, endpoint, dueAt)
  {
    hide DeliveryId;
    var id := DeliveryId(event, endpoint);
    assert forall x :: x in h ==> x != id && Member(h[x].endpoint, x) in d;
  }

  // ----- when an insert keeps every delivery in its own endpoint's set

  /** No member without its hash is left, at another endpoint, under the id of a delivery to insert. */
  ghost predicate LeftToNoOther(hashes: map<string, Hash>, due: Due, event: Event, to: seq<string>) {
    forall m, e :: m in due && m.id !in hashes && e in to && m.id == DeliveryId(event, e) ==> m.endpoint == e
  }

  /**
   * What an insert has added so far: a hash and a member per endpoint, none of
   * them there before; the members of other endpoints stay as they are.
   */
  ghost predicate Grown(hashes0: map<string, Hash>, due0: Due, hashes: map<string, Hash>, due: Due, event: Event,
                        to: seq<string>) {
    && hashes0.Keys <= hashes.Keys && due0.Keys <= due.Keys
    && (forall m :: m in due0 && m.endpoint !in to ==> due[m] == due0[m])
    && (forall m :: m in due && m !in due0 ==> m.endpoint in to && m.id == DeliveryId(event, m.endpoint))
    && (forall id ::
          id in hashes && id !in hashes0 ==> hashes[id].endpoint in to && id == DeliveryId(event, hashes[id].endpoint))
  }

  lemma NotYetGrown(hashes: map<string, Hash>, due: Due, event: Event, to: seq<string>)
    ensures Grown(hashes, due, hashes, due, event, to[..0]) && LeftToNoOther(hashes, due, event, to[..0])
  {
  }

  /** An endpoint whose delivery is held adds nothing, and no way to be wrong. */
  lemma GrowsNoMore(hashes0: map<string, Hash>, due0: Due, hashes: map<string, Hash>, due: Due, event: Event,
                    to: seq<string>, e: string)
    requires Grown(hashes0, due0, hashes, due, event, to) && DeliveryId(event, e) in hashes
    ensures Grown(hashes0, due0, hashes, due, event, to + [e])
    ensures LeftToNoOther(hashes0, due0, event, to + [e]) <==> LeftToNoOther(hashes0, due0, event, to)
  {
    var id := DeliveryId(event, e);
    if id !in hashes0 { IdsApart(event, e, hashes[id].endpoint); }
    hide DeliveryId;
  }

  /** A delivery added is rightly placed, with all the others, exactly when no member is left under its id elsewhere. */
  lemma GrowsBy(hashes0: map<string, Hash>, due0: Due, hashes: map<string, Hash>, due: Due, event: Event,
                to: seq<string>, e: string, dueAt: int)
    requires Grown(hashes0, due0, hashes, due, event, to) && DeliveryId(event, e) !in hashes
    requires Rightly(hashes, due) <==> LeftToNoOther(hashes0, due0, event, to)
    ensures var (more, members) := (hashes[DeliveryId(event, e) := NewHash(event, e)],
                                    due[Member(e, DeliveryId(event, e)) := dueAt]);
            Grown(hashes0, due0, more, members, event, to + [e]) &&
            (Rightly(more, members) <==> LeftToNoOther(hashes0, due0, event, to + [e]))
  {
    var id := DeliveryId(event, e);
    var (more, members) := (hashes[id := NewHash(event, e)], due[Member(e, id) := dueAt]);
    forall m | m in due && m !in due0 && m.id == id ensures m.endpoint == e { IdsApart(event, m.endpoint, e); }
    AddedRightly(hashes, due, id, event, e, dueAt);
    hide DeliveryId, Rightly;
    assert LeftToNoOther(hashes0, due0, event, to + [e]) ==> LeftToNoOther(hashes0, due0, event, to);
    assert OthersAreOf(due, id, e) <==> OthersAreOf(due0, id, e);
    assert LeftToNoOther(hashes0, due0, event, to + [e]) <==>
           LeftToNoOther(hashes0, due0, event, to) && OthersAreOf(due0, id, e);
  }

  ghost predicate OthersAreOf(due: Due, id: string, e: string) {
    forall m :: m in due && m.id == id ==> m.endpoint == e
  }

  lemma AddedRightly(hashes: map<string, Hash>, due: Due, id: string, event: Event, e: string, dueAt: int)
    requires id !in hashes
    ensures Rightly(hashes[id := NewHash(event, e)], due[Member(e, id) := dueAt]) <==>
              Rightly(hashes, due) && OthersAreOf(due, id, e)
  {
    var (more, members) := (hashes[id := NewHash(event, e)], due[Member(e, id) := dueAt]);
    forall m | m in due ensures m in members && (m.id != id && m.id in hashes ==> more[m.id] == hashes[m.id]) { }
  }

  // ----- what a claim of one endpoint has done so far

  function TakenHash(hash: Hash, lease: string): Hash {
    hash.(attempts := hash.attempts + 1, lease := lease)
  }

  function IdsAt(due: Due, endpoint: string): set<string> {
    set m | m in due && m.endpoint == endpoint :: m.id
  }

  /** `ZRANGEBYSCORE`: the endpoint's members scored `now` or less. */
  function InRange(due: Due, endpoint: string, now: int): map<string, int> {
    map id | id in IdsAt(due, endpoint) && Member(endpoint, id) in due && due[Member(endpoint, id)] <= now ::
      due[Member(endpoint, id)]
  }

  /** A member with its hash, due: what a claim may take. */
  ghost predicate Live(h: map<string, Hash>, d: Due, endpoint: string, now: int, id: string) {
    id in h && Member(endpoint, id) in d && d[Member(endpoint, id)] <= now
  }

  ghost predicate AllClaimed(h: map<string, Hash>, d: Due, endpoint: string, now: int, out: seq<Queued>) {
    forall id :: Live(h, d, endpoint, now, id) ==> id in IdsOf(out)
  }

  /**
   * From `h` and `d`, the claim has come to `h'` and `d'`: those answered are
   * live, earliest first, none left out earlier, each under the lease; what
   * was dropped had no hash; nothing else changed.
   */
  ghost predicate Progress(h: map<string, Hash>, d: Due, endpoint: string, now: int, leaseUntil: int, lease: string,
                           h': map<string, Hash>, d': Due, out: seq<Queued>)
  {
    && EarliestLive(h, d, endpoint, now, IdsOf(out))
    && (forall i :: 0 <= i < |out| ==>
          out[i].id in h && out[i] == QueuedOf(out[i].id, HeldOf(TakenHash(h[out[i].id], lease), leaseUntil), lease))
    && h'.Keys == h.Keys
    && (forall id :: id in h ==> h'[id] == if id in IdsOf(out) then TakenHash(h[id], lease) else h[id])
    && (forall m ::
          m in d' ==> m in d && d'[m] == if m.endpoint == endpoint && m.id in IdsOf(out) then leaseUntil else d[m])
    && (forall m :: m in d && m !in d' ==> m.endpoint == endpoint && m.id !in h)
  }

  /** What the range holds was a member when the claim began. */
  lemma RangeIsOld(h: map<string, Hash>, d: Due, endpoint: string, now: int, leaseUntil: int, lease: string,
                   h0: map<string, Hash>, d0: Due, claimed: seq<Queued>)
    requires Progress(h, d, endpoint, now, leaseUntil, lease, h0, d0, claimed)
    ensures forall id :: id in InRange(d0, endpoint, now) ==> Member(endpoint, id) in d && Member(endpoint, id) in d0
  {
  }

  /** What was claimed of other endpoints is no member of this one. */
  lemma SeenElsewhere(h: map<string, Hash>, d: Due, endpoint: string, seen: set<string>)
    requires Indexed(h, d) && Rightly(h, d)
    requires forall id :: id in seen ==> id in h && h[id].endpoint != endpoint
    ensures forall id :: id in seen ==> Member(endpoint, id) !in d
  {
    forall id | id in seen ensures Member(endpoint, id) !in d {
      if Member(endpoint, id) in d { MemberIsOwn(h, d, Member(endpoint, id)); }
    }
  }

  lemma NoProgressYet(h: map<string, Hash>, d: Due, endpoint: string, now: int, leaseUntil: int, lease: string)
    ensures Progress(h, d, endpoint, now, leaseUntil, lease, h, d, [])
  {
  }

  lemma Smaller(due: Due, m: Member)
    requires m in due
    ensures |due - {m}| < |due|
  {
  }

  lemma SameSize(due: Due, m: Member, score: int)
    requires m in due
    ensures |due[m := score]| == |due|
  {
  }

  /** Dropping a member without a hash. */
  lemma Dropped(h: map<string, Hash>, d: Due, endpoint: string, now: int, leaseUntil: int, lease: string,
                h': map<string, Hash>, d': Due, out: seq<Queued>, id: string)
    requires Progress(h, d, endpoint, now, leaseUntil, lease, h', d', out) && id !in h'
    ensures Progress(h, d, endpoint, now, leaseUntil, lease, h', d' - {Member(endpoint, id)}, out) && id !in h
  {
  }

  /** The deliveries answered: live, earliest first, none left out earlier. */
  ghost predicate EarliestLive(h: map<string, Hash>, d: Due, endpoint: string, now: int, ids: seq<string>) {
    && Distinct(ids)
    && (forall i :: 0 <= i < |ids| ==> Live(h, d, endpoint, now, ids[i]))
    && (forall i, j :: 0 <= i < j < |ids| ==> d[Member(endpoint, ids[i])] <= d[Member(endpoint, ids[j])])
    && (forall i, id :: 0 <= i < |ids| && Live(h, d, endpoint, now, id) && id !in ids ==>
          d[Member(endpoint, ids[i])] <= d[Member(endpoint, id)])
  }

  lemma OneMoreLive(h: map<string, Hash>, d: Due, endpoint: string, now: int, ids: seq<string>, id: string)
    requires EarliestLive(h, d, endpoint, now, ids) && id !in ids && Live(h, d, endpoint, now, id)
    requires forall x :: Live(h, d, endpoint, now, x) && x !in ids ==> d[Member(endpoint, id)] <= d[Member(endpoint, x)]
    ensures EarliestLive(h, d, endpoint, now, ids + [id])
  {
  }

  /** Claiming the earliest live delivery left. */
  lemma TakesOne(h: map<string, Hash>, d: Due, endpoint: string, now: int, leaseUntil: int, lease: string,
                 h': map<string, Hash>, d': Due, out: seq<Queued>, id: string)
    requires Progress(h, d, endpoint, now, leaseUntil, lease, h', d', out)
    requires id !in IdsOf(out) && Live(h, d, endpoint, now, id) && Member(endpoint, id) in d'
    requires forall x :: Live(h, d, endpoint, now, x) && x !in IdsOf(out) ==>
               d[Member(endpoint, id)] <= d[Member(endpoint, x)]
    ensures id in h' && h'[id] == h[id]
    ensures Progress(h, d, endpoint, now, leaseUntil, lease, h'[id := TakenHash(h'[id], lease)],
                     d'[Member(endpoint, id) := leaseUntil],
                     out + [QueuedOf(id, HeldOf(TakenHash(h'[id], lease), leaseUntil), lease)])
  {
    hide EarliestLive;
    var one := QueuedOf(id, HeldOf(TakenHash(h'[id], lease), leaseUntil), lease);
    OneMoreLive(h, d, endpoint, now, IdsOf(out), id);
    IdsOfSum(out, [one]);
    assert IdsOf([one]) == [id];
  }

  /** What the range left unclaimed comes no earlier than where the pass has got to. */
  lemma EarliestLeft(h: map<string, Hash>, d: Due, endpoint: string, now: int, leaseUntil: int, lease: string,
                     h0: map<string, Hash>, d0: Due, claimed: seq<Queued>,
                     h': map<string, Hash>, d': Due, out: seq<Queued>, limit: nat, ids: seq<string>, k: nat)
    requires Progress(h, d, endpoint, now, leaseUntil, lease, h0, d0, claimed)
    requires Progress(h, d, endpoint, now, leaseUntil, lease, h', d', out) && claimed <= out
    requires IsEarliest(InRange(d0, endpoint, now), limit, ids) && k < |ids|
    requires ids[k] in h' && ids[k] !in IdsOf(out) && Member(endpoint, ids[k]) in d'
    requires forall j :: 0 <= j < k ==> ids[j] in IdsOf(out) || ids[j] !in h
    ensures Live(h, d, endpoint, now, ids[k])
    ensures forall x :: Live(h, d, endpoint, now, x) && x !in IdsOf(out) ==>
              d[Member(endpoint, ids[k])] <= d[Member(endpoint, x)]
  {
    IdsOfPrefix(claimed, out);
    var range := InRange(d0, endpoint, now);
    assert ids[k] in range;
    forall x | Live(h, d, endpoint, now, x) && x !in IdsOf(out)
      ensures d[Member(endpoint, ids[k])] <= d[Member(endpoint, x)]
    {
      assert Member(endpoint, x) in d0 && x in IdsAt(d0, endpoint);
      assert x in range;
      if x in ids {
        var j :| 0 <= j < |ids| && ids[j] == x;
        assert j >= k;
      }
    }
  }

  /** A pass over `ids`, come to the k-th: what it has answered, seen and found stale. */
  ghost predicate Passing(h: map<string, Hash>, claimed: seq<Queued>, ids: seq<string>, k: nat, remaining: nat,
                          seen: set<string>, left: nat, seen': set<string>, stale: bool, out: seq<Queued>)
  {
    && k <= |ids| && left + |out| == remaining + |claimed| && claimed <= out
    && (forall id :: id in seen' <==> id in seen || id in IdsOf(out))
    && (forall id :: id in seen && id in ids ==> id in IdsOf(claimed))
    && (forall j :: 0 <= j < |ids| && ids[j] in IdsOf(out) && ids[j] !in IdsOf(claimed) ==> j < k)
    && (left > 0 ==> forall j :: 0 <= j < k ==> ids[j] in IdsOf(out) || ids[j] !in h)
    && (left > 0 && !stale ==> forall j :: 0 <= j < k ==> ids[j] in IdsOf(out))
  }

  lemma PassBegins(h: map<string, Hash>, claimed: seq<Queued>, ids: seq<string>, remaining: nat, seen: set<string>)
    requires forall id :: id in IdsOf(claimed) ==> id in seen
    requires forall id :: id in seen && id in ids ==> id in IdsOf(claimed)
    ensures Passing(h, claimed, ids, 0, remaining, seen, remaining, seen, false, claimed)
  {
  }

  lemma PassSkips(h: map<string, Hash>, claimed: seq<Queued>, ids: seq<string>, k: nat, remaining: nat,
                  seen: set<string>, left: nat, seen': set<string>, stale: bool, out: seq<Queued>)
    requires Passing(h, claimed, ids, k, remaining, seen, left, seen', stale, out) && k < |ids|
    requires ids[k] in seen' || left == 0
    ensures Passing(h, claimed, ids, k + 1, remaining, seen, left, seen', stale, out)
  {
    IdsOfPrefix(claimed, out);
  }

  lemma PassDrops(h: map<string, Hash>, claimed: seq<Queued>, ids: seq<string>, k: nat, remaining: nat,
                  seen: set<string>, left: nat, seen': set<string>, stale: bool, out: seq<Queued>)
    requires Passing(h, claimed, ids, k, remaining, seen, left, seen', stale, out) && k < |ids|
    requires ids[k] !in h
    ensures Passing(h, claimed, ids, k + 1, remaining, seen, left, seen', true, out)
  {
  }

  lemma NotYetClaimed(h: map<string, Hash>, claimed: seq<Queued>, ids: seq<string>, k: nat, remaining: nat,
                      seen: set<string>, left: nat, seen': set<string>, stale: bool, out: seq<Queued>)
    requires Passing(h, claimed, ids, k, remaining, seen, left, seen', stale, out) && k < |ids|
    requires ids[k] !in seen' && left > 0
    ensures claimed <= out && ids[k] !in IdsOf(out)
    ensures forall j :: 0 <= j < k ==> ids[j] in IdsOf(out) || ids[j] !in h
  {
  }

  lemma PassTakes(h: map<string, Hash>, claimed: seq<Queued>, ids: seq<string>, k: nat, remaining: nat,
                  seen: set<string>, left: nat, seen': set<string>, stale: bool, out: seq<Queued>, one: Queued)
    requires Passing(h, claimed, ids, k, remaining, seen, left, seen', stale, out) && k < |ids|
    requires ids[k] !in seen' && left > 0 && one.id == ids[k] && Distinct(ids)
    ensures Passing(h, claimed, ids, k + 1, remaining, seen, left - 1, seen' + {ids[k]}, stale, out + [one])
  {
    IdsOfSum(out, [one]);
    assert IdsOf([one]) == [ids[k]];
  }

  /** A pass drops the member of a hash that is gone, and goes on. */
  lemma DropsOne(h: map<string, Hash>, d: Due, endpoint: string, now: int, leaseUntil: int, lease: string,
                 hashes: map<string, Hash>, due: Due, claimed: seq<Queued>, ids: seq<string>, k: nat, remaining: nat,
                 seen: set<string>, left: nat, seen': set<string>, stale: bool, out: seq<Queued>)
    requires Progress(h, d, endpoint, now, leaseUntil, lease, hashes, due, out)
    requires Passing(h, claimed, ids, k, remaining, seen, left, seen', stale, out) && k < |ids|
    requires ids[k] !in seen' && left > 0 && ids[k] !in hashes && Member(endpoint, ids[k]) in due && Distinct(ids)
    ensures var left' := due - {Member(endpoint, ids[k])};
            Progress(h, d, endpoint, now, leaseUntil, lease, hashes, left', out) && |left'| < |due|
    ensures Passing(h, claimed, ids, k + 1, remaining, seen, left, seen', true, out)
  {
    hide Progress, Passing;
    Dropped(h, d, endpoint, now, leaseUntil, lease, hashes, due, out, ids[k]);
    PassDrops(h, claimed, ids, k, remaining, seen, left, seen', stale, out);
    Smaller(due, Member(endpoint, ids[k]));
  }

  /** A pass claims the earliest delivery left, and goes on. */
  lemma ClaimsOne(h: map<string, Hash>, d: Due, endpoint: string, now: int, leaseUntil: int, lease: string,
                  h0: map<string, Hash>, d0: Due, hashes: map<string, Hash>, due: Due, claimed: seq<Queued>,
                  ids: seq<string>, k: nat, remaining: nat, seen: set<string>, left: nat, seen': set<string>,
                  stale: bool, out: seq<Queued>)
    requires Progress(h, d, endpoint, now, leaseUntil, lease, h0, d0, claimed)
    requires Progress(h, d, endpoint, now, leaseUntil, lease, hashes, due, out)
    requires Passing(h, claimed, ids, k, remaining, seen, left, seen', stale, out) && k < |ids|
    requires IsEarliest(InRange(d0, endpoint, now), remaining + |claimed|, ids)
    requires ids[k] !in seen' && left > 0 && ids[k] in hashes && Member(endpoint, ids[k]) in due
    ensures var taken := TakenHash(hashes[ids[k]], lease);
            var one := QueuedOf(ids[k], HeldOf(taken, leaseUntil), lease);
            && Progress(h, d, endpoint, now, leaseUntil, lease, hashes[ids[k] := taken],
                        due[Member(endpoint, ids[k]) := leaseUntil], out + [one])
            && Passing(h, claimed, ids, k + 1, remaining, seen, left - 1, seen' + {ids[k]}, stale, out + [one])
    ensures |due[Member(endpoint, ids[k]) := leaseUntil]| == |due|
  {
    hide Progress, Passing, IsEarliest, IdsOf, HeldOf, TakenHash, EarliestLive, Live, InRange, Distinct, IdsAt;
    var one := QueuedOf(ids[k], HeldOf(TakenHash(hashes[ids[k]], lease), leaseUntil), lease);
    EarliestAreScored(InRange(d0, endpoint, now), remaining + |claimed|, ids);
    NotYetClaimed(h, claimed, ids, k, remaining, seen, left, seen', stale, out);
    EarliestLeft(h, d, endpoint, now, leaseUntil, lease, h0, d0, claimed, hashes, due, out, remaining + |claimed|,
                 ids, k);
    TakesOne(h, d, endpoint, now, leaseUntil, lease, hashes, due, out, ids[k]);
    PassTakes(h, claimed, ids, k, remaining, seen, left, seen', stale, out, one);
    SameSize(due, Member(endpoint, ids[k]), leaseUntil);
  }

  lemma PassEnds(h: map<string, Hash>, d: Due, endpoint: string, now: int, leaseUntil: int, lease: string,
                 h0: map<string, Hash>, d0: Due, claimed: seq<Queued>, ids: seq<string>, remaining: nat,
                 seen: set<string>, left: nat, seen': set<string>, stale: bool, out: seq<Queued>)
    requires Progress(h, d, endpoint, now, leaseUntil, lease, h0, d0, claimed)
    requires IsEarliest(InRange(d0, endpoint, now), remaining + |claimed|, ids)
    requires Passing(h, claimed, ids, |ids|, remaining, seen, left, seen', stale, out)
    ensures left + |out| == remaining + |claimed|
    ensures forall id :: id in seen' <==> id in seen || id in IdsOf(out)
    ensures forall id :: id in IdsOf(claimed) ==> id in IdsOf(out)
    ensures left == 0 || stale || AllClaimed(h, d, endpoint, now, out)
  {
    IdsOfPrefix(claimed, out);
    if left > 0 && !stale {
      NothingLeft(h, d, endpoint, now, leaseUntil, lease, h0, d0, claimed, out, remaining, left, ids);
    }
  }

  lemma EarliestAreScored(scores: map<string, int>, limit: nat, ids: seq<string>)
    requires IsEarliest(scores, limit, ids)
    ensures Distinct(ids) && forall id :: id in ids ==> id in scores
  {
  }

  lemma IdsOfPrefix(a: seq<Queued>, b: seq<Queued>)
    requires a <= b
    ensures forall id :: id in IdsOf(a) ==> id in IdsOf(b)
  {
    forall id | id in IdsOf(a) ensures id in IdsOf(b) {
      InIdsOf(a, id);
      InIdsOf(b, id);
    }
  }

  /** A pass that dropped nothing and has room left read the whole range, and claimed it. */
  lemma NothingLeft(h: map<string, Hash>, d: Due, endpoint: string, now: int, leaseUntil: int, lease: string,
                    h0: map<string, Hash>, d0: Due, claimed: seq<Queued>, out: seq<Queued>, remaining: nat, left: nat,
                    ids: seq<string>)
    requires Progress(h, d, endpoint, now, leaseUntil, lease, h0, d0, claimed) && claimed <= out
    requires IsEarliest(InRange(d0, endpoint, now), remaining + |claimed|, ids)
    requires 0 < left && left + |out| == remaining + |claimed|
    requires forall j :: 0 <= j < |ids| ==> ids[j] in IdsOf(out)
    ensures AllClaimed(h, d, endpoint, now, out)
  {
    IdsOfPrefix(claimed, out);
    var range := InRange(d0, endpoint, now);
    DistinctSize(ids);
    assert Members(ids) <= Members(IdsOf(out));
    SubsetSize(Members(ids), Members(IdsOf(out)));
    MembersAtMost(IdsOf(out));
    ShortIsAll(range, remaining + |claimed|, ids);
    forall x | Live(h, d, endpoint, now, x) ensures x in IdsOf(out) {
      if x !in IdsOf(claimed) {
        assert Member(endpoint, x) in d0 && x in IdsAt(d0, endpoint);
        assert x in range && x in Members(ids);
      }
    }
  }

  lemma {:induction false} MembersAtMost<T>(s: seq<T>)
    ensures |Members(s)| <= |s|
  {
    if s != [] {
      var init := s[..|s| - 1];
      assert Members(s) == Members(init) + {s[|s| - 1]};
      MembersAtMost(init);
    }
  }

  /** The earliest live deliveries of an endpoint, to the limit or all of them, each taken under the lease. */
  ghost predicate AnswersLive(h: map<string, Hash>, d: Due, endpoint: string, now: int, leaseUntil: int, lease: string,
                              limit: nat, out: seq<Queued>) {
    && EarliestLive(h, d, endpoint, now, IdsOf(out))
    && (|out| == limit || (|out| < limit && AllClaimed(h, d, endpoint, now, out)))
    && forall i :: 0 <= i < |out| ==>
         out[i].id in h && out[i] == QueuedOf(out[i].id, HeldOf(TakenHash(h[out[i].id], lease), leaseUntil), lease)
  }

  /** Progress, sound or not, loses no delivery from its set and no endpoint. */
  lemma ProgressAnswers(h: map<string, Hash>, d: Due, endpoints: set<string>, endpoint: string, now: int,
                        leaseUntil: int, lease: string, h': map<string, Hash>, d': Due, limit: nat, out: seq<Queued>)
    requires Indexed(h, d) && Listed(d, endpoints) && Progress(h, d, endpoint, now, leaseUntil, lease, h', d', out)
    requires |out| == limit || (|out| < limit && AllClaimed(h, d, endpoint, now, out))
    ensures Indexed(h', d') && Listed(d', endpoints) && d'.Keys <= d.Keys
    ensures AnswersLive(h, d, endpoint, now, leaseUntil, lease, limit, out)
    ensures forall id :: id in h ==> id in h' && h'[id].endpoint == h[id].endpoint
  {
  }

  /** What a claim answers is under its lease, and within its limit; while the keys agree, it is of the endpoint. */
  lemma AnsweredHere(h: map<string, Hash>, d: Due, endpoint: string, now: int, leaseUntil: int, lease: string,
                     limit: nat, out: seq<Queued>, h': map<string, Hash>)
    requires AnswersLive(h, d, endpoint, now, leaseUntil, lease, limit, out) && Indexed(h, d) && Rightly(h, d)
    requires forall id :: id in h ==> id in h' && h'[id].endpoint == h[id].endpoint
    ensures |out| <= limit && forall i :: 0 <= i < |out| ==> out[i].lease == lease
    ensures forall id :: id in IdsOf(out) ==> id in h' && h'[id].endpoint == endpoint
  {
    forall id | id in IdsOf(out) ensures id in h' && h'[id].endpoint == endpoint {
      MemberIsOwn(h, d, Member(endpoint, id));
    }
  }

  /** Progress leaves every delivery in its set, and every endpoint with members listed. */
  lemma ProgressKeeps(h: map<string, Hash>, d: Due, endpoints: set<string>, endpoint: string, now: int,
                      leaseUntil: int, lease: string, h': map<string, Hash>, d': Due, out: seq<Queued>)
    requires Sound(h, d, endpoints) && Progress(h, d, endpoint, now, leaseUntil, lease, h', d', out)
    ensures Sound(h', d', endpoints)
    ensures forall id :: id in h ==> id in h' && h'[id].endpoint == h[id].endpoint
    ensures forall id :: id in IdsOf(out) ==> id in h' && h'[id].endpoint == endpoint
  {
    forall id | id in IdsOf(out) ensures id in h' && h'[id].endpoint == endpoint {
      InIdsOf(out, id);
      MemberIsOwn(h, d, Member(endpoint, id));
    }
  }

  lemma LiveIsDue(h: map<string, Hash>, d: Due, endpoint: string, now: int, id: string)
    requires Indexed(h, d) && Rightly(h, d)
    ensures Live(h, d, endpoint, now, id) <==> id in DueIds(DeliveriesOf(h, d), [endpoint], now)
  {
    if Live(h, d, endpoint, now, id) { MemberIsOwn(h, d, Member(endpoint, id)); }
  }

  /** **Progress to the limit, or through everything live, is the claim of that endpoint.** */
  lemma ProgressIsClaim(h: map<string, Hash>, d: Due, endpoints: set<string>, endpoint: string, now: int,
                        leaseUntil: int, lease: string, h': map<string, Hash>, d': Due, limit: nat, out: seq<Queued>)
    requires Sound(h, d, endpoints) && Sound(h', d', endpoints) && lease != ""
    requires Progress(h, d, endpoint, now, leaseUntil, lease, h', d', out)
    requires |out| == limit || (|out| < limit && AllClaimed(h, d, endpoint, now, out))
    ensures Claimed(DeliveriesOf(h, d), DeliveriesOf(h', d'), [endpoint], now, leaseUntil, limit, out)
    ensures forall i :: 0 <= i < |out| ==> out[i].lease == lease
  {
    var before := DeliveriesOf(h, d);
    LiveIsChosen(h, d, endpoint, now, out);
    var dueIds := DueIds(before, [endpoint], now);
    DistinctSize(IdsOf(out));
    assert Members(IdsOf(out)) <= dueIds;
    SubsetSize(Members(IdsOf(out)), dueIds);
    if |out| < limit {
      forall id | id in dueIds ensures id in IdsOf(out) { LiveIsDue(h, d, endpoint, now, id); }
      assert Members(IdsOf(out)) == dueIds;
    }
    ProgressTakes(h, d, endpoints, endpoint, now, leaseUntil, lease, h', d', out);
  }

  lemma LiveIsChosen(h: map<string, Hash>, d: Due, endpoint: string, now: int, out: seq<Queued>)
    requires Indexed(h, d) && Rightly(h, d) && EarliestLive(h, d, endpoint, now, IdsOf(out))
    ensures Chosen(DeliveriesOf(h, d), [endpoint], now, out)
    ensures forall id :: id in IdsOf(out) ==> id in DueIds(DeliveriesOf(h, d), [endpoint], now)
  {
    var before := DeliveriesOf(h, d);
    var dueIds := DueIds(before, [endpoint], now);
    var ids := IdsOf(out);
    forall id ensures Live(h, d, endpoint, now, id) <==> id in dueIds { LiveIsDue(h, d, endpoint, now, id); }
    assert forall i :: 0 <= i < |out| ==> out[i].id == ids[i];
    assert forall id :: id in dueIds ==> before[id].endpoint == endpoint && before[id].due == d[Member(endpoint, id)];
    forall i, j | 0 <= i < j < |out| ensures NoLater(before, [endpoint], out[i].id, out[j].id) {
      assert d[Member(endpoint, ids[i])] <= d[Member(endpoint, ids[j])];
    }
    forall i, id | 0 <= i < |out| && id in dueIds && id !in ids ensures NoLater(before, [endpoint], out[i].id, id) {
      assert d[Member(endpoint, ids[i])] <= d[Member(endpoint, id)];
    }
  }

  lemma ProgressTakes(h: map<string, Hash>, d: Due, endpoints: set<string>, endpoint: string, now: int,
                      leaseUntil: int, lease: string, h': map<string, Hash>, d': Due, out: seq<Queued>)
    requires Sound(h, d, endpoints) && Sound(h', d', endpoints) && lease != ""
    requires Progress(h, d, endpoint, now, leaseUntil, lease, h', d', out)
    ensures TakenAll(DeliveriesOf(h, d), DeliveriesOf(h', d'), leaseUntil, out)
  {
    var before, after := DeliveriesOf(h, d), DeliveriesOf(h', d');
    forall id | id in before && id !in IdsOf(out) ensures after[id] == before[id] {
      assert Member(h[id].endpoint, id) in d && Member(h[id].endpoint, id) in d';
    }
    forall i | 0 <= i < |out| && out[i].id in before
      ensures after[out[i].id] == Taken(before[out[i].id], out[i].lease, leaseUntil)
      ensures out[i] == QueuedOf(out[i].id, after[out[i].id], out[i].lease)
    {
      InIdsOf(out, out[i].id);
      MemberIsOwn(h, d, Member(endpoint, out[i].id));
      assert Member(endpoint, out[i].id) in d';
    }
  }

  /** The ids one call claimed so far are those of endpoints it walked. */
  ghost predicate SeenIn(seen: set<string>, hashes: map<string, Hash>, walked: seq<string>) {
    forall id :: id in seen ==> id in hashes && hashes[id].endpoint in walked
  }

  lemma NoneSeen(hashes: map<string, Hash>, walked: seq<string>)
    ensures SeenIn({}, hashes, walked)
  {
  }

  lemma SeenNotHere(seen: set<string>, hashes: map<string, Hash>, due: Due, endpoints: set<string>,
                    walked: seq<string>, endpoint: string)
    requires SeenIn(seen, hashes, walked) && endpoint !in walked && Sound(hashes, due, endpoints)
    ensures Indexed(hashes, due) && Rightly(hashes, due) && Listed(due, endpoints)
    ensures forall id :: id in seen ==> Member(endpoint, id) !in due
  {
    SeenElsewhere(hashes, due, endpoint, seen);
  }

  lemma SeenMore(seen: set<string>, h: map<string, Hash>, walked: seq<string>, endpoint: string,
                 seen': set<string>, hashes: map<string, Hash>)
    requires SeenIn(seen, h, walked)
    requires forall id :: id in h ==> id in hashes && hashes[id].endpoint == h[id].endpoint
    requires forall id :: id in seen' ==> id in seen || (id in hashes && hashes[id].endpoint == endpoint)
    ensures SeenIn(seen', hashes, walked + [endpoint])
  {
  }

  lemma SortedOrphans(hashes: map<string, Hash>, due: Due, endpoints: set<string>, known: seq<string>)
    requires Sound(hashes, due, endpoints)
    ensures OrphanOrder(DeliveriesOf(hashes, due), known, Sorted(endpoints - Members(known)))
  {
    var walked := Sorted(endpoints - Members(known));
    forall i, j | 0 <= i < j < |walked| ensures walked[i] != walked[j] {
      LessIrreflexive(walked[i]);
    }
    forall id | id in hashes && hashes[id].endpoint !in known ensures hashes[id].endpoint in walked {
      assert Member(hashes[id].endpoint, id) in due;
    }
  }

  // ----- undoing an insert

  /**
   * What was written since `hashes0`, `due0`, `endpoints0` is what `undo`
   * takes back: hashes, members and endpoints not there before. A member
   * there before may be gone or rescored only if its hash was gone already.
   */
  ghost predicate Undoable(hashes0: map<string, Hash>, due0: Due, endpoints0: set<string>,
                           hashes: map<string, Hash>, due: Due, endpoints: set<string>, undo: seq<Undo>)
  {
    && (forall id :: id in hashes0 ==> id in hashes && hashes[id] == hashes0[id])
    && (forall id :: id in hashes ==> id in hashes0 || Del(id) in undo)
    && (forall id :: Del(id) in undo ==> id !in hashes0)
    && (forall e :: e in endpoints0 ==> e in endpoints)
    && (forall e :: e in endpoints ==> e in endpoints0 || Srem(e) in undo)
    && (forall e :: Srem(e) in undo ==> e !in endpoints0)
    && (forall m :: m in due0 && m.id in hashes0 ==> m in due && due[m] == due0[m])
    && (forall m :: m in due ==> m in due0 || Undo.Zrem(m.endpoint, m.id) in undo)
    && (forall e, id :: Undo.Zrem(e, id) in undo ==> id !in hashes0)
  }

  lemma NothingToUndo(hashes: map<string, Hash>, due: Due, endpoints: set<string>)
    ensures Undoable(hashes, due, endpoints, hashes, due, endpoints, [])
  {
  }

  lemma UndoesZadd(hashes0: map<string, Hash>, due0: Due, endpoints0: set<string>, hashes: map<string, Hash>, due: Due,
                   endpoints: set<string>, undo: seq<Undo>, m: Member, score: int)
    requires Undoable(hashes0, due0, endpoints0, hashes, due, endpoints, undo) && m.id !in hashes
    ensures Undoable(hashes0, due0, endpoints0, hashes, due[m := score], endpoints,
                     undo + [Undo.Zrem(m.endpoint, m.id)])
  {
  }

  lemma UndoesSadd(hashes0: map<string, Hash>, due0: Due, endpoints0: set<string>, hashes: map<string, Hash>, due: Due,
                   endpoints: set<string>, undo: seq<Undo>, e: string)
    requires Undoable(hashes0, due0, endpoints0, hashes, due, endpoints, undo) && e !in endpoints
    ensures Undoable(hashes0, due0, endpoints0, hashes, due, endpoints + {e}, undo + [Undo.Srem(e)])
  {
  }

  lemma UndoesHset(hashes0: map<string, Hash>, due0: Due, endpoints0: set<string>, hashes: map<string, Hash>, due: Due,
                   endpoints: set<string>, undo: seq<Undo>, id: string, hash: Hash)
    requires Undoable(hashes0, due0, endpoints0, hashes, due, endpoints, undo) && id !in hashes
    ensures Undoable(hashes0, due0, endpoints0, hashes[id := hash], due, endpoints, undo + [Undo.Del(id)])
  {
  }

  /** Taking back the last write. */
  lemma OneUndone(hashes0: map<string, Hash>, due0: Due, endpoints0: set<string>, hashes: map<string, Hash>, due: Due,
                  endpoints: set<string>, undo: seq<Undo>, last: Undo)
    requires Undoable(hashes0, due0, endpoints0, hashes, due, endpoints, undo + [last])
    ensures match last
            case Zrem(e, id) => Undoable(hashes0, due0, endpoints0, hashes, due - {Member(e, id)}, endpoints, undo)
            case Srem(e) => Undoable(hashes0, due0, endpoints0, hashes, due, endpoints - {e}, undo)
            case Del(id) => Undoable(hashes0, due0, endpoints0, hashes - {id}, due, endpoints, undo)
  {
  }

  lemma AllUndone(hashes0: map<string, Hash>, due0: Due, endpoints0: set<string>,
                  hashes: map<string, Hash>, due: Due, endpoints: set<string>)
    requires Sound(hashes0, due0, endpoints0)
    requires Undoable(hashes0, due0, endpoints0, hashes, due, endpoints, [])
    ensures hashes == hashes0 && endpoints == endpoints0 && Sound(hashes, due, endpoints)
    ensures DeliveriesOf(hashes, due) == DeliveriesOf(hashes0, due0) && due.Keys <= due0.Keys
  {
  }
}
