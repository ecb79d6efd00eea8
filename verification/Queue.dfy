/**
 * The webhook queue as its port promises it: deliveries by id, what each
 * method makes of them, and what a claim may answer — up to the order of
 * equal due times.
 */
module Queue {
  import opened Std
  import opened Earliest

  datatype Event = Event(id: string, kind: string, occurredAt: int, userId: string, userType: string)

  datatype Failure = Failure(status: Option<nat>, error: Option<string>)

  /** A delivery in the queue. Under a lease, `due` says when the lease runs out. */
  datatype Held = Held(event: Event, endpoint: string, attempts: nat, failed: Option<Failure>, lease: Option<string>,
                       due: int)

  type Deliveries = map<string, Held>

  /** One delivery as a claim answers it. */
  datatype Queued = Queued(id: string, event: Event, endpoint: string, attempts: nat, failed: Option<Failure>,
                           lease: string)

  /** The same event for the same endpoint has the same id. */
  function DeliveryId(event: Event, endpoint: string): string {
    event.id + ":" + event.kind + ":" + endpoint
  }

  function NewDelivery(event: Event, endpoint: string, dueAt: int): Held {
    Held(event, endpoint, 0, None, None, dueAt)
  }

  // ----- what each method makes of the deliveries

  function InsertedOne(held: Deliveries, event: Event, endpoint: string, dueAt: int): Deliveries {
    var id := DeliveryId(event, endpoint);
    if id in held then held else held[id := NewDelivery(event, endpoint, dueAt)]
  }

  /** Endpoint by endpoint, skipping what is there. */
  function Inserted(held: Deliveries, event: Event, endpoints: seq<string>, dueAt: int): Deliveries {
    if endpoints == [] then held
    else
      var before := Inserted(held, event, endpoints[..|endpoints| - 1], dueAt);
      InsertedOne(before, event, endpoints[|endpoints| - 1], dueAt)
  }

  /** Whether `lease` is the one the delivery holds. */
  predicate Leased(held: Deliveries, id: string, lease: string) {
    id in held && held[id].lease == Some(lease)
  }

  function Extended(held: Deliveries, id: string, lease: string, until: int): Deliveries {
    if Leased(held, id, lease) then held[id := held[id].(due := until)] else held
  }

  function Retried(held: Deliveries, id: string, lease: string, dueAt: int, failed: Failure): Deliveries {
    if Leased(held, id, lease) then held[id := held[id].(failed := Some(failed), lease := None, due := dueAt)] else held
  }

  function Deleted(held: Deliveries, id: string, lease: string): Deliveries {
    if Leased(held, id, lease) then held - {id} else held
  }

  // ----- claims

  /** Where an endpoint stands in the order walked. */
  function Rank(endpoints: seq<string>, endpoint: string): nat
    ensures endpoint in endpoints ==>
              Rank(endpoints, endpoint) < |endpoints| && endpoints[Rank(endpoints, endpoint)] == endpoint
  {
    if endpoints == [] || endpoints[0] == endpoint then 0 else 1 + Rank(endpoints[1..], endpoint)
  }

  /** The ids of the deliveries of these endpoints due at `at`. */
  function DueIds(held: Deliveries, endpoints: seq<string>, at: int): set<string> {
    set id | id in held && held[id].endpoint in endpoints && held[id].due <= at
  }

  /** A claim walks to `a` no later than to `b`: an earlier endpoint, or the same and due no later. */
  predicate NoLater(held: Deliveries, endpoints: seq<string>, a: string, b: string)
    requires a in held && b in held
  {
    var i, j := Rank(endpoints, held[a].endpoint), Rank(endpoints, held[b].endpoint);
    i < j || (i == j && held[a].due <= held[b].due)
  }

  function Taken(one: Held, lease: string, leaseUntil: int): Held {
    one.(attempts := one.attempts + 1, lease := Some(lease), due := leaseUntil)
  }

  function QueuedOf(id: string, one: Held, lease: string): Queued {
    Queued(id, one.event, one.endpoint, one.attempts, one.failed, lease)
  }

  function IdsOf(out: seq<Queued>): seq<string> {
    seq(|out|, i requires 0 <= i < |out| => out[i].id)
  }

  /** The deliveries answered are distinct, due, in the order walked, and none left out is earlier. */
  ghost predicate Chosen(held: Deliveries, endpoints: seq<string>, at: int, out: seq<Queued>) {
    && (forall i, j :: 0 <= i < j < |out| ==> out[i].id != out[j].id)
    && (forall i :: 0 <= i < |out| ==> out[i].id in DueIds(held, endpoints, at))
    && (forall i, j :: 0 <= i < j < |out| ==> NoLater(held, endpoints, out[i].id, out[j].id))
    && (forall i, id :: 0 <= i < |out| && id in DueIds(held, endpoints, at) && id !in IdsOf(out) ==>
          NoLater(held, endpoints, out[i].id, id))
  }

  /** Each delivery answered counts one more attempt, and is hidden under its lease; no other changes. */
  ghost predicate TakenAll(before: Deliveries, after: Deliveries, leaseUntil: int, out: seq<Queued>) {
    && after.Keys == before.Keys
    && (forall id :: id in before && id !in IdsOf(out) ==> after[id] == before[id])
    && (forall i :: 0 <= i < |out| && out[i].id in before ==>
          after[out[i].id] == Taken(before[out[i].id], out[i].lease, leaseUntil) &&
          out[i] == QueuedOf(out[i].id, after[out[i].id], out[i].lease))
  }

  /** The deliveries once those answered are taken, one after the other. */
  function TakeAll(held: Deliveries, leaseUntil: int, out: seq<Queued>): Deliveries {
    if out == [] then held else
      var mid := TakeAll(held, leaseUntil, out[..|out| - 1]);
      var last := out[|out| - 1];
      if last.id in mid then mid[last.id := Taken(mid[last.id], last.lease, leaseUntil)] else mid
  }

  /** What an answer says of a delivery it takes. */
  predicate AnswersTaken(held: Deliveries, leaseUntil: int, one: Queued) {
    one.id in held && one == QueuedOf(one.id, Taken(held[one.id], one.lease, leaseUntil), one.lease)
  }

  lemma TakeOneTakes(held: Deliveries, leaseUntil: int, one: Queued)
    requires AnswersTaken(held, leaseUntil, one)
    ensures TakenAll(held, held[one.id := Taken(held[one.id], one.lease, leaseUntil)], leaseUntil, [one])
  {
    assert IdsOf([one]) == [one.id];
  }

  /** One delivery more, taken from what is left of the others. */
  lemma TakeLast(held: Deliveries, mid: Deliveries, leaseUntil: int, init: seq<Queued>, last: Queued)
    requires TakenAll(held, mid, leaseUntil, init) && last.id !in IdsOf(init) && AnswersTaken(held, leaseUntil, last)
    ensures last.id in mid
    ensures TakenAll(held, mid[last.id := Taken(mid[last.id], last.lease, leaseUntil)], leaseUntil, init + [last])
  {
    assert last.id in mid && mid[last.id] == held[last.id];
    var after := mid[last.id := Taken(mid[last.id], last.lease, leaseUntil)];
    TakeOneTakes(mid, leaseUntil, last);
    hide TakenAll;
    TakenMore(held, mid, after, leaseUntil, init, [last]);
  }

  lemma {:induction false} TakeAllTakes(held: Deliveries, leaseUntil: int, out: seq<Queued>)
    requires Distinct(IdsOf(out)) && forall i :: 0 <= i < |out| ==> AnswersTaken(held, leaseUntil, out[i])
    ensures TakenAll(held, TakeAll(held, leaseUntil, out), leaseUntil, out)
    decreases |out|
  {
    hide TakenAll, AnswersTaken, IdsOf, Distinct, Taken;
    if out == [] {
      TakeNone(held, leaseUntil);
    } else {
      LastIsNew(out);
      var init, last := out[..|out| - 1], out[|out| - 1];
      TakeAllTakes(held, leaseUntil, init);
      TakeLast(held, TakeAll(held, leaseUntil, init), leaseUntil, init, last);
      assert init + [last] == out;
    }
  }

  lemma TakeNone(held: Deliveries, leaseUntil: int)
    ensures TakenAll(held, held, leaseUntil, [])
  {
  }

  lemma LastIsNew(out: seq<Queued>)
    requires Distinct(IdsOf(out)) && out != []
    ensures Distinct(IdsOf(out[..|out| - 1])) && out[|out| - 1].id !in IdsOf(out[..|out| - 1])
  {
    var init := out[..|out| - 1];
    assert IdsOf(init) == IdsOf(out)[..|init|] && IdsOf(out)[|init|] == out[|init|].id;
  }

  /** **A claim**: exactly as many as the limit allows, earliest first, each once. */
  ghost predicate Claimed(before: Deliveries, after: Deliveries, endpoints: seq<string>, at: int, leaseUntil: int,
                          limit: nat, out: seq<Queued>)
  {
    && Chosen(before, endpoints, at, out)
    && TakenAll(before, after, leaseUntil, out)
    && |out| == (var due := |DueIds(before, endpoints, at)|; if limit < due then limit else due)
  }

  /** `new Set(endpoints)`, in the order of first mention. */
  function Once(endpoints: seq<string>): (r: seq<string>)
    ensures Distinct(r) && forall e :: e in r <==> e in endpoints
  {
    if endpoints == [] then [] else
      var init := Once(endpoints[..|endpoints| - 1]);
      var last := endpoints[|endpoints| - 1];
      if last in init then init else init + [last]
  }

  lemma InIdsOf(out: seq<Queued>, id: string)
    ensures id in IdsOf(out) <==> exists i :: 0 <= i < |out| && out[i].id == id
  {
    if i :| 0 <= i < |out| && out[i].id == id { assert IdsOf(out)[i] == id; }
  }

  lemma IdsOfSum(a: seq<Queued>, b: seq<Queued>)
    ensures IdsOf(a + b) == IdsOf(a) + IdsOf(b)
  {
  }

  /** Claimed to the limit, or everything due claimed. */
  lemma ClaimedAllDue(before: Deliveries, after: Deliveries, endpoints: seq<string>, at: int, leaseUntil: int,
                      limit: nat, out: seq<Queued>)
    requires Claimed(before, after, endpoints, at, leaseUntil, limit, out) && |out| < limit
    ensures Members(IdsOf(out)) == DueIds(before, endpoints, at)
  {
    assert Distinct(IdsOf(out));
    DistinctSize(IdsOf(out));
    SubsetSize(Members(IdsOf(out)), DueIds(before, endpoints, at));
  }

  lemma {:induction false} RankInPrefix(done: seq<string>, e: string, x: string)
    ensures x in done ==> Rank(done + [e], x) == Rank(done, x)
    ensures x !in done && x == e ==> Rank(done + [e], x) == |done|
  {
    if done != [] {
      assert (done + [e])[1..] == done[1..] + [e];
      RankInPrefix(done[1..], e, x);
    }
  }

  lemma ClaimNothing(held: Deliveries, endpoints: seq<string>, at: int, leaseUntil: int, limit: nat)
    requires limit == 0 || endpoints == []
    ensures Claimed(held, held, endpoints, at, leaseUntil, limit, [])
  {
  }

  /** What is due at an endpoint not walked yet is as it was before the walk. */
  lemma NotYetWalked(before: Deliveries, mid: Deliveries, done: seq<string>, e: string, at: int,
                     leaseUntil: int, limit: nat, a: seq<Queued>)
    requires e !in done && Claimed(before, mid, done, at, leaseUntil, limit, a)
    ensures DueIds(before, [e], at) == DueIds(mid, [e], at)
    ensures forall id :: id in DueIds(before, [e], at) ==>
              id in before && id in mid && mid[id] == before[id] && id !in IdsOf(a)
    ensures |a| <= limit
  {
  }

  /** Walking one endpoint more. */
  lemma ClaimMore(before: Deliveries, mid: Deliveries, after: Deliveries, done: seq<string>, e: string, at: int,
                  leaseUntil: int, limit: nat, a: seq<Queued>, b: seq<Queued>)
    requires e !in done && Claimed(before, mid, done, at, leaseUntil, limit, a)
    requires Claimed(mid, after, [e], at, leaseUntil, limit - |a|, b)
    ensures Claimed(before, after, done + [e], at, leaseUntil, limit, a + b)
  {
    hide Claimed, DueIds, IdsOf, Members, Chosen, TakenAll;
    NotYetWalked(before, mid, done, e, at, leaseUntil, limit, a);
    DueAtOneMore(before, done, e, at);
    ClaimParts(before, mid, done, at, leaseUntil, limit, a);
    ClaimParts(mid, after, [e], at, leaseUntil, limit - |a|, b);
    ChosenMore(before, mid, done, e, at, a, b);
    TakenMore(before, mid, after, leaseUntil, a, b);
    ClaimOf(before, after, done + [e], at, leaseUntil, limit, a + b);
  }

  /** What a claim is made of; and either everything due is claimed, or the limit is reached. */
  lemma ClaimParts(before: Deliveries, after: Deliveries, endpoints: seq<string>, at: int, leaseUntil: int,
                   limit: nat, out: seq<Queued>)
    requires Claimed(before, after, endpoints, at, leaseUntil, limit, out)
    ensures Chosen(before, endpoints, at, out) && TakenAll(before, after, leaseUntil, out)
    ensures |out| == if limit < |DueIds(before, endpoints, at)| then limit else |DueIds(before, endpoints, at)|
    ensures |out| < limit ==> Members(IdsOf(out)) == DueIds(before, endpoints, at)
    ensures forall i :: 0 <= i < |out| ==> out[i].id in before && out[i].id in DueIds(before, endpoints, at)
  {
    if |out| < limit { ClaimedAllDue(before, after, endpoints, at, leaseUntil, limit, out); }
  }

  lemma ClaimOf(before: Deliveries, after: Deliveries, endpoints: seq<string>, at: int, leaseUntil: int,
                limit: nat, out: seq<Queued>)
    requires Chosen(before, endpoints, at, out) && TakenAll(before, after, leaseUntil, out)
    requires |out| == if limit < |DueIds(before, endpoints, at)| then limit else |DueIds(before, endpoints, at)|
    ensures Claimed(before, after, endpoints, at, leaseUntil, limit, out)
  {
  }

  lemma DueAtOneMore(held: Deliveries, done: seq<string>, e: string, at: int)
    requires e !in done
    ensures |DueIds(held, done + [e], at)| == |DueIds(held, done, at)| + |DueIds(held, [e], at)|
  {
    assert DueIds(held, done + [e], at) == DueIds(held, done, at) + DueIds(held, [e], at);
    assert DueIds(held, done, at) !! DueIds(held, [e], at);
  }

  lemma TakenMore(before: Deliveries, mid: Deliveries, after: Deliveries, leaseUntil: int, a: seq<Queued>,
                  b: seq<Queued>)
    requires TakenAll(before, mid, leaseUntil, a) && TakenAll(mid, after, leaseUntil, b)
    requires forall i :: 0 <= i < |b| ==> b[i].id in mid && b[i].id !in IdsOf(a)
    ensures TakenAll(before, after, leaseUntil, a + b)
  {
    var out := a + b;
    IdsOfSum(a, b);
    forall i | 0 <= i < |out| && out[i].id in before
      ensures after[out[i].id] == Taken(before[out[i].id], out[i].lease, leaseUntil)
      ensures out[i] == QueuedOf(out[i].id, after[out[i].id], out[i].lease)
    {
      if i < |a| {
        InIdsOf(a, a[i].id);
        InIdsOf(b, a[i].id);
      } else {
        assert out[i] == b[i - |a|];
      }
    }
  }

  lemma ChosenMore(before: Deliveries, mid: Deliveries, done: seq<string>, e: string, at: int, a: seq<Queued>,
                   b: seq<Queued>)
    requires e !in done && Chosen(before, done, at, a) && Chosen(mid, [e], at, b)
    requires DueIds(before, [e], at) == DueIds(mid, [e], at)
    requires forall id :: id in DueIds(before, [e], at) ==> mid[id] == before[id]
    requires b == [] || Members(IdsOf(a)) == DueIds(before, done, at)
    ensures Chosen(before, done + [e], at, a + b)
  {
    var out, all := a + b, done + [e];
    IdsOfSum(a, b);
    var here, there := DueIds(before, done, at), DueIds(before, [e], at);
    assert DueIds(before, all, at) == here + there;
    forall id | id in before ensures
      (before[id].endpoint in done ==> Rank(all, before[id].endpoint) == Rank(done, before[id].endpoint) < |done|) &&
      (before[id].endpoint == e ==> Rank(all, before[id].endpoint) == |done|)
    {
      RankInPrefix(done, e, before[id].endpoint);
    }
    forall i | 0 <= i < |out| ensures out[i].id in (if i < |a| then here else there) {
    }
    forall i, j | 0 <= i < j < |out| ensures NoLater(before, all, out[i].id, out[j].id) {
      if j < |a| {
        assert NoLater(before, done, a[i].id, a[j].id);
      } else if i >= |a| {
        assert NoLater(mid, [e], b[i - |a|].id, b[j - |a|].id);
      }
    }
    forall i, id | 0 <= i < |out| && id in DueIds(before, all, at) && id !in IdsOf(out)
      ensures NoLater(before, all, out[i].id, id)
    {
      if i >= |a| {
        assert id in there;
        assert NoLater(mid, [e], b[i - |a|].id, id);
      } else if id in here {
        assert NoLater(before, done, a[i].id, id);
      }
    }
  }

  /** Once the limit is reached, the endpoints left are walked in vain. */
  lemma {:induction false} ClaimStops(before: Deliveries, after: Deliveries, done: seq<string>, rest: seq<string>,
                                      at: int, leaseUntil: int, limit: nat, out: seq<Queued>)
    requires Claimed(before, after, done, at, leaseUntil, limit, out) && |out| == limit && Distinct(done + rest)
    ensures Claimed(before, after, done + rest, at, leaseUntil, limit, out)
    decreases |rest|
  {
    hide Claimed;
    if rest == [] {
      assert done + rest == done;
    } else {
      var e := rest[0];
      forall i | 0 <= i < |done| ensures done[i] != e {
        assert (done + rest)[i] == done[i] && (done + rest)[|done|] == e;
      }
      ClaimNothing(after, [e], at, leaseUntil, 0);
      ClaimMore(before, after, after, done, e, at, leaseUntil, limit, out, []);
      assert out + [] == out && done + rest == (done + [e]) + rest[1..];
      ClaimStops(before, after, done + [e], rest[1..], at, leaseUntil, limit, out);
    }
  }

  lemma AtMostLimit(before: Deliveries, after: Deliveries, endpoints: seq<string>, at: int, leaseUntil: int,
                    limit: nat, out: seq<Queued>)
    requires Claimed(before, after, endpoints, at, leaseUntil, limit, out)
    ensures |out| <= limit
  {
  }

  /** One more endpoint of a list walked in order. */
  lemma WalkOne(before: Deliveries, mid: Deliveries, after: Deliveries, all: seq<string>, i: nat, at: int,
                leaseUntil: int, limit: nat, a: seq<Queued>, b: seq<Queued>)
    requires Distinct(all) && i < |all| && Claimed(before, mid, all[..i], at, leaseUntil, limit, a)
    requires Claimed(mid, after, [all[i]], at, leaseUntil, limit - |a|, b)
    ensures Claimed(before, after, all[..i + 1], at, leaseUntil, limit, a + b) && |a + b| <= limit
  {
    AtMostLimit(before, mid, all[..i], at, leaseUntil, limit, a);
    AtMostLimit(mid, after, [all[i]], at, leaseUntil, limit - |a|, b);
    hide Claimed;
    assert all[..i + 1] == all[..i] + [all[i]];
    ClaimMore(before, mid, after, all[..i], all[i], at, leaseUntil, limit, a, b);
  }

  /** At the limit, the whole list might as well have been walked. */
  lemma WalkStops(before: Deliveries, after: Deliveries, all: seq<string>, i: nat, at: int,
                  leaseUntil: int, limit: nat, out: seq<Queued>)
    requires Distinct(all) && i <= |all| && Claimed(before, after, all[..i], at, leaseUntil, limit, out)
    requires i == |all| || |out| == limit
    ensures Claimed(before, after, all, at, leaseUntil, limit, out)
  {
    hide Claimed;
    assert all == all[..i] + all[i..];
    if i < |all| {
      ClaimStops(before, after, all[..i], all[i..], at, leaseUntil, limit, out);
    } else {
      assert all[..i] == all;
    }
  }

  /** An order in which an orphan claim may walk: every endpoint with deliveries that is not known, once. */
  ghost predicate OrphanOrder(held: Deliveries, known: seq<string>, walked: seq<string>) {
    && Distinct(walked)
    && (forall e :: e in walked ==> e !in known)
    && (forall id :: id in held && held[id].endpoint !in known ==> held[id].endpoint in walked)
  }

  lemma OnceOfNone(endpoints: seq<string>)
    ensures Once(endpoints[..0]) == []
  {
  }

  lemma OnceNext(endpoints: seq<string>, i: nat)
    requires i < |endpoints|
    ensures var done := Once(endpoints[..i]);
            Once(endpoints[..i + 1]) == if endpoints[i] in done then done else done + [endpoints[i]]
  {
    assert endpoints[..i + 1][..i] == endpoints[..i];
  }

  lemma {:induction false} OnceIsPrefix(endpoints: seq<string>, i: nat) returns (rest: seq<string>)
    requires i <= |endpoints|
    ensures Once(endpoints) == Once(endpoints[..i]) + rest
  {
    if i == |endpoints| {
      assert endpoints[..i] == endpoints;
      rest := [];
    } else {
      var init, last := endpoints[..|endpoints| - 1], endpoints[|endpoints| - 1];
      assert init[..i] == endpoints[..i];
      var more := OnceIsPrefix(init, i);
      rest := if last in Once(init) then more else more + [last];
    }
  }

  // ----- what follows for every queue that keeps this

  /** An insert keeps what is held, adds one delivery per new id, and counts them. */
  lemma {:induction false} InsertKeeps(held: Deliveries, event: Event, endpoints: seq<string>, dueAt: int, id: string)
    ensures var after := Inserted(held, event, endpoints, dueAt);
            && (id in held ==> id in after && after[id] == held[id])
            && (id in after && id !in held ==>
                  exists e | e in endpoints ::
                    id == DeliveryId(event, e) && after[id] == Held(event, e, 0, None, None, dueAt))
            && (forall e :: e in endpoints ==> DeliveryId(event, e) in after)
  {
    if endpoints != [] {
      InsertKeeps(held, event, endpoints[..|endpoints| - 1], dueAt, id);
    }
  }

  /** Inserting again is a retry: nothing is added. */
  lemma {:induction false} InsertIsIdempotent(held: Deliveries, event: Event, endpoints: seq<string>, dueAt: int,
                                              again: int)
    ensures var once := Inserted(held, event, endpoints, dueAt); Inserted(once, event, endpoints, again) == once
  {
    InsertKeeps(held, event, endpoints, dueAt, "");
    InsertHeld(Inserted(held, event, endpoints, dueAt), event, endpoints, again);
  }

  lemma {:induction false} InsertHeld(held: Deliveries, event: Event, endpoints: seq<string>, dueAt: int)
    requires forall e :: e in endpoints ==> DeliveryId(event, e) in held
    ensures Inserted(held, event, endpoints, dueAt) == held
  {
    if endpoints != [] { InsertHeld(held, event, endpoints[..|endpoints| - 1], dueAt); }
  }

  /** **No delivery is answered before its lease ends**, and two claims in a row never answer one while it holds. */
  lemma ClaimHides(before: Deliveries, mid: Deliveries, after: Deliveries, first: seq<string>, second: seq<string>,
                   at: int, leaseUntil: int, limit: nat, at': int, leaseUntil': int, limit': nat,
                   out: seq<Queued>, out': seq<Queued>)
    requires Claimed(before, mid, first, at, leaseUntil, limit, out)
    requires Claimed(mid, after, second, at', leaseUntil', limit', out') && at' < leaseUntil
    ensures forall i, j :: 0 <= i < |out| && 0 <= j < |out'| ==> out[i].id != out'[j].id
    ensures forall i :: 0 <= i < |out| ==> Leased(after, out[i].id, out[i].lease) && after[out[i].id] == mid[out[i].id]
  {
  }

  /** No two deliveries due tie: the order walked is strict. */
  ghost predicate NoTies(held: Deliveries, endpoints: seq<string>, at: int) {
    forall a, b | a in DueIds(held, endpoints, at) && b in DueIds(held, endpoints, at) ::
      NoLater(held, endpoints, a, b) && NoLater(held, endpoints, b, a) ==> a == b
  }

  lemma {:induction false} ChosenAgree(held: Deliveries, endpoints: seq<string>, at: int, out: seq<Queued>,
                                       out': seq<Queued>, i: nat)
    requires Chosen(held, endpoints, at, out) && Chosen(held, endpoints, at, out') && |out| == |out'|
    requires NoTies(held, endpoints, at) && i <= |out|
    ensures forall j :: 0 <= j < i ==> out[j].id == out'[j].id
  {
    if i > 0 {
      ChosenAgree(held, endpoints, at, out, out', i - 1);
      FirstLeft(held, endpoints, at, out, out', i - 1);
      FirstLeft(held, endpoints, at, out', out, i - 1);
    }
  }

  /** **Without ties, a claim has one answer**: any two queues claim the same deliveries, in the same order. */
  lemma ClaimsAgree(before: Deliveries, after: Deliveries, after': Deliveries, endpoints: seq<string>, at: int,
                    leaseUntil: int, limit: nat, out: seq<Queued>, out': seq<Queued>)
    requires Claimed(before, after, endpoints, at, leaseUntil, limit, out)
    requires Claimed(before, after', endpoints, at, leaseUntil, limit, out')
    requires NoTies(before, endpoints, at)
    ensures IdsOf(out) == IdsOf(out')
    ensures forall i :: 0 <= i < |out| ==> out[i].attempts == out'[i].attempts && out[i].event == out'[i].event
  {
    ChosenAgree(before, endpoints, at, out, out', |out|);
    assert forall i :: 0 <= i < |out| ==> out[i].id in before && out'[i].id == out[i].id;
  }

  /** Where two answers agree so far, the next of one comes no later than the next of the other. */
  lemma FirstLeft(held: Deliveries, endpoints: seq<string>, at: int, out: seq<Queued>, out': seq<Queued>, i: nat)
    requires Chosen(held, endpoints, at, out) && Chosen(held, endpoints, at, out') && i < |out| == |out'|
    requires forall j :: 0 <= j < i ==> out[j].id == out'[j].id
    ensures out[i].id in held && out'[i].id in held && NoLater(held, endpoints, out[i].id, out'[i].id)
  {
  }

  // ----- what each change is, field by field

  /** An extension moves `due` and nothing else, of the delivery whose lease it names and of no other. */
  lemma ExtendIs(held: Deliveries, id: string, lease: string, until: int)
    ensures var after := Extended(held, id, lease, until);
            && after.Keys == held.Keys
            && (forall x :: x in held && x != id ==> after[x] == held[x])
            && (id in held ==> after[id].due == if held[id].lease == Some(lease) then until else held[id].due)
            && (id in held ==> after[id] == held[id].(due := after[id].due))
  {
  }

  /** A retry remembers the whole failure, frees the lease and moves `due`; event, endpoint and attempts stay. */
  lemma RetryIs(held: Deliveries, id: string, lease: string, dueAt: int, failed: Failure)
    ensures var after := Retried(held, id, lease, dueAt, failed);
            && after.Keys == held.Keys
            && (forall x :: x in held && x != id ==> after[x] == held[x])
            && (id in held && held[id].lease != Some(lease) ==> after[id] == held[id])
            && (id in held && held[id].lease == Some(lease) ==>
                  && after[id].failed.Some? && after[id].failed.value.status == failed.status
                  && after[id].failed.value.error == failed.error
                  && after[id].lease.None? && after[id].due == dueAt
                  && after[id].event == held[id].event && after[id].endpoint == held[id].endpoint
                  && after[id].attempts == held[id].attempts)
  {
  }

  /** A removal takes the delivery whose lease it names, and no other. */
  lemma DeleteIs(held: Deliveries, id: string, lease: string)
    ensures var after := Deleted(held, id, lease);
            && (forall x :: x in after <==> x in held && !(x == id && held[id].lease == Some(lease)))
            && (forall x :: x in after ==> after[x] == held[x])
  {
  }

  /** Where an endpoint is walked first. */
  predicate FirstAt(endpoints: seq<string>, p: nat, endpoint: string) {
    p < |endpoints| && endpoints[p] == endpoint && endpoint !in endpoints[..p]
  }

  lemma {:induction false} RankIsFirst(endpoints: seq<string>, p: nat, endpoint: string)
    requires FirstAt(endpoints, p, endpoint)
    ensures Rank(endpoints, endpoint) == p
  {
    if p > 0 {
      assert endpoints[0] == endpoints[..p][0];
      assert endpoints[1..][..p - 1] == endpoints[..p][1..];
      RankIsFirst(endpoints[1..], p - 1, endpoint);
    }
  }

  /**
   * **What a claim does to a delivery it answers**: one attempt more, told in
   * the answer; the lease it is answered under, until `leaseUntil`; the event,
   * the endpoint and the last failure as they were. It was due at `at` or
   * before, at one of the endpoints.
   */
  lemma ClaimIs(before: Deliveries, after: Deliveries, endpoints: seq<string>, at: int, leaseUntil: int, limit: nat,
                out: seq<Queued>, i: nat)
    requires Claimed(before, after, endpoints, at, leaseUntil, limit, out) && i < |out|
    ensures out[i].id in before && out[i].id in after
    ensures out[i].attempts == before[out[i].id].attempts + 1 == after[out[i].id].attempts
    ensures out[i].event == before[out[i].id].event == after[out[i].id].event
    ensures out[i].endpoint == before[out[i].id].endpoint == after[out[i].id].endpoint
    ensures out[i].failed == before[out[i].id].failed == after[out[i].id].failed
    ensures after[out[i].id].lease == Some(out[i].lease) && after[out[i].id].due == leaseUntil
    ensures before[out[i].id].endpoint in endpoints && before[out[i].id].due <= at
  {
    assert out[i].id in DueIds(before, endpoints, at);
  }

  /** **What it leaves**: every other delivery as it was; and all that is due, only when the limit is reached. */
  lemma ClaimLeaves(before: Deliveries, after: Deliveries, endpoints: seq<string>, at: int, leaseUntil: int, limit: nat,
                    out: seq<Queued>, id: string)
    requires Claimed(before, after, endpoints, at, leaseUntil, limit, out) && id in before
    ensures after.Keys == before.Keys && |out| <= limit
    ensures (forall i :: 0 <= i < |out| ==> out[i].id != id) ==> after[id] == before[id]
    ensures before[id].endpoint in endpoints && before[id].due <= at && |out| < limit ==>
              exists i :: 0 <= i < |out| && out[i].id == id
  {
    if before[id].endpoint in endpoints && before[id].due <= at && |out| < limit {
      ClaimedAllDue(before, after, endpoints, at, leaseUntil, limit, out);
      assert id in DueIds(before, endpoints, at);
    }
    if id in IdsOf(out) { InIdsOf(out, id); }
  }

  /**
   * **In what order**: endpoint by endpoint as they are first named, and of one
   * endpoint by `due`; what is left out comes no earlier than any answered.
   */
  lemma ClaimOrder(before: Deliveries, after: Deliveries, endpoints: seq<string>, at: int, leaseUntil: int, limit: nat,
                   out: seq<Queued>, i: nat, id: string, p: nat, q: nat)
    requires Claimed(before, after, endpoints, at, leaseUntil, limit, out) && i < |out|
    requires id in before && before[id].endpoint in endpoints && before[id].due <= at
    requires forall j :: 0 <= j < i ==> out[j].id != id
    requires out[i].id in before && FirstAt(endpoints, p, before[out[i].id].endpoint)
    requires FirstAt(endpoints, q, before[id].endpoint)
    ensures p < q || (p == q && before[out[i].id].due <= before[id].due)
  {
    RankIsFirst(endpoints, p, before[out[i].id].endpoint);
    RankIsFirst(endpoints, q, before[id].endpoint);
    assert id in DueIds(before, endpoints, at);
    if id in IdsOf(out) {
      InIdsOf(out, id);
      var j :| 0 <= j < |out| && out[j].id == id;
      assert NoLater(before, endpoints, out[i].id, out[j].id);
    } else {
      assert NoLater(before, endpoints, out[i].id, id);
    }
  }
}
