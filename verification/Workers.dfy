/**
 * Any number of workers over one queue, their steps interleaved, each of
 * which may crash at any step: what a claimed delivery becomes, and what no
 * interleaving can lose.
 */
module Workers {
  import opened Std
  import opened Queue

  /** One claim of one delivery: what every write after it names. */
  datatype Ticket = Ticket(id: string, lease: string)

  /** The n-th time an id was inserted: one delivery, from its insert to its removal. */
  datatype Life = Life(id: string, n: nat)

  /** Where an attempt has got to. */
  datatype Phase =
    | Started              // claimed, nothing done yet
    | Delivered            // answered 2xx
    | Failing(failure: Failure)
    | GivingUp             // about to extend the lease before the report
    | Reporting            // the lease extended, the report under way
    | Reported

  /**
   * `births` counts the inserts of each id, `issued` says which life a claim
   * was of, `latest` the last lease each id was claimed under; `answered`
   * and `reported` are the lives some endpoint answered 2xx, and those given up.
   */
  datatype State = State(
    queue: Deliveries,
    flights: map<Ticket, Phase>,
    births: map<string, nat>,
    issued: map<Ticket, Life>,
    latest: map<string, string>,
    answered: set<Life>,
    reported: set<Life>)

  const EMPTY := State(map[], map[], map[], map[], map[], {}, {})

  datatype Step =
    | Insert(event: Event, endpoints: seq<string>, dueAt: int)
    | Claim(to: seq<string>, at: int, leaseUntil: int, limit: nat, out: seq<Queued>)
    | Answer(t: Ticket)                              // the endpoint answers 2xx
    | Fail(t: Ticket, failure: Failure)              // or anything else
    | Retry(t: Ticket, retryAt: int)                 // scheduleRetry, and the attempt ends
    | Abandon(t: Ticket)                             // no retry left, closed, or the endpoint is gone
    | Extend(t: Ticket, until: int)                  // before the report: no report unless it answers true
    | Heartbeat(t: Ticket, until: int)               // while the report runs
    | Report(t: Ticket)
    | Delete(t: Ticket)
    | Crash(t: Ticket)                               // the process dies, or the queue does not answer

  function Births(births: map<string, nat>, id: string): nat {
    if id in births then births[id] else 0
  }

  /** Every id new in `after` is born once more. */
  function Born(births: map<string, nat>, before: Deliveries, after: Deliveries): map<string, nat> {
    map id | id in births.Keys + after.Keys ::
      if id in after && id !in before then Births(births, id) + 1 else Births(births, id)
  }

  function TicketOf(one: Queued): Ticket {
    Ticket(one.id, one.lease)
  }

  function Tickets(out: seq<Queued>): set<Ticket> {
    set one | one in out :: TicketOf(one)
  }

  /** Each delivery claimed starts an attempt under its own ticket. */
  function Start(s: State, queue: Deliveries, out: seq<Queued>): State {
    s.(queue := queue,
       flights := s.flights + map t | t in Tickets(out) :: Started,
       issued := s.issued + map t | t in Tickets(out) :: Life(t.id, Births(s.births, t.id)),
       latest := s.latest + map id | id in IdsOf(out) :: LeaseIn(out, id))
  }

  /** The lease a claim answered this id under. */
  function LeaseIn(out: seq<Queued>, id: string): string {
    if out == [] then "" else if out[0].id == id then out[0].lease else LeaseIn(out[1..], id)
  }

  ghost predicate Next(s: State, step: Step, s': State) {
    match step
    case Insert(event, endpoints, dueAt) =>
      var queue := Inserted(s.queue, event, endpoints, dueAt);
      s' == s.(queue := queue, births := Born(s.births, s.queue, queue))
    case Claim(to, at, leaseUntil, limit, out) =>
      // A lease is never handed out twice for one delivery.
      && (forall i :: 0 <= i < |out| ==> TicketOf(out[i]) !in s.issued)
      && Claimed(s.queue, s'.queue, to, at, leaseUntil, limit, out)
      && s' == Start(s, s'.queue, out)
    case Answer(t) =>
      t in s.flights && t in s.issued && s.flights[t].Started? &&
      s' == s.(flights := s.flights[t := Delivered], answered := s.answered + {s.issued[t]})
    case Fail(t, failure) =>
      t in s.flights && s.flights[t].Started? && s' == s.(flights := s.flights[t := Failing(failure)])
    case Retry(t, retryAt) =>
      t in s.flights && s.flights[t].Failing? &&
      s' == s.(flights := s.flights - {t}, queue := Retried(s.queue, t.id, t.lease, retryAt, s.flights[t].failure))
    case Abandon(t) =>
      t in s.flights && (s.flights[t].Started? || s.flights[t].Failing?) &&
      s' == s.(flights := s.flights[t := GivingUp])
    case Extend(t, until) =>
      t in s.flights && s.flights[t].GivingUp? &&
      s' == s.(queue := Extended(s.queue, t.id, t.lease, until),
               flights := if Leased(s.queue, t.id, t.lease) then s.flights[t := Reporting] else s.flights - {t})
    case Heartbeat(t, until) =>
      t in s.flights && s.flights[t].Reporting? && s' == s.(queue := Extended(s.queue, t.id, t.lease, until))
    case Report(t) =>
      t in s.flights && t in s.issued && s.flights[t].Reporting? &&
      s' == s.(flights := s.flights[t := Reported], reported := s.reported + {s.issued[t]})
    case Delete(t) =>
      t in s.flights && (s.flights[t].Delivered? || s.flights[t].Reported?) &&
      s' == s.(flights := s.flights - {t}, queue := Deleted(s.queue, t.id, t.lease))
    case Crash(t) =>
      t in s.flights && s' == s.(flights := s.flights - {t})
  }

  /** A run: its states, and the step between each and the next. */
  datatype Run = Run(states: seq<State>, steps: seq<Step>)

  ghost predicate IsRun(r: Run) {
    |r.states| == |r.steps| + 1 && r.states[0] == EMPTY &&
    forall i :: 0 <= i < |r.steps| ==> Next(r.states[i], r.steps[i], r.states[i + 1])
  }

  // ----- what every step keeps

  /** The life the queue holds under this id. */
  function Held(s: State, id: string): Life {
    Life(id, Births(s.births, id))
  }

  ghost predicate Tracked(s: State) {
    && (forall id :: id in s.queue ==> Births(s.births, id) >= 1)
    && (forall t :: t in s.flights ==> t in s.issued)
    && (forall t :: t in s.issued ==> s.issued[t].id == t.id)
    && (forall t :: t in s.flights && s.flights[t].Delivered? ==> s.issued[t] in s.answered)
    && (forall t :: t in s.flights && s.flights[t].Reported? ==> s.issued[t] in s.reported)
  }

  /** A lease held is the last one issued for its delivery, and was issued for the life held. */
  ghost predicate LeasesTracked(s: State) {
    forall id, lease :: Leased(s.queue, id, lease) ==>
      Ticket(id, lease) in s.issued && s.issued[Ticket(id, lease)] == Held(s, id) &&
      id in s.latest && s.latest[id] == lease
  }

  /** **Nothing is lost**: every life inserted is still held, or was answered 2xx, or was reported given up. */
  ghost predicate Conserved(s: State) {
    forall id, n :: 1 <= n <= Births(s.births, id) ==>
      (id in s.queue && n == Births(s.births, id)) || Life(id, n) in s.answered || Life(id, n) in s.reported
  }

  ghost predicate Inv(s: State) {
    Tracked(s) && LeasesTracked(s) && Conserved(s)
  }

  lemma ClaimChanges(before: Deliveries, after: Deliveries, to: seq<string>, at: int, leaseUntil: int, limit: nat,
                     out: seq<Queued>, id: string)
    requires Claimed(before, after, to, at, leaseUntil, limit, out) && id in after
    ensures id in before
    ensures id !in IdsOf(out) ==> after[id] == before[id]
    ensures id in IdsOf(out) ==>
              before[id].due <= at && after[id].lease == Some(LeaseIn(out, id)) && after[id].due == leaseUntil
    ensures id in IdsOf(out) ==> exists one | one in out :: TicketOf(one) == Ticket(id, LeaseIn(out, id))
  {
    InIdsOf(out, id);
    if id in IdsOf(out) {
      var i :| 0 <= i < |out| && out[i].id == id;
      LeaseInIs(out, i);
      assert out[i] in out && TicketOf(out[i]) == Ticket(id, LeaseIn(out, id));
    }
  }

  lemma {:induction false} LeaseInIs(out: seq<Queued>, i: nat)
    requires i < |out| && forall j, k :: 0 <= j < k < |out| ==> out[j].id != out[k].id
    ensures LeaseIn(out, out[i].id) == out[i].lease
  {
    if i > 0 { LeaseInIs(out[1..], i - 1); }
  }

  lemma InsertKeepsInv(s: State, event: Event, endpoints: seq<string>, dueAt: int, s': State)
    requires Inv(s) && Next(s, Insert(event, endpoints, dueAt), s')
    ensures Inv(s')
  {
    forall id ensures (id in s.queue ==> id in s'.queue && s'.queue[id] == s.queue[id]) &&
                      (id in s'.queue && id !in s.queue ==> s'.queue[id].lease == None)
    {
      InsertKeeps(s.queue, event, endpoints, dueAt, id);
    }
    forall id
      ensures Births(s'.births, id) == Births(s.births, id) + (if id in s'.queue && id !in s.queue then 1 else 0)
    {
    }
  }

  /** What a claim leaves under each id, and the tickets it issues. */
  ghost predicate ClaimedInto(s: State, out: seq<Queued>, s': State) {
    && s' == Start(s, s'.queue, out)
    && (forall one :: one in out ==> TicketOf(one) !in s.issued)
    && s'.queue.Keys == s.queue.Keys
    && (forall id :: id in s.queue && id !in IdsOf(out) ==> s'.queue[id] == s.queue[id])
    && (forall id :: id in s.queue && id in IdsOf(out) ==>
          s'.queue[id].lease == Some(LeaseIn(out, id)) &&
          exists one | one in out :: TicketOf(one) == Ticket(id, LeaseIn(out, id)))
  }

  lemma ClaimInto(s: State, to: seq<string>, at: int, leaseUntil: int, limit: nat, out: seq<Queued>, s': State)
    requires Next(s, Claim(to, at, leaseUntil, limit, out), s')
    ensures ClaimedInto(s, out, s')
  {
    hide Claimed, Start;
    ClaimKeepsIds(s.queue, s'.queue, to, at, leaseUntil, limit, out);
    forall id | id in s.queue
      ensures id !in IdsOf(out) ==> s'.queue[id] == s.queue[id]
      ensures id in IdsOf(out) ==> s'.queue[id].lease == Some(LeaseIn(out, id)) &&
                                   exists one | one in out :: TicketOf(one) == Ticket(id, LeaseIn(out, id))
    {
      ClaimChanges(s.queue, s'.queue, to, at, leaseUntil, limit, out, id);
    }
    forall one | one in out ensures TicketOf(one) !in s.issued {
      var i :| 0 <= i < |out| && out[i] == one;
    }
  }

  lemma ClaimedParts(s: State, out: seq<Queued>, s': State)
    requires ClaimedInto(s, out, s')
    ensures s'.queue.Keys == s.queue.Keys && s' == Start(s, s'.queue, out)
    ensures forall one :: one in out ==> TicketOf(one) !in s.issued
  {
  }

  lemma ClaimKeepsTracked(s: State, out: seq<Queued>, s': State)
    requires Tracked(s) && s' == Start(s, s'.queue, out) && s'.queue.Keys == s.queue.Keys
    requires forall one :: one in out ==> TicketOf(one) !in s.issued
    ensures Tracked(s') && s'.births == s.births && s'.answered == s.answered && s'.reported == s.reported
  {
  }

  lemma ClaimKeepsLeases(s: State, out: seq<Queued>, s': State)
    requires Inv(s) && ClaimedInto(s, out, s')
    ensures LeasesTracked(s')
  {
    hide Conserved, Tracked;
    forall id, lease | Leased(s'.queue, id, lease)
      ensures Ticket(id, lease) in s'.issued && s'.issued[Ticket(id, lease)] == Held(s', id)
      ensures id in s'.latest && s'.latest[id] == lease
    {
      if id in IdsOf(out) {
        var one :| one in out && TicketOf(one) == Ticket(id, lease);
      } else {
        assert Leased(s.queue, id, lease);
        if one :| one in out && TicketOf(one) == Ticket(id, lease) { assert false; }
      }
    }
  }

  lemma ClaimKeepsInv(s: State, to: seq<string>, at: int, leaseUntil: int, limit: nat, out: seq<Queued>, s': State)
    requires Inv(s) && Next(s, Claim(to, at, leaseUntil, limit, out), s')
    ensures Inv(s')
  {
    hide ClaimedInto, Next, Tracked, LeasesTracked;
    ClaimInto(s, to, at, leaseUntil, limit, out, s');
    ClaimKeepsLeases(s, out, s');
    assert s'.queue.Keys == s.queue.Keys && Tracked(s') && Conserved(s') by {
      ClaimedParts(s, out, s');
      ClaimKeepsTracked(s, out, s');
    }
  }

  lemma ClaimKeepsIds(before: Deliveries, after: Deliveries, to: seq<string>, at: int, leaseUntil: int, limit: nat,
                      out: seq<Queued>)
    requires Claimed(before, after, to, at, leaseUntil, limit, out)
    ensures after.Keys == before.Keys
  {
  }

  lemma DeleteKeepsInv(s: State, t: Ticket, s': State)
    requires Inv(s) && Next(s, Delete(t), s')
    ensures Inv(s')
  {
  }

  /** A write under a lease: the lease may be released or its end moved, and nothing else is told apart. */
  lemma WriteKeepsInv(s: State, step: Step, s': State)
    requires Inv(s) && Next(s, step, s') && (step.Retry? || step.Extend? || step.Heartbeat?)
    ensures Inv(s')
  {
    WriteLeaves(s, step, s');
    hide Next, Tracked, LeasesTracked, Conserved, Leased;
    FewerLeases(s, s');
    MoreConserved(s, s');
  }

  /** What such a write leaves of the ids held, of their leases, and of what was recorded. */
  lemma WriteLeaves(s: State, step: Step, s': State)
    requires Tracked(s) && Next(s, step, s') && (step.Retry? || step.Extend? || step.Heartbeat?)
    ensures Tracked(s') && s'.queue.Keys == s.queue.Keys && s'.births == s.births
    ensures s'.issued == s.issued && s'.latest == s.latest && s'.answered == s.answered && s'.reported == s.reported
    ensures forall id, lease :: Leased(s'.queue, id, lease) ==> Leased(s.queue, id, lease)
  {
  }

  /** Leases released, and none taken. */
  lemma FewerLeases(s: State, s': State)
    requires LeasesTracked(s) && forall id, lease :: Leased(s'.queue, id, lease) ==> Leased(s.queue, id, lease)
    requires s'.births == s.births && s'.issued == s.issued && s'.latest == s.latest
    ensures LeasesTracked(s')
  {
  }

  /** A step of an attempt that does not touch the queue. */
  lemma AttemptKeepsInv(s: State, step: Step, s': State)
    requires Inv(s) && Next(s, step, s')
    requires step.Answer? || step.Fail? || step.Abandon? || step.Report? || step.Crash?
    ensures Inv(s')
  {
    hide LeasesTracked, Conserved;
    assert s'.queue == s.queue && s'.births == s.births && s'.issued == s.issued && s'.latest == s.latest;
    assert LeasesTracked(s') by { SameLeases(s, s'); }
    assert Conserved(s') by { MoreConserved(s, s'); }
  }

  lemma SameLeases(s: State, s': State)
    requires LeasesTracked(s)
    requires s'.queue == s.queue && s'.births == s.births && s'.issued == s.issued && s'.latest == s.latest
    ensures LeasesTracked(s')
  {
  }

  lemma MoreConserved(s: State, s': State)
    requires Conserved(s) && s'.queue.Keys == s.queue.Keys && s'.births == s.births
    requires s.answered <= s'.answered && s.reported <= s'.reported
    ensures Conserved(s')
  {
  }

  lemma StepKeepsInv(s: State, step: Step, s': State)
    requires Inv(s) && Next(s, step, s')
    ensures Inv(s')
  {
    hide Inv, Next;
    match step
    case Insert(event, endpoints, dueAt) => InsertKeepsInv(s, event, endpoints, dueAt, s');
    case Claim(to, at, leaseUntil, limit, out) => ClaimKeepsInv(s, to, at, leaseUntil, limit, out, s');
    case Delete(t) => DeleteKeepsInv(s, t, s');
    case Retry(t, retryAt) => WriteKeepsInv(s, step, s');
    case Extend(t, until) => WriteKeepsInv(s, step, s');
    case Heartbeat(t, until) => WriteKeepsInv(s, step, s');
    case Answer(t) => AttemptKeepsInv(s, step, s');
    case Fail(t, failure) => AttemptKeepsInv(s, step, s');
    case Abandon(t) => AttemptKeepsInv(s, step, s');
    case Report(t) => AttemptKeepsInv(s, step, s');
    case Crash(t) => AttemptKeepsInv(s, step, s');
  }

  /** **Over every interleaving, with crashes at any step, nothing is lost.** */
  lemma {:induction false} NothingIsLost(r: Run, i: nat)
    requires IsRun(r) && i < |r.states|
    ensures Inv(r.states[i])
  {
    if i > 0 {
      NothingIsLost(r, i - 1);
      StepKeepsInv(r.states[i - 1], r.steps[i - 1], r.states[i]);
    }
  }

  // ----- leases

  /** The steps that write under this ticket. */
  predicate WritesUnder(step: Step, t: Ticket) {
    match step
    case Retry(u, _) => u == t
    case Extend(u, _) => u == t
    case Heartbeat(u, _) => u == t
    case Delete(u) => u == t
    case _ => false
  }

  /** **Only the latest lease writes**: under any other, an extension, a retry and a removal change nothing. */
  lemma OnlyTheLatestWrites(r: Run, i: nat, t: Ticket)
    requires IsRun(r) && i < |r.steps| && WritesUnder(r.steps[i], t)
    requires t.id in r.states[i].latest && r.states[i].latest[t.id] != t.lease
    ensures r.states[i + 1].queue == r.states[i].queue
  {
    NothingIsLost(r, i);
  }

  /**
   * A step that neither writes under the lease held, nor claims as of its end or
   * later, leaves the delivery as it is.
   */
  lemma LeaseHides(s: State, step: Step, s': State, id: string, lease: string)
    requires Inv(s) && Next(s, step, s') && Leased(s.queue, id, lease)
    requires !WritesUnder(step, Ticket(id, lease)) && (step.Claim? ==> step.at < s.queue[id].due)
    ensures id in s'.queue && s'.queue[id] == s.queue[id]
    ensures step.Claim? ==> id !in IdsOf(step.out)
  {
    match step
    case Insert(event, endpoints, dueAt) => InsertKeeps(s.queue, event, endpoints, dueAt, id);
    case Claim(to, at, leaseUntil, limit, out) =>
      ClaimKeepsIds(s.queue, s'.queue, to, at, leaseUntil, limit, out);
      ClaimChanges(s.queue, s'.queue, to, at, leaseUntil, limit, out, id);
    case _ =>
  }

  /**
   * **No claim answers a delivery before its lease ends**: from a state where
   * the lease is held, over any steps of any workers but its holder's writes,
   * while every claim is as of an instant before the end.
   */
  lemma {:induction false} LeaseHidesOverRuns(r: Run, i: nat, j: nat, id: string, lease: string)
    requires IsRun(r) && i <= j < |r.states| && Leased(r.states[i].queue, id, lease)
    requires forall k :: i <= k < j ==> !WritesUnder(r.steps[k], Ticket(id, lease))
    requires forall k :: i <= k < j && r.steps[k].Claim? ==> r.steps[k].at < r.states[i].queue[id].due
    ensures id in r.states[j].queue && r.states[j].queue[id] == r.states[i].queue[id]
    ensures forall k :: i <= k < j && r.steps[k].Claim? ==> id !in IdsOf(r.steps[k].out)
    decreases j - i
  {
    if i < j {
      assert Next(r.states[j - 1], r.steps[j - 1], r.states[j]);
      hide Inv, Next;
      LeaseHidesOverRuns(r, i, j - 1, id, lease);
      NothingIsLost(r, j - 1);
      LeaseHides(r.states[j - 1], r.steps[j - 1], r.states[j], id, lease);
    }
  }

  /** A delivery leaves the queue only by a removal under its lease, once it was answered or reported. */
  lemma RemovalWasEarned(r: Run, i: nat, id: string)
    requires IsRun(r) && i < |r.steps| && id in r.states[i].queue && id !in r.states[i + 1].queue
    ensures r.steps[i].Delete? && Leased(r.states[i].queue, id, r.steps[i].t.lease)
    ensures Held(r.states[i], id) in r.states[i].answered + r.states[i].reported
  {
    NothingIsLost(r, i);
    var s, s', step := r.states[i], r.states[i + 1], r.steps[i];
    match step
    case Insert(event, endpoints, dueAt) => InsertKeeps(s.queue, event, endpoints, dueAt, id);
    case Claim(to, at, leaseUntil, limit, out) => ClaimKeepsIds(s.queue, s'.queue, to, at, leaseUntil, limit, out);
    case _ =>
  }
}
