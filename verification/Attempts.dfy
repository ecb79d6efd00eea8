/**
 * What becomes of each attempt: how many claims a delivery has had, what a
 * sender decides by that number, and that it reports under a lease held.
 */
module Attempts {
  import opened Std
  import opened Queue
  import opened Workers

  // ----- how many claims

  /** Whether the `i`-th step of the run is a claim that answers this life. */
  ghost predicate ClaimsLife(r: Run, i: nat, life: Life)
    requires i < |r.steps| && i < |r.states|
  {
    r.steps[i].Claim? && life == Workers.Held(r.states[i], life.id) &&
    exists k :: 0 <= k < |r.steps[i].out| && r.steps[i].out[k].id == life.id
  }

  /** How many of the first `n` steps are claims that answered this life. */
  ghost function Claims(r: Run, n: nat, life: Life): nat
    requires n <= |r.steps| && n <= |r.states|
  {
    if n == 0 then 0 else Claims(r, n - 1, life) + if ClaimsLife(r, n - 1, life) then 1 else 0
  }

  /** A step and the number of attempts: a claim that answers adds one, a birth begins at none. */
  lemma StepCounts(s: State, step: Step, s': State, id: string)
    requires Inv(s) && Next(s, step, s') && id in s'.queue
    ensures id in s.queue ==> Workers.Held(s', id) == Workers.Held(s, id)
    ensures id !in s.queue ==> s'.queue[id].attempts == 0 && Births(s'.births, id) == Births(s.births, id) + 1
    ensures id in s.queue && step.Claim? && (exists k :: 0 <= k < |step.out| && step.out[k].id == id) ==>
              s'.queue[id].attempts == s.queue[id].attempts + 1
    ensures id in s.queue && !(step.Claim? && exists k :: 0 <= k < |step.out| && step.out[k].id == id) ==>
              s'.queue[id].attempts == s.queue[id].attempts
  {
    hide Inv;
    match step
    case Insert(event, endpoints, dueAt) => InsertKeeps(s.queue, event, endpoints, dueAt, id);
    case Claim(to, at, leaseUntil, limit, out) =>
      ClaimKeepsIds(s.queue, s'.queue, to, at, leaseUntil, limit, out);
      ClaimLeaves(s.queue, s'.queue, to, at, leaseUntil, limit, out, id);
      if k :| 0 <= k < |out| && out[k].id == id {
        ClaimIs(s.queue, s'.queue, to, at, leaseUntil, limit, out, k);
      }
    case _ =>
  }

  lemma BirthsOnlyRise(s: State, step: Step, s': State, id: string)
    requires Next(s, step, s')
    ensures Births(s.births, id) <= Births(s'.births, id)
  {
  }

  /** A life not begun yet was answered to no claim. */
  lemma {:induction false} UnbornUnclaimed(r: Run, n: nat, life: Life)
    requires IsRun(r) && n < |r.states| && life.n > Births(r.states[n].births, life.id)
    ensures Claims(r, n, life) == 0
  {
    if n > 0 {
      assert Next(r.states[n - 1], r.steps[n - 1], r.states[n]);
      BirthsOnlyRise(r.states[n - 1], r.steps[n - 1], r.states[n], life.id);
      hide Next;
      UnbornUnclaimed(r, n - 1, life);
    }
  }

  /** **A delivery's attempts are the claims that answered its present life**, over every run. */
  lemma {:induction false} AttemptsAreClaims(r: Run, n: nat, id: string)
    requires IsRun(r) && n < |r.states| && id in r.states[n].queue
    ensures r.states[n].queue[id].attempts == Claims(r, n, Workers.Held(r.states[n], id))
  {
    if n > 0 {
      var s, s' := r.states[n - 1], r.states[n];
      assert Next(s, r.steps[n - 1], s');
      NothingIsLost(r, n - 1);
      StepCounts(s, r.steps[n - 1], s', id);
      hide Next, Inv;
      if id in s.queue {
        AttemptsAreClaims(r, n - 1, id);
      } else {
        UnbornUnclaimed(r, n - 1, Workers.Held(s', id));
      }
    }
  }

  // ----- reports

  /** Before the `i`-th state, `t` extended its lease to report, and held it. */
  ghost predicate ExtendedBefore(r: Run, i: nat, t: Ticket)
    requires i < |r.states| == |r.steps| + 1
  {
    exists j :: 0 <= j < i && r.steps[j].Extend? && r.steps[j].t == t && Leased(r.states[j].queue, t.id, t.lease)
  }

  lemma {:induction false} ReportingWasLeased(r: Run, i: nat, t: Ticket)
    requires IsRun(r) && i < |r.states| && t in r.states[i].flights && r.states[i].flights[t].Reporting?
    ensures ExtendedBefore(r, i, t)
  {
    if i > 0 {
      var s, step := r.states[i - 1], r.steps[i - 1];
      assert Next(s, step, r.states[i]);
      if t in s.flights && s.flights[t].Reporting? {
        ReportingWasLeased(r, i - 1, t);
      } else {
        ReportingBegins(s, step, r.states[i], t);
      }
    }
  }

  lemma ReportingBegins(s: State, step: Step, s': State, t: Ticket)
    requires Next(s, step, s') && t in s'.flights && s'.flights[t].Reporting?
    requires !(t in s.flights && s.flights[t].Reporting?)
    ensures step.Extend? && step.t == t && Leased(s.queue, t.id, t.lease)
  {
  }

  /** **Nothing is reported given up but after an extension of the lease that was still held.** */
  lemma ReportedUnderLease(r: Run, i: nat)
    requires IsRun(r) && i < |r.steps| && r.steps[i].Report?
    ensures ExtendedBefore(r, i, r.steps[i].t)
  {
    assert Next(r.states[i], r.steps[i], r.states[i + 1]);
    ReportingWasLeased(r, i, r.steps[i].t);
  }

  lemma RunStep(r: Run, i: nat)
    requires IsRun(r) && i + 1 < |r.states|
    ensures i < |r.steps| && Next(r.states[i], r.steps[i], r.states[i + 1])
  {
  }

  /** **An attempt over is over**: no later step is of its ticket. */
  lemma {:induction false} EndedForGood(r: Run, i: nat, j: nat, t: Ticket)
    requires IsRun(r) && i <= j < |r.states| && t in r.states[i].issued && t !in r.states[i].flights
    ensures t in r.states[j].issued && t !in r.states[j].flights
    decreases j
  {
    hide IsRun, Next;
    if i < j {
      RunStep(r, j - 1);
      EndedForGood(r, i, j - 1, t);
      StaysEnded(r.states[j - 1], r.steps[j - 1], r.states[j], t);
    }
  }

  lemma StaysEnded(s: State, step: Step, s': State, t: Ticket)
    requires Next(s, step, s') && t in s.issued && t !in s.flights
    ensures t in s'.issued && t !in s'.flights
  {
    if step.Claim? {
      forall one | one in step.out ensures TicketOf(one) !in s.issued {
        var i :| 0 <= i < |step.out| && step.out[i] == one;
      }
    }
  }

  /** A step of an attempt, of this ticket. */
  predicate IsOf(step: Step, t: Ticket) {
    !step.Insert? && !step.Claim? && step.t == t
  }

  /** **Nothing follows a retry, a removal or an extension refused**: the attempt does and writes nothing more. */
  lemma NothingAfterTheEnd(r: Run, i: nat, j: nat, t: Ticket)
    requires IsRun(r) && i < j < |r.steps| && IsOf(r.steps[i], t)
    requires r.steps[i].Retry? || r.steps[i].Delete? || r.steps[i].Crash? ||
             (r.steps[i].Extend? && !Leased(r.states[i].queue, t.id, t.lease))
    ensures !IsOf(r.steps[j], t)
  {
    hide IsRun, Next, Inv;
    RunShape(r);
    NothingIsLost(r, i);
    RunStep(r, i);
    EndsIt(r.states[i], r.steps[i], r.states[i + 1], t);
    EndedForGood(r, i + 1, j, t);
    RunStep(r, j);
    if IsOf(r.steps[j], t) { OnlyOfFlights(r.states[j], r.steps[j], r.states[j + 1], t); }
  }

  lemma RunShape(r: Run)
    requires IsRun(r)
    ensures |r.states| == |r.steps| + 1
  {
  }

  lemma EndsIt(s: State, step: Step, s': State, t: Ticket)
    requires Inv(s) && Next(s, step, s') && IsOf(step, t)
    requires step.Retry? || step.Delete? || step.Crash? || (step.Extend? && !Leased(s.queue, t.id, t.lease))
    ensures t in s'.issued && t !in s'.flights
  {
  }

  lemma OnlyOfFlights(s: State, step: Step, s': State, t: Ticket)
    requires Next(s, step, s') && IsOf(step, t)
    ensures t in s.flights
  {
  }

  /** No attempt is both delivered and reported, nor either twice: each step of one leads on. */
  function Stage(phase: Phase): nat {
    match phase
    case Started => 0
    case Delivered => 5
    case Failing(_) => 1
    case GivingUp => 2
    case Reporting => 3
    case Reported => 4
  }

  /** **An attempt only moves on**: no phase comes back, and what was delivered is not given up. */
  lemma OnlyMovesOn(s: State, step: Step, s': State, t: Ticket)
    requires Next(s, step, s') && t in s.flights && t in s.issued && t in s'.flights
    ensures s'.flights[t] == s.flights[t] || Stage(s.flights[t]) < Stage(s'.flights[t])
    ensures s'.flights[t].Delivered? ==> s.flights[t].Delivered? || s.flights[t].Started?
  {
    if step.Claim? {
      forall one | one in step.out ensures TicketOf(one) != t {
        var i :| 0 <= i < |step.out| && step.out[i] == one;
      }
    }
  }

  // ----- what a sender decides

  datatype Why = RetriesRanOut | Closed | EndpointRemoved

  datatype Decision = Deliver | RetryAt(at: int) | GiveUp(why: Why, attempts: int)

  /**
   * What becomes of a delivery claimed for the `attempts`-th time: `target` is
   * whether its endpoint is still configured, `failed` what the request got,
   * and `retries` whether a failure may still wait.
   */
  function Decide(delays: seq<nat>, attempts: nat, target: bool, failed: Option<Failure>, retries: bool, now: int)
    : Decision
    requires attempts >= 1
  {
    if !target then GiveUp(EndpointRemoved, attempts - 1)
    else if failed.None? then Deliver
    else if attempts - 1 >= |delays| then GiveUp(RetriesRanOut, attempts)
    else if !retries then GiveUp(Closed, attempts)
    else RetryAt(now + delays[attempts - 1])
  }

  /** When each is decided, and what a report says: the requests made, this claim left out when it made none. */
  lemma DecideIs(delays: seq<nat>, attempts: nat, target: bool, failed: Option<Failure>, retries: bool, now: int)
    requires attempts >= 1
    ensures var d := Decide(delays, attempts, target, failed, retries, now);
            && (d.Deliver? <==> target && failed.None?)
            && (d.RetryAt? <==> target && failed.Some? && retries && attempts <= |delays|)
            && (d.RetryAt? ==> d.at - now == delays[attempts - 1])
            && (d.GiveUp? ==> d.attempts == attempts - (if target then 0 else 1))
            && (d.GiveUp? ==> (d.why.EndpointRemoved? <==> !target))
            && (d.GiveUp? && target ==> (d.why.RetriesRanOut? <==> attempts > |delays|))
  {
  }

  /** The number a ticket's claim answered. */
  ghost predicate ClaimedAs(r: Run, i: nat, t: Ticket, attempts: nat)
    requires i <= |r.steps|
  {
    exists j, k :: 0 <= j < i && r.steps[j].Claim? && 0 <= k < |r.steps[j].out| &&
      TicketOf(r.steps[j].out[k]) == t && r.steps[j].out[k].attempts == attempts
  }

  /**
   * A run whose senders decide as they do, at the instants of `clock` and
   * while `retries` says a failure may wait: it is scheduled again, or given
   * up, as decided by the number its claim answered.
   */
  ghost predicate Decided(delays: seq<nat>, r: Run, clock: seq<int>, retries: seq<bool>) {
    |clock| == |retries| == |r.steps| && |r.states| == |r.steps| + 1 &&
    forall i :: 0 <= i < |r.steps| && FailureEnds(r, i) ==> EndsAsDecided(delays, r, clock, retries, i)
  }

  /** A failed attempt is scheduled again, or given up. */
  predicate FailureEnds(r: Run, i: nat)
    requires i < |r.steps| && i < |r.states|
  {
    var flights := r.states[i].flights;
    match r.steps[i]
    case Retry(t, _) => true
    case Abandon(t) => t in flights && flights[t].Failing?
    case _ => false
  }

  ghost predicate EndsAsDecided(delays: seq<nat>, r: Run, clock: seq<int>, retries: seq<bool>, i: nat)
    requires i < |clock| == |retries| == |r.steps| && i < |r.states| && FailureEnds(r, i)
  {
    exists attempts: nat, failure :: attempts >= 1 && ClaimedAs(r, i, r.steps[i].t, attempts) &&
      match Decide(delays, attempts, true, Some(failure), retries[i], clock[i])
      case RetryAt(at) => r.steps[i].Retry? && r.steps[i].retryAt == at
      case GiveUp(_, _) => r.steps[i].Abandon?
      case Deliver => false
  }

  /** A ticket a claim answered stays issued. */
  lemma {:induction false} ClaimedIsIssued(r: Run, i: nat, j: nat, k: nat)
    requires IsRun(r) && j < i < |r.states| && r.steps[j].Claim? && k < |r.steps[j].out|
    ensures TicketOf(r.steps[j].out[k]) in r.states[i].issued
    decreases i
  {
    var s, step, s' := r.states[i - 1], r.steps[i - 1], r.states[i];
    assert Next(s, step, s');
    if j < i - 1 {
      ClaimedIsIssued(r, i - 1, j, k);
      IssuedStays(s, step, s', TicketOf(r.steps[j].out[k]));
    } else {
      IssuedByClaim(s, step, s', k);
    }
  }

  lemma IssuedStays(s: State, step: Step, s': State, t: Ticket)
    requires Next(s, step, s') && t in s.issued
    ensures t in s'.issued
  {
  }

  lemma IssuedByClaim(s: State, step: Step, s': State, k: nat)
    requires Next(s, step, s') && step.Claim? && k < |step.out|
    ensures TicketOf(step.out[k]) !in s.issued && TicketOf(step.out[k]) in s'.issued
  {
    assert step.out[k] in step.out;
  }

  /** A lease held was held before, or comes of a claim that answers it. */
  lemma LeaseComesOf(s: State, step: Step, s': State, t: Ticket)
    requires Inv(s) && Next(s, step, s') && Leased(s'.queue, t.id, t.lease)
    ensures t.id in s.queue
    ensures Leased(s.queue, t.id, t.lease) ==> s'.queue[t.id].attempts == s.queue[t.id].attempts
    ensures !Leased(s.queue, t.id, t.lease) ==>
              step.Claim? &&
              exists k :: 0 <= k < |step.out| && TicketOf(step.out[k]) == t &&
                          step.out[k].attempts == s'.queue[t.id].attempts
  {
    match step
    case Insert(event, endpoints, dueAt) => InsertKeeps(s.queue, event, endpoints, dueAt, t.id);
    case Claim(to, at, leaseUntil, limit, out) =>
      ClaimKeepsIds(s.queue, s'.queue, to, at, leaseUntil, limit, out);
      ClaimLeaves(s.queue, s'.queue, to, at, leaseUntil, limit, out, t.id);
      if k :| 0 <= k < |out| && out[k].id == t.id {
        ClaimIs(s.queue, s'.queue, to, at, leaseUntil, limit, out, k);
        IssuedByClaim(s, step, s', k);
        assert TicketOf(out[k]) == t;
      }
    case _ =>
  }

  /** **While its lease is held, a delivery's attempts are the number its claim answered.** */
  lemma {:induction false} HeldAsClaimed(r: Run, i: nat, t: Ticket, attempts: nat)
    requires IsRun(r) && i < |r.states| && i <= |r.steps|
    requires Leased(r.states[i].queue, t.id, t.lease) && ClaimedAs(r, i, t, attempts)
    ensures r.states[i].queue[t.id].attempts == attempts
  {
    hide IsRun, Next, Inv;
    var j: nat, k: nat :| j < i && r.steps[j].Claim? && k < |r.steps[j].out| &&
      TicketOf(r.steps[j].out[k]) == t && r.steps[j].out[k].attempts == attempts;
    RunStep(r, i - 1);
    var s, step, s' := r.states[i - 1], r.steps[i - 1], r.states[i];
    NothingIsLost(r, i - 1);
    LeaseComesOf(s, step, s', t);
    if Leased(s.queue, t.id, t.lease) {
      if j == i - 1 { NotIssuedAgain(s, step, s', k); }
      assert j < i - 1;
      HeldAsClaimed(r, i - 1, t, attempts);
    } else {
      var k': nat :| k' < |step.out| && TicketOf(step.out[k']) == t &&
        step.out[k'].attempts == s'.queue[t.id].attempts;
      if j < i - 1 {
        ClaimedIsIssued(r, i - 1, j, k);
        NotIssuedAgain(s, step, s', k');
      }
      OneAnswerEach(s, step, s', k, k');
    }
  }

  /** A claim issues no ticket again, nor one of a lease held. */
  lemma NotIssuedAgain(s: State, step: Step, s': State, k: nat)
    requires Inv(s) && Next(s, step, s') && step.Claim? && k < |step.out|
    ensures TicketOf(step.out[k]) !in s.issued && !Leased(s.queue, step.out[k].id, step.out[k].lease)
  {
    IssuedByClaim(s, step, s', k);
  }

  lemma OneAnswerEach(s: State, step: Step, s': State, k: nat, k': nat)
    requires Next(s, step, s') && step.Claim? && k < |step.out| && k' < |step.out| && step.out[k].id == step.out[k'].id
    ensures k == k'
  {
  }

  lemma EndsBy(delays: seq<nat>, r: Run, clock: seq<int>, retries: seq<bool>, i: nat) returns (k: nat)
    requires Decided(delays, r, clock, retries) && i < |r.steps| && FailureEnds(r, i)
    ensures |r.states| == |r.steps| + 1 && k >= 1 && ClaimedAs(r, i, r.steps[i].t, k)
    ensures r.steps[i].Retry? ==> k <= |delays| && r.steps[i].retryAt == clock[i] + delays[k - 1]
    ensures r.steps[i].Abandon? ==> k > |delays| || !retries[i]
  {
    assert EndsAsDecided(delays, r, clock, retries, i);
    hide ClaimedAs;
    var failure;
    k, failure :| k >= 1 && ClaimedAs(r, i, r.steps[i].t, k) &&
      match Decide(delays, k, true, Some(failure), retries[i], clock[i])
      case RetryAt(at) => r.steps[i].Retry? && r.steps[i].retryAt == at
      case GiveUp(_, _) => r.steps[i].Abandon?
      case Deliver => false;
  }

  /** The claims a life has had, while the attempt that failed still holds its lease. */
  lemma FailedAsCounted(delays: seq<nat>, r: Run, clock: seq<int>, retries: seq<bool>, i: nat) returns (k: nat)
    requires IsRun(r) && Decided(delays, r, clock, retries) && i < |r.steps| && FailureEnds(r, i)
    requires Leased(r.states[i].queue, r.steps[i].t.id, r.steps[i].t.lease)
    ensures |r.states| == |r.steps| + 1 && k == Claims(r, i, Workers.Held(r.states[i], r.steps[i].t.id)) >= 1
    ensures r.steps[i].Retry? ==> k <= |delays| && r.steps[i].retryAt == clock[i] + delays[k - 1]
    ensures r.steps[i].Abandon? ==> k > |delays| || !retries[i]
  {
    hide IsRun, Decided, Claims, ClaimedAs;
    k := EndsBy(delays, r, clock, retries, i);
    HeldAsClaimed(r, i, r.steps[i].t, k);
    AttemptsAreClaims(r, i, r.steps[i].t.id);
  }

  lemma RetryStep(s: State, t: Ticket, retryAt: int, s': State)
    requires Next(s, Retry(t, retryAt), s') && Leased(s.queue, t.id, t.lease)
    ensures t.id in s'.queue && s'.queue[t.id].due == retryAt && s'.queue[t.id].lease.None?
  {
    RetryIs(s.queue, t.id, t.lease, retryAt, s.flights[t].failure);
  }

  /**
   * **The k-th failure of a delivery waits the k-th delay**: a retry that takes
   * effect is scheduled that long after the attempt ended, `k` being the claims
   * its present life has had, and there is none past the last delay.
   */
  lemma KthFailureKthDelay(delays: seq<nat>, r: Run, clock: seq<int>, retries: seq<bool>, i: nat)
    requires IsRun(r) && Decided(delays, r, clock, retries) && i < |r.steps| && r.steps[i].Retry?
    requires Leased(r.states[i].queue, r.steps[i].t.id, r.steps[i].t.lease)
    ensures var id := r.steps[i].t.id;
            var k := Claims(r, i, Workers.Held(r.states[i], id));
            && 1 <= k <= |delays| && id in r.states[i + 1].queue
            && r.states[i + 1].queue[id].due == clock[i] + delays[k - 1] && r.states[i + 1].queue[id].lease.None?
  {
    hide IsRun, Decided, Claims, Next;
    var k := FailedAsCounted(delays, r, clock, retries, i);
    RunStep(r, i);
    RetryStep(r.states[i], r.steps[i].t, r.steps[i].retryAt, r.states[i + 1]);
  }

  /** **While a failure may wait, it is given up only once every delay was used.** */
  lemma GivenUpAfterEveryDelay(delays: seq<nat>, r: Run, clock: seq<int>, retries: seq<bool>, i: nat)
    requires IsRun(r) && Decided(delays, r, clock, retries) && i < |r.steps| && r.steps[i].Abandon?
    requires FailureEnds(r, i) && retries[i] && Leased(r.states[i].queue, r.steps[i].t.id, r.steps[i].t.lease)
    ensures Claims(r, i, Workers.Held(r.states[i], r.steps[i].t.id)) > |delays|
  {
    hide IsRun, Decided, Claims;
    var k := FailedAsCounted(delays, r, clock, retries, i);
  }

  /** **A delivery waiting, not leased, has been tried no more often than there are delays.** */
  lemma WaitingHasARetryLeft(delays: seq<nat>, r: Run, clock: seq<int>, retries: seq<bool>, n: nat, id: string)
    requires IsRun(r) && Decided(delays, r, clock, retries) && n < |r.states|
    requires id in r.states[n].queue && r.states[n].queue[id].lease.None?
    ensures Claims(r, n, Workers.Held(r.states[n], id)) <= |delays|
  {
    AttemptsAreClaims(r, n, id);
    WaitingWasTriedLess(delays, r, clock, retries, n, id);
  }

  lemma {:induction false} WaitingWasTriedLess(delays: seq<nat>, r: Run, clock: seq<int>, retries: seq<bool>, n: nat,
                                               id: string)
    requires IsRun(r) && Decided(delays, r, clock, retries) && n < |r.states|
    requires id in r.states[n].queue && r.states[n].queue[id].lease.None?
    ensures r.states[n].queue[id].attempts <= |delays|
  {
    if n > 0 {
      var s, step, s' := r.states[n - 1], r.steps[n - 1], r.states[n];
      assert Next(s, step, s');
      hide Next, Inv, Decided, Claims, Births;
      NothingIsLost(r, n - 1);
      FreedByRetry(s, step, s', id);
      if id in s.queue && s.queue[id].lease.None? {
        WaitingWasTriedLess(delays, r, clock, retries, n - 1, id);
      } else if id in s.queue {
        KthFailureKthDelay(delays, r, clock, retries, n - 1);
        AttemptsAreClaims(r, n - 1, id);
      }
    }
  }

  /** A delivery not leased was not before either, or is new, or a retry under its lease freed it. */
  lemma FreedByRetry(s: State, step: Step, s': State, id: string)
    requires Inv(s) && Next(s, step, s') && id in s'.queue && s'.queue[id].lease.None?
    ensures id !in s.queue ==> s'.queue[id].attempts == 0
    ensures id in s.queue ==> s'.queue[id].attempts == s.queue[id].attempts
    ensures id in s.queue && s.queue[id].lease.Some? ==>
              step.Retry? && step.t.id == id && Leased(s.queue, id, step.t.lease)
  {
    match step
    case Insert(event, endpoints, dueAt) => InsertKeeps(s.queue, event, endpoints, dueAt, id);
    case Claim(to, at, leaseUntil, limit, out) =>
      ClaimKeepsIds(s.queue, s'.queue, to, at, leaseUntil, limit, out);
      ClaimLeaves(s.queue, s'.queue, to, at, leaseUntil, limit, out, id);
      if k :| 0 <= k < |out| && out[k].id == id {
        ClaimIs(s.queue, s'.queue, to, at, leaseUntil, limit, out, k);
      }
    case _ =>
  }
}
