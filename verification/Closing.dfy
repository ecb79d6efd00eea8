/**
 * One worker without a queue of the caller's: the pump that claims up to the
 * free slots, the attempts in flight, and the steps of `close()`, each a step
 * between which any other may run.
 */
module Closing {
  import opened Std
  import Earliest
  import opened Queue
  import W = Workers

  /** The greatest time value of a `Date`: nothing is due later. */
  const END_OF_TIME: int := 8_640_000_000_000_000
  const MAX_SAFE_INTEGER: nat := 9_007_199_254_740_991

  datatype Settings = Settings(concurrency: nat, keys: seq<string>)

  /** Where the pump under way has got to. Clearing `pumping` is a step after the loop ended. */
  datatype Pump = Idle | Run | Wait(batch: set<W.Ticket>, free: nat) | Check(full: bool) | Leaving

  /** Where `close()` has got to. `woke`: the flush has woken the pump since it held the clock. */
  datatype Close = Open | Settling | Flushing(woke: bool) | Stopping | Finishing | Draining | Resolved

  /**
   * An accept inserts, wakes the pump, then settles. A wake between the pump's
   * loop ending and `pumping` being cleared is missed, and its accept settles
   * only once `pumping` is cleared, which was queued before.
   */
  datatype System = System(w: W.State, pump: Pump, again: bool, claimedNothing: bool, inserted: nat, missed: nat,
                           woken: nat, clock: int, heldAt: Option<int>, close: Close)

  const INITIAL := System(W.EMPTY, Idle, false, true, 0, 0, 0, 0, None, Open)

  datatype Move =
    | Tick(instant: int)
    | Accept(event: Event, endpoints: seq<string>)
    | AcceptWakes
    | AcceptSettles
    | Wake
    | PumpFull
    | PumpClaims(now: int, to: seq<string>, leaseUntil: int, out: seq<Queued>)
    | PumpStarts
    | PumpChecks
    | PumpEnds
    | Attempt(step: W.Step)
    | CloseBegins
    | InsertsSettled
    | FlushWakes
    | FlushReturns
    | PumpStopped
    | FlightsSettled(out: seq<Queued>, claimed: W.State)
    | DrainSettled

  predicate Stopped(c: Close) {
    c.Stopping? || c.Finishing? || c.Draining? || c.Resolved?
  }

  /** The attempts whose request may be under way: claimed, and started by the pump. */
  function InFlight(s: System): set<W.Ticket> {
    if s.pump.Wait? then s.w.flights.Keys - s.pump.batch else s.w.flights.Keys
  }

  /** The ticket a step of an attempt is of, and whether an attempt may take it now. */
  ghost predicate MayTake(s: System, step: W.Step) {
    match step
    case Answer(t) => t in InFlight(s)
    case Fail(t, _) => t in InFlight(s)
    // Once closing, a failed attempt is not put back.
    case Retry(t, at) => t in InFlight(s) && s.close.Open? && at <= END_OF_TIME
    case Abandon(t) => t in InFlight(s)
    case Extend(t, until) => t in InFlight(s) && until <= END_OF_TIME
    case Heartbeat(t, until) => t in InFlight(s) && until <= END_OF_TIME
    case Report(t) => t in InFlight(s)
    case Delete(t) => t in InFlight(s)
    // An attempt too broken to be handled; a drain that breaks never resolves.
    case Crash(t) => t in InFlight(s) && !s.close.Draining?
    case Insert(_, _, _) => false
    case Claim(_, _, _, _, _) => false
  }

  /** The same keys, from a rotated start. */
  ghost predicate Rotates(keys: seq<string>, to: seq<string>) {
    exists first :: 0 <= first <= |keys| && to == keys[first..] + keys[..first]
  }

  ghost predicate Next(c: Settings, s: System, move: Move, s': System) {
    match move
    case Tick(instant) =>
      s.clock <= instant <= END_OF_TIME && s' == s.(clock := instant)
    case Accept(event, endpoints) =>
      // The listener accepts nothing once close() was called.
      && s.close.Open? && (forall e :: e in endpoints ==> e in c.keys)
      && W.Next(s.w, W.Insert(event, endpoints, s.clock), s'.w)
      && s' == s.(w := s'.w, inserted := s.inserted + 1)
    case AcceptWakes =>
      s.inserted > 0 &&
      s' == if s.pump.Leaving? then Woken(s).(inserted := s.inserted - 1, missed := s.missed + 1)
            else Woken(s).(inserted := s.inserted - 1, woken := s.woken + 1)
    case AcceptSettles =>
      s.woken > 0 && s' == s.(woken := s.woken - 1)
    case Wake =>
      s' == Woken(s)
    case PumpFull =>
      s.pump.Run? && c.concurrency <= |InFlight(s)| && s' == s.(pump := Check(false), again := false)
    case PumpClaims(now, to, leaseUntil, out) =>
      && s.pump.Run? && |InFlight(s)| < c.concurrency
      && (if s.heldAt.Some? then now == s.heldAt.value else s.clock <= now)
      && leaseUntil <= END_OF_TIME && Rotates(c.keys, to)
      && W.Next(s.w, W.Claim(to, now, leaseUntil, c.concurrency - |InFlight(s)|, out), s'.w)
      && s' == s.(w := s'.w, again := false, claimedNothing := out == [],
                  pump := Wait(W.Tickets(out), c.concurrency - |InFlight(s)|))
    case PumpStarts =>
      s.pump.Wait? && s' == s.(pump := Check(|s.pump.batch| >= s.pump.free))
    case PumpChecks =>
      s.pump.Check? && s' == s.(pump := if Stopped(s.close) || !(s.pump.full || s.again) then Leaving else Run)
    case PumpEnds =>
      s.pump.Leaving? && s' == s.(pump := Idle, missed := 0, woken := s.woken + s.missed)
    case Attempt(step) =>
      MayTake(s, step) && W.Next(s.w, step, s'.w) && s' == s.(w := s'.w)
    case CloseBegins =>
      s.close.Open? && s' == s.(close := Settling)
    case InsertsSettled =>
      s.close.Settling? && Accepting(s) == 0 && s' == s.(close := Flushing(false), heldAt := Some(s.clock))
    case FlushWakes =>
      s.close.Flushing? && s' == Woken(s).(close := Flushing(true))
    case FlushReturns =>
      s.close == Flushing(true) && s.pump.Idle? && s.claimedNothing && InFlight(s) == {} && s' == s.(close := Stopping)
    case PumpStopped =>
      s.close.Stopping? && s.pump.Idle? && s' == s.(close := Finishing)
    case FlightsSettled(out, claimed) =>
      // Every delivery still waiting is claimed and given up, without an attempt.
      && s.close.Finishing? && InFlight(s) == {}
      && W.Next(s.w, W.Claim(c.keys, END_OF_TIME, END_OF_TIME, MAX_SAFE_INTEGER, out), claimed)
      && s' == s.(w := GiveAllUp(claimed), close := Draining)
    case DrainSettled =>
      s.close.Draining? && s.w.flights == map[] && s' == s.(close := Resolved)
  }

  /** The accepts under way. */
  function Accepting(s: System): nat {
    s.inserted + s.missed + s.woken
  }

  /** A wake starts a pump, or has the one under way run once more; once stopped, neither. */
  function Woken(s: System): System {
    if Stopped(s.close) then s else if s.pump.Idle? then s.(pump := Run) else s.(again := true)
  }

  /** What the drain claims is given up without being sent. */
  function GiveAllUp(w: W.State): W.State {
    w.(flights := map t | t in w.flights :: W.GivingUp)
  }

  datatype Trace = Trace(states: seq<System>, moves: seq<Move>)

  ghost predicate IsTrace(c: Settings, r: Trace) {
    |r.states| == |r.moves| + 1 && r.states[0] == INITIAL &&
    forall i :: 0 <= i < |r.moves| ==> Next(c, r.states[i], r.moves[i], r.states[i + 1])
  }

  // ----- what every move keeps

  /** Every delivery held is of a configured endpoint, and falls due at an instant a `Date` holds. */
  ghost predicate Reachable(c: Settings, queue: Deliveries) {
    forall id :: id in queue ==> queue[id].endpoint in c.keys && queue[id].due <= END_OF_TIME
  }

  predicate Ending(phase: W.Phase) {
    phase.GivingUp? || phase.Reporting? || phase.Reported?
  }

  /** While draining, every delivery left is being given up under the lease it holds, and nothing else is under way. */
  ghost predicate GivenUp(w: W.State) {
    && (forall id :: id in w.queue ==> w.queue[id].lease.Some? && W.Ticket(id, w.queue[id].lease.value) in w.flights)
    && (forall t :: t in w.flights ==> Ending(w.flights[t]))
  }

  /** The pump's batch is claimed and not started; slots are never overfilled before the drain. */
  ghost predicate Slots(c: Settings, s: System) {
    && (s.pump.Wait? ==> s.pump.batch <= s.w.flights.Keys && forall t :: t in s.pump.batch ==> s.w.flights[t].Started?)
    && (!s.close.Draining? && !s.close.Resolved? ==> |s.w.flights| <= c.concurrency)
  }

  ghost predicate Shutdown(s: System) {
    && (s.close.Finishing? || s.close.Draining? || s.close.Resolved? ==> s.pump.Idle?)
    && (!s.close.Open? && !s.close.Settling? ==> Accepting(s) == 0) && s.clock <= END_OF_TIME
    && (s.close.Draining? ==> GivenUp(s.w))
    && (s.close.Resolved? ==> s.w.queue == map[] && s.w.flights == map[])
  }

  ghost predicate Inv(c: Settings, s: System) {
    W.Inv(s.w) && Reachable(c, s.w.queue) && Slots(c, s) && Shutdown(s)
  }

  lemma AcceptKeeps(c: Settings, s: System, move: Move, s': System)
    requires Inv(c, s) && Next(c, s, move, s') && move.Accept?
    ensures Inv(c, s')
  {
    W.StepKeepsInv(s.w, W.Insert(move.event, move.endpoints, s.clock), s'.w);
    forall id | id in s'.w.queue ensures s'.w.queue[id].endpoint in c.keys && s'.w.queue[id].due <= END_OF_TIME {
      InsertKeeps(s.w.queue, move.event, move.endpoints, s.clock, id);
    }
  }

  /** A claim adds one attempt per delivery answered, and moves only due times. */
  lemma ClaimAdds(c: Settings, w: W.State, to: seq<string>, at: int, leaseUntil: int, limit: nat, out: seq<Queued>,
                  w': W.State)
    requires W.Inv(w) && W.Next(w, W.Claim(to, at, leaseUntil, limit, out), w')
    requires Reachable(c, w.queue) && leaseUntil <= END_OF_TIME
    ensures W.Inv(w') && Reachable(c, w'.queue)
    ensures w'.flights.Keys == w.flights.Keys + W.Tickets(out) && |w'.flights| <= |w.flights| + |out| && |out| <= limit
    ensures forall t :: t in W.Tickets(out) ==> w'.flights[t].Started?
    ensures forall t :: t in w.flights && t !in W.Tickets(out) ==> w'.flights[t] == w.flights[t]
  {
    W.StepKeepsInv(w, W.Claim(to, at, leaseUntil, limit, out), w');
    W.ClaimKeepsIds(w.queue, w'.queue, to, at, leaseUntil, limit, out);
    forall id | id in w'.queue ensures w'.queue[id].endpoint in c.keys && w'.queue[id].due <= END_OF_TIME {
      ClaimMoves(w.queue, w'.queue, to, at, leaseUntil, limit, out, id);
    }
    AtMostLimit(w.queue, w'.queue, to, at, leaseUntil, limit, out);
    StartAdds(w, w'.queue, out);
  }

  lemma StartedFlights(flights: map<W.Ticket, W.Phase>, tickets: set<W.Ticket>)
    ensures var all := flights + map t | t in tickets :: W.Started;
            && all.Keys == flights.Keys + tickets && |all| <= |flights| + |tickets|
            && (forall t :: t in tickets ==> all[t].Started?)
            && (forall t :: t in flights && t !in tickets ==> all[t] == flights[t])
  {
  }

  lemma StartAdds(w: W.State, queue: Deliveries, out: seq<Queued>)
    ensures var w' := W.Start(w, queue, out);
            && w'.flights.Keys == w.flights.Keys + W.Tickets(out) && |w'.flights| <= |w.flights| + |out|
            && (forall t :: t in W.Tickets(out) ==> w'.flights[t].Started?)
            && (forall t :: t in w.flights && t !in W.Tickets(out) ==> w'.flights[t] == w.flights[t])
  {
    StartedFlights(w.flights, W.Tickets(out));
    TicketsAtMost(out);
  }

  lemma ClaimMoves(before: Deliveries, after: Deliveries, to: seq<string>, at: int, leaseUntil: int, limit: nat,
                   out: seq<Queued>, id: string)
    requires Claimed(before, after, to, at, leaseUntil, limit, out) && id in after
    ensures id in before && after[id].endpoint == before[id].endpoint
    ensures after[id].due == before[id].due || after[id].due == leaseUntil
  {
  }

  lemma {:induction false} TicketsAtMost(out: seq<Queued>)
    ensures |W.Tickets(out)| <= |out|
  {
    if out != [] {
      var init := out[..|out| - 1];
      assert W.Tickets(out) == W.Tickets(init) + {W.TicketOf(out[|out| - 1])};
      TicketsAtMost(init);
    }
  }

  lemma PumpClaimKeeps(c: Settings, s: System, move: Move, s': System)
    requires Inv(c, s) && Next(c, s, move, s') && move.PumpClaims?
    ensures Inv(c, s')
  {
    hide W.Inv, W.Next;
    ClaimAdds(c, s.w, move.to, move.now, move.leaseUntil, c.concurrency - |InFlight(s)|, move.out, s'.w);
    assert |s.w.flights| == |s.w.flights.Keys|;
  }

  /** A step of an attempt ends it or moves it on, and touches no other. */
  lemma AttemptMoves(w: W.State, step: W.Step, w': W.State, t: W.Ticket)
    requires W.Next(w, step, w') && !step.Insert? && !step.Claim? && step.t == t
    ensures t in w.flights
    ensures w'.flights.Keys == w.flights.Keys || w'.flights.Keys == w.flights.Keys - {t}
    ensures forall u :: u in w.flights && u != t ==> u in w'.flights && w'.flights[u] == w.flights[u]
  {
  }

  lemma AttemptReaches(c: Settings, s: System, step: W.Step, s': System)
    requires Reachable(c, s.w.queue) && Next(c, s, Attempt(step), s')
    ensures Reachable(c, s'.w.queue)
  {
  }

  lemma AttemptKeeps(c: Settings, s: System, step: W.Step, s': System)
    requires Inv(c, s) && Next(c, s, Attempt(step), s')
    ensures Inv(c, s')
  {
    AttemptReaches(c, s, step, s');
    W.StepKeepsInv(s.w, step, s'.w);
    AttemptMoves(s.w, step, s'.w, step.t);
    AttemptSlots(c, s, step, s');
    if s.close.Draining? { DrainAttempt(s, step, s'); }
    assert Shutdown(s') by { assert s.close.Resolved? ==> s.w.flights == map[]; }
    hide W.Inv, Reachable, Slots, Shutdown;
  }

  lemma AttemptSlots(c: Settings, s: System, step: W.Step, s': System)
    requires Slots(c, s) && MayTake(s, step) && s' == s.(w := s'.w) && step.t in s.w.flights
    requires s'.w.flights.Keys == s.w.flights.Keys || s'.w.flights.Keys == s.w.flights.Keys - {step.t}
    requires forall u :: u in s.w.flights && u != step.t ==> u in s'.w.flights && s'.w.flights[u] == s.w.flights[u]
    ensures Slots(c, s')
  {
  }

  /** An attempt ends while draining only by removing its delivery. */
  lemma DrainAttempt(s: System, step: W.Step, s': System)
    requires GivenUp(s.w) && W.Next(s.w, step, s'.w) && s.close.Draining? && MayTake(s, step)
    ensures GivenUp(s'.w)
  {
  }

  /** The drain's claim takes every delivery, whatever it waits for. */
  lemma DrainClaimsAll(c: Settings, s: System, out: seq<Queued>, claimed: W.State, s': System)
    requires Inv(c, s) && Next(c, s, FlightsSettled(out, claimed), s') && |s.w.queue| <= MAX_SAFE_INTEGER
    ensures Inv(c, s')
  {
    hide W.Inv, W.Next, Reachable, Next, Inv, GiveAllUp;
    DrainBegins(c, s, out, claimed, s');
    DrainHolds(c, s.w, out, claimed);
    ClaimAdds(c, s.w, c.keys, END_OF_TIME, END_OF_TIME, MAX_SAFE_INTEGER, out, claimed);
    Regiven(claimed);
    InvOf(c, s');
  }

  lemma DrainBegins(c: Settings, s: System, out: seq<Queued>, claimed: W.State, s': System)
    requires Inv(c, s) && Next(c, s, FlightsSettled(out, claimed), s')
    ensures s' == s.(w := GiveAllUp(claimed), close := Draining) && s.pump.Idle? && Accepting(s) == 0
    ensures s.clock <= END_OF_TIME
    ensures Reachable(c, s.w.queue) && W.Inv(s.w)
    ensures W.Next(s.w, W.Claim(c.keys, END_OF_TIME, END_OF_TIME, MAX_SAFE_INTEGER, out), claimed)
  {
    hide W.Inv, W.Next, Reachable, Slots;
  }

  lemma InvOf(c: Settings, s: System)
    requires W.Inv(s.w) && Reachable(c, s.w.queue) && s.pump.Idle? && Accepting(s) == 0 && s.close.Draining? &&
             GivenUp(s.w) && s.clock <= END_OF_TIME
    ensures Inv(c, s)
  {
  }

  lemma DrainHolds(c: Settings, w: W.State, out: seq<Queued>, mid: W.State)
    requires Reachable(c, w.queue) && |w.queue| <= MAX_SAFE_INTEGER
    requires W.Next(w, W.Claim(c.keys, END_OF_TIME, END_OF_TIME, MAX_SAFE_INTEGER, out), mid)
    ensures forall id :: id in mid.queue ==>
              mid.queue[id].lease.Some? && W.Ticket(id, mid.queue[id].lease.value) in mid.flights
  {
    assert DueIds(w.queue, c.keys, END_OF_TIME) == w.queue.Keys;
    AllIds(w.queue, mid.queue, c.keys, out);
    StartAdds(w, mid.queue, out);
    forall id | id in mid.queue
      ensures mid.queue[id].lease.Some? && W.Ticket(id, mid.queue[id].lease.value) in mid.flights
    {
      W.ClaimChanges(w.queue, mid.queue, c.keys, END_OF_TIME, END_OF_TIME, MAX_SAFE_INTEGER, out, id);
      var one :| one in out && W.TicketOf(one) == W.Ticket(id, LeaseIn(mid.queue, id));
      assert W.TicketOf(one) in W.Tickets(out);
    }
  }

  function LeaseIn(queue: Deliveries, id: string): string
    requires id in queue && queue[id].lease.Some?
  {
    queue[id].lease.value
  }

  lemma AllIds(before: Deliveries, after: Deliveries, keys: seq<string>, out: seq<Queued>)
    requires Claimed(before, after, keys, END_OF_TIME, END_OF_TIME, MAX_SAFE_INTEGER, out)
    requires DueIds(before, keys, END_OF_TIME) == before.Keys && |before| <= MAX_SAFE_INTEGER
    ensures forall id :: id in before ==> id in IdsOf(out)
  {
    assert Earliest.Distinct(IdsOf(out));
    Earliest.DistinctSize(IdsOf(out));
    assert |before| == |before.Keys|;
    Earliest.SubsetSize(Earliest.Members(IdsOf(out)), before.Keys);
  }

  /** Taking claimed deliveries straight to being given up changes nothing the queue keeps. */
  lemma Regiven(w: W.State)
    requires W.Inv(w)
    requires forall id :: id in w.queue ==>
               w.queue[id].lease.Some? && W.Ticket(id, w.queue[id].lease.value) in w.flights
    ensures W.Inv(GiveAllUp(w)) && GivenUp(GiveAllUp(w)) && GiveAllUp(w).queue == w.queue
  {
  }

  lemma MoveKeepsInv(c: Settings, s: System, move: Move, s': System)
    requires Inv(c, s) && Next(c, s, move, s') && (move.FlightsSettled? ==> |s.w.queue| <= MAX_SAFE_INTEGER)
    ensures Inv(c, s')
  {
    hide Inv, Next;
    match move
    case Accept(_, _) => AcceptKeeps(c, s, move, s');
    case PumpClaims(_, _, _, _) => PumpClaimKeeps(c, s, move, s');
    case Attempt(step) => AttemptKeeps(c, s, step, s');
    case FlightsSettled(out, claimed) => DrainClaimsAll(c, s, out, claimed, s');
    case _ => OtherKeeps(c, s, move, s');
  }

  /** A move that leaves the queue and the attempts alone. */
  lemma OtherKeeps(c: Settings, s: System, move: Move, s': System)
    requires Inv(c, s) && Next(c, s, move, s')
    requires !move.Accept? && !move.PumpClaims? && !move.Attempt? && !move.FlightsSettled?
    ensures Inv(c, s')
  {
    hide W.Inv, W.Next, Reachable;
    assert s'.w == s.w;
  }

  // ----- slots, however much is held

  /** Slots hold before the drain; the drain starts nothing, and only ends what it gives up. */
  ghost predicate Busy(c: Settings, s: System) {
    && Slots(c, s)
    && (s.close.Finishing? || s.close.Draining? || s.close.Resolved? ==> s.pump.Idle?)
    && (s.close.Draining? ==> forall t :: t in s.w.flights ==> Ending(s.w.flights[t]))
    && (s.close.Resolved? ==> s.w.flights == map[])
  }

  lemma ClaimKeepsBusy(c: Settings, s: System, move: Move, s': System)
    requires Busy(c, s) && Next(c, s, move, s') && move.PumpClaims?
    ensures Busy(c, s')
  {
    hide Next, W.Next, InFlight, W.Tickets;
    PumpClaimFills(c, s, move, s');
  }

  lemma PumpClaimFills(c: Settings, s: System, move: Move, s': System)
    requires Next(c, s, move, s') && move.PumpClaims?
    ensures s'.pump.Wait? && s'.close == s.close && s.pump.Run? && |s'.w.flights| <= c.concurrency
    ensures s'.pump.batch <= s'.w.flights.Keys && forall t :: t in s'.pump.batch ==> s'.w.flights[t].Started?
  {
    hide Next, W.Next, InFlight, W.Tickets;
    PumpClaimIs(c, s, move, s');
    var free: nat := c.concurrency - |s.w.flights|;
    ClaimStarts(s.w, move.to, move.now, move.leaseUntil, free, move.out, s'.w);
  }

  lemma PumpClaimIs(c: Settings, s: System, move: Move, s': System)
    requires Next(c, s, move, s') && move.PumpClaims?
    ensures s.pump.Run? && |InFlight(s)| == |s.w.flights| < c.concurrency
    ensures W.Next(s.w, W.Claim(move.to, move.now, move.leaseUntil, c.concurrency - |s.w.flights|, move.out), s'.w)
    ensures s'.pump.Wait? && s'.pump.batch == W.Tickets(move.out) && s'.close == s.close
  {
    hide W.Next;
    assert InFlight(s) == s.w.flights.Keys && |s.w.flights| == |s.w.flights.Keys|;
  }

  lemma ClaimStarts(w: W.State, to: seq<string>, at: int, leaseUntil: int, limit: nat, out: seq<Queued>, w': W.State)
    requires W.Next(w, W.Claim(to, at, leaseUntil, limit, out), w')
    ensures w'.flights.Keys == w.flights.Keys + W.Tickets(out) && |w'.flights| <= |w.flights| + limit
    ensures forall t :: t in W.Tickets(out) ==> w'.flights[t].Started?
  {
    AtMostLimit(w.queue, w'.queue, to, at, leaseUntil, limit, out);
    StartAdds(w, w'.queue, out);
  }

  lemma AttemptKeepsBusy(c: Settings, s: System, step: W.Step, s': System)
    requires Busy(c, s) && Next(c, s, Attempt(step), s')
    ensures Busy(c, s')
  {
    AttemptMoves(s.w, step, s'.w, step.t);
    AttemptSlots(c, s, step, s');
    hide Slots;
  }

  lemma MoveKeepsBusy(c: Settings, s: System, move: Move, s': System)
    requires Busy(c, s) && Next(c, s, move, s')
    ensures Busy(c, s')
  {
    match move
    case PumpClaims(_, _, _, _) => ClaimKeepsBusy(c, s, move, s');
    case Attempt(step) => AttemptKeepsBusy(c, s, step, s');
    case _ =>
  }

  lemma {:induction false} AlwaysBusy(c: Settings, r: Trace, i: nat)
    requires IsTrace(c, r) && i < |r.states|
    ensures Busy(c, r.states[i])
  {
    if i > 0 {
      TraceMoves(c, r, i - 1);
      hide Busy, Next;
      AlwaysBusy(c, r, i - 1);
      MoveKeepsBusy(c, r.states[i - 1], r.moves[i - 1], r.states[i]);
    }
  }

  // ----- every trace

  lemma InitialKeeps(c: Settings)
    ensures Inv(c, INITIAL)
  {
  }

  lemma TraceMoves(c: Settings, r: Trace, i: nat)
    requires IsTrace(c, r) && i < |r.moves|
    ensures i + 1 < |r.states| && Next(c, r.states[i], r.moves[i], r.states[i + 1])
  {
  }

  lemma {:induction false} EveryMoveKeepsInv(c: Settings, r: Trace, i: nat)
    requires IsTrace(c, r) && i < |r.states|
    requires forall k :: 0 <= k < |r.moves| && r.moves[k].FlightsSettled? ==> |r.states[k].w.queue| <= MAX_SAFE_INTEGER
    ensures Inv(c, r.states[i])
  {
    hide Inv, Next;
    if i == 0 {
      InitialKeeps(c);
    } else {
      TraceMoves(c, r, i - 1);
      EveryMoveKeepsInv(c, r, i - 1);
      MoveKeepsInv(c, r.states[i - 1], r.moves[i - 1], r.states[i]);
    }
  }

  /** The requests under way: an attempt started, and its endpoint not answered yet. */
  function Requests(s: System): set<W.Ticket> {
    set t | t in InFlight(s) && s.w.flights[t].Started?
  }

  /** **Requests in flight never exceed `concurrency`**, at any moment of any trace. */
  lemma ConcurrencyHolds(c: Settings, r: Trace, i: nat)
    requires IsTrace(c, r) && i < |r.states|
    ensures |Requests(r.states[i])| <= c.concurrency
  {
    AlwaysBusy(c, r, i);
    var s := r.states[i];
    if s.close.Draining? || s.close.Resolved? { assert Requests(s) == {}; }
    Earliest.SubsetSize(Requests(s), s.w.flights.Keys);
    assert |s.w.flights| == |s.w.flights.Keys|;
    hide IsTrace;
  }

  /**
   * **Once `close()` resolves nothing is held**: every delivery accepted was
   * answered 2xx, or handed to the report, when what waited at the drain was
   * no more than its one claim may answer.
   */
  lemma CloseLeavesNothing(c: Settings, r: Trace, i: nat)
    requires IsTrace(c, r) && i < |r.states| && r.states[i].close.Resolved?
    requires forall k :: 0 <= k < |r.moves| && r.moves[k].FlightsSettled? ==> |r.states[k].w.queue| <= MAX_SAFE_INTEGER
    ensures r.states[i].w.queue == map[]
    ensures forall id, n :: 1 <= n <= W.Births(r.states[i].w.births, id) ==>
              W.Life(id, n) in r.states[i].w.answered || W.Life(id, n) in r.states[i].w.reported
  {
    EveryMoveKeepsInv(c, r, i);
  }
}
