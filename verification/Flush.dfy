/**
 * What `close()` sends before it gives anything up: however pumps, wakes and
 * attempts interleave with it, the flush returns only once every delivery
 * accepted was claimed, so the drain gives up none that was never tried.
 */
module Flush {
  import opened Std
  import opened Queue
  import Earliest
  import opened Closing
  import W = Workers

  /** Never claimed. */
  predicate IsNew(one: Held) {
    one.attempts == 0
  }

  ghost predicate SomeNew(s: System) {
    exists id :: id in s.w.queue && IsNew(s.w.queue[id])
  }

  /** A delivery never claimed is held by nobody, and has been due since it was accepted. */
  ghost predicate NewAreDue(c: Settings, s: System) {
    forall id :: id in s.w.queue && IsNew(s.w.queue[id]) ==>
      && s.w.queue[id].lease.None? && s.w.queue[id].endpoint in c.keys
      && s.w.queue[id].due <= s.clock && (s.heldAt.Some? ==> s.w.queue[id].due <= s.heldAt.value)
  }

  /** Before the drain. */
  predicate Sending(s: System) {
    !s.close.Draining? && !s.close.Resolved?
  }

  /** A claim that answered nothing left a slot free: what is in flight only ends. */
  ghost predicate SlotLeft(c: Settings, s: System) {
    Sending(s) && s.claimedNothing ==>
      |InFlight(s)| < c.concurrency && (s.pump.Wait? ==> s.pump.batch == {})
  }

  /** The pump will claim before it ends. */
  predicate WillClaim(s: System) {
    s.pump.Run? || (s.again && (s.pump.Wait? || s.pump.Check?))
  }

  /**
   * **Whatever was never claimed will be**: a claim is to come, or an accept is
   * still to wake the pump, or one whose wake was missed is still to settle, or
   * no pump runs, and the flush is still to wake one.
   */
  ghost predicate Heeded(s: System) {
    && (s.close.Open? || s.close.Settling? || s.close.Flushing? ==>
          s.claimedNothing && SomeNew(s) && s.inserted == 0 && !WillClaim(s) ==>
            (s.pump.Leaving? && s.missed > 0) || s.pump.Idle?)
    && (s.close == Flushing(true) && s.claimedNothing && SomeNew(s) ==> WillClaim(s))
    && (s.close.Stopping? || s.close.Finishing? ==> !SomeNew(s))
    && (!s.close.Open? && !s.close.Settling? ==> Accepting(s) == 0)
    && (s.close.Open? || s.close.Settling? ==> s.heldAt.None?)
    && (s.close.Flushing? ==> s.heldAt.Some?)
  }

  ghost predicate Inv(c: Settings, s: System) {
    NewAreDue(c, s) && SlotLeft(c, s) && Heeded(s)
  }

  // ----- what the queue's steps do to what was never claimed

  /** No step of an attempt makes a delivery new, or touches one that is. */
  lemma AttemptLeavesNew(w: W.State, step: W.Step, w': W.State)
    requires W.Next(w, step, w') && !step.Insert? && !step.Claim?
    requires forall id :: id in w.queue && IsNew(w.queue[id]) ==> w.queue[id].lease.None?
    ensures forall id :: id in w'.queue && IsNew(w'.queue[id]) ==> id in w.queue && w.queue[id] == w'.queue[id]
  {
  }

  lemma ClaimLeavesNew(w: W.State, to: seq<string>, at: int, leaseUntil: int, limit: nat, out: seq<Queued>, w': W.State)
    requires W.Next(w, W.Claim(to, at, leaseUntil, limit, out), w')
    ensures forall id :: id in w'.queue && IsNew(w'.queue[id]) ==>
              id in w.queue && w.queue[id] == w'.queue[id] &&
              (w.queue[id].endpoint in to && w.queue[id].due <= at && limit > 0 ==> out != [])
  {
    W.ClaimKeepsIds(w.queue, w'.queue, to, at, leaseUntil, limit, out);
    forall id | id in w'.queue && IsNew(w'.queue[id])
      ensures id in w.queue && w.queue[id] == w'.queue[id]
      ensures w.queue[id].endpoint in to && w.queue[id].due <= at && limit > 0 ==> out != []
    {
      ClaimLeaves(w.queue, w'.queue, to, at, leaseUntil, limit, out, id);
      if k :| 0 <= k < |out| && out[k].id == id {
        ClaimIs(w.queue, w'.queue, to, at, leaseUntil, limit, out, k);
      }
    }
  }

  lemma InRotation(keys: seq<string>, to: seq<string>, endpoint: string)
    requires Rotates(keys, to) && endpoint in keys
    ensures endpoint in to
  {
    var first :| 0 <= first <= |keys| && to == keys[first..] + keys[..first];
    assert keys == keys[..first] + keys[first..];
  }

  // ----- what every move keeps

  /** What a pump's claim makes of what was never claimed, and of the slots. */
  lemma PumpClaimLeaves(c: Settings, s: System, move: Move, s': System)
    requires NewAreDue(c, s) && Next(c, s, move, s') && move.PumpClaims?
    ensures forall id :: id in s'.w.queue && IsNew(s'.w.queue[id]) ==>
              id in s.w.queue && s.w.queue[id] == s'.w.queue[id] && move.out != []
    ensures s' == s.(w := s'.w, again := false, claimedNothing := move.out == [], pump := s'.pump)
    ensures s'.pump.Wait? && s'.pump.batch == W.Tickets(move.out) && |InFlight(s)| < c.concurrency
    ensures move.out == [] ==> s'.pump.batch == {} && InFlight(s') == InFlight(s)
  {
    var free: nat := c.concurrency - |InFlight(s)|;
    ClaimLeavesNew(s.w, move.to, move.now, move.leaseUntil, free, move.out, s'.w);
    ClaimStarts(s.w, move.to, move.now, move.leaseUntil, free, move.out, s'.w);
    hide W.Next;
    forall id | id in s'.w.queue && IsNew(s'.w.queue[id]) ensures move.out != [] {
      InRotation(c.keys, move.to, s.w.queue[id].endpoint);
    }
    if move.out == [] { assert W.Tickets(move.out) == {}; }
  }

  lemma ClaimKeepsInv(c: Settings, s: System, move: Move, s': System)
    requires Inv(c, s) && Next(c, s, move, s') && move.PumpClaims?
    ensures Inv(c, s')
  {
    PumpClaimLeaves(c, s, move, s');
    hide Next, InFlight;
    assert SomeNew(s') ==> !s'.claimedNothing && SomeNew(s);
  }

  lemma AttemptKeepsSlot(c: Settings, s: System, step: W.Step, s': System)
    requires SlotLeft(c, s) && Next(c, s, Attempt(step), s')
    ensures SlotLeft(c, s')
  {
    AttemptMoves(s.w, step, s'.w, step.t);
    hide W.Next;
    assert InFlight(s') <= InFlight(s);
    Earliest.SubsetSize(InFlight(s'), InFlight(s));
  }

  lemma AttemptKeepsInv(c: Settings, s: System, step: W.Step, s': System)
    requires Inv(c, s) && Next(c, s, Attempt(step), s')
    ensures Inv(c, s')
  {
    AttemptKeepsSlot(c, s, step, s');
    AttemptLeavesNew(s.w, step, s'.w);
    hide W.Next, SlotLeft, InFlight;
    assert SomeNew(s') ==> SomeNew(s);
  }

  lemma AcceptKeepsInv(c: Settings, s: System, move: Move, s': System)
    requires Inv(c, s) && Next(c, s, move, s') && move.Accept?
    ensures Inv(c, s')
  {
    forall id | id in s'.w.queue
      ensures id in s.w.queue ==> s'.w.queue[id] == s.w.queue[id]
      ensures id !in s.w.queue ==> s'.w.queue[id].lease.None? && s'.w.queue[id].endpoint in c.keys &&
                                   s'.w.queue[id].due == s.clock
    {
      InsertKeeps(s.w.queue, move.event, move.endpoints, s.clock, id);
    }
    assert InFlight(s') == InFlight(s);
  }

  lemma DrainIs(c: Settings, s: System, move: Move, s': System)
    requires Next(c, s, move, s') && move.FlightsSettled?
    ensures s'.close.Draining? && s.close.Finishing? && s'.clock == s.clock && s'.heldAt == s.heldAt
    ensures Accepting(s') == Accepting(s) && s'.w.queue == move.claimed.queue
    ensures W.Next(s.w, W.Claim(c.keys, END_OF_TIME, END_OF_TIME, MAX_SAFE_INTEGER, move.out), move.claimed)
  {
    hide W.Next;
  }

  lemma DrainKeepsInv(c: Settings, s: System, move: Move, s': System)
    requires Inv(c, s) && Next(c, s, move, s') && move.FlightsSettled?
    ensures Inv(c, s')
  {
    DrainIs(c, s, move, s');
    hide Next, W.Next, SomeNew, InFlight;
    ClaimLeavesNew(s.w, c.keys, END_OF_TIME, END_OF_TIME, MAX_SAFE_INTEGER, move.out, move.claimed);
  }

  /** A move that leaves the queue and the attempts alone. */
  lemma SameNew(c: Settings, s: System, s': System)
    requires NewAreDue(c, s) && s'.w == s.w && s.clock <= s'.clock
    requires s'.heldAt == s.heldAt || s'.heldAt == Some(s.clock)
    ensures NewAreDue(c, s') && (SomeNew(s') <==> SomeNew(s))
  {
  }

  lemma PumpKeepsInv(c: Settings, s: System, move: Move, s': System)
    requires c.concurrency >= 1 && Inv(c, s) && Next(c, s, move, s')
    requires move.PumpFull? || move.PumpStarts? || move.PumpChecks? || move.PumpEnds?
    ensures Inv(c, s')
  {
    hide W.Next;
    SameNew(c, s, s');
    hide NewAreDue, SomeNew;
    if s.pump.Wait? && s.pump.batch == {} { assert InFlight(s) == s.w.flights.Keys; }
  }

  /** A move that touches neither the queue, nor the attempts, nor the pump but by waking it. */
  predicate Wakes(s: System, s': System) {
    s'.w == s.w && s'.claimedNothing == s.claimedNothing &&
    ((s'.pump == s.pump && (s.again ==> s'.again)) || (s.pump.Idle? && s'.pump.Run?))
  }

  lemma WakesKeepsSlot(c: Settings, s: System, s': System)
    requires SlotLeft(c, s) && Wakes(s, s') && (Sending(s') ==> Sending(s))
    ensures SlotLeft(c, s')
  {
    assert InFlight(s') == InFlight(s);
  }

  /** What a caller's move, or the clock's, does to the pump and the accepts. */
  ghost predicate CallerMoves(s: System, s': System) {
    && Wakes(s, s') && s'.close == s.close && s'.heldAt == s.heldAt && s.clock <= s'.clock
    && Accepting(s') <= Accepting(s) && s.missed <= s'.missed
    && (s'.inserted < s.inserted && s.pump.Leaving? ==> s'.missed > 0)
    && (s'.inserted < s.inserted && !s.pump.Leaving? && !Stopped(s.close) ==> WillClaim(s'))
    && s'.inserted <= s.inserted
  }

  lemma CallerIs(c: Settings, s: System, move: Move, s': System)
    requires Next(c, s, move, s') && (move.Tick? || move.AcceptWakes? || move.AcceptSettles? || move.Wake?)
    ensures CallerMoves(s, s')
  {
    hide W.Next, InFlight;
  }

  lemma CallerKeepsHeeded(s: System, s': System)
    requires Heeded(s) && CallerMoves(s, s') && (SomeNew(s') <==> SomeNew(s))
    ensures Heeded(s')
  {
    hide SomeNew;
  }

  lemma CallerKeepsInv(c: Settings, s: System, move: Move, s': System)
    requires Inv(c, s) && Next(c, s, move, s')
    requires move.Tick? || move.AcceptWakes? || move.AcceptSettles? || move.Wake?
    ensures Inv(c, s')
  {
    CallerIs(c, s, move, s');
    hide Next, SlotLeft, Heeded, NewAreDue, SomeNew;
    SameNew(c, s, s');
    WakesKeepsSlot(c, s, s');
    CallerKeepsHeeded(s, s');
  }

  /** What a move of `close()` does. */
  ghost predicate CloseMoves(s: System, s': System) {
    && Wakes(s, s') && s'.clock == s.clock
    && s'.inserted == s.inserted && s'.missed == s.missed && s'.woken == s.woken
    && match s'.close
       case Settling => s.close.Open? && s'.heldAt == s.heldAt && s'.pump == s.pump && s'.again == s.again
       case Flushing(woke) =>
         if woke then s.close.Flushing? && s'.heldAt == s.heldAt && (s.pump.Leaving? || WillClaim(s'))
         else s.close.Settling? && Accepting(s) == 0 && s'.heldAt == Some(s.clock) && s'.pump == s.pump &&
              s'.again == s.again
       case Stopping => s.close == Flushing(true) && s.pump.Idle? && s.claimedNothing && s'.heldAt == s.heldAt
       case Finishing => s.close.Stopping? && s'.heldAt == s.heldAt
       case Resolved => s.close.Draining? && s'.heldAt == s.heldAt
       case _ => false
  }

  lemma CloseIs(c: Settings, s: System, move: Move, s': System)
    requires Next(c, s, move, s')
    requires move.CloseBegins? || move.InsertsSettled? || move.FlushWakes? || move.FlushReturns? || move.PumpStopped? ||
             move.DrainSettled?
    ensures CloseMoves(s, s')
  {
    hide W.Next, InFlight;
  }

  lemma CloseKeepsHeeded(s: System, s': System)
    requires Heeded(s) && CloseMoves(s, s') && (SomeNew(s') <==> SomeNew(s))
    ensures Heeded(s')
  {
    hide SomeNew;
  }

  lemma CloseKeepsInv(c: Settings, s: System, move: Move, s': System)
    requires Inv(c, s) && Next(c, s, move, s')
    requires move.CloseBegins? || move.InsertsSettled? || move.FlushWakes? || move.FlushReturns? || move.PumpStopped? ||
             move.DrainSettled?
    ensures Inv(c, s')
  {
    CloseIs(c, s, move, s');
    hide Next, SlotLeft, Heeded, NewAreDue, SomeNew;
    SameNew(c, s, s');
    WakesKeepsSlot(c, s, s');
    CloseKeepsHeeded(s, s');
  }

  lemma MoveKeepsInv(c: Settings, s: System, move: Move, s': System)
    requires c.concurrency >= 1 && Inv(c, s) && Next(c, s, move, s')
    ensures Inv(c, s')
  {
    hide Inv, Next;
    match move
    case Accept(_, _) => AcceptKeepsInv(c, s, move, s');
    case PumpClaims(_, _, _, _) => ClaimKeepsInv(c, s, move, s');
    case Attempt(step) => AttemptKeepsInv(c, s, step, s');
    case FlightsSettled(_, _) => DrainKeepsInv(c, s, move, s');
    case PumpFull => PumpKeepsInv(c, s, move, s');
    case PumpStarts => PumpKeepsInv(c, s, move, s');
    case PumpChecks => PumpKeepsInv(c, s, move, s');
    case PumpEnds => PumpKeepsInv(c, s, move, s');
    case Tick(_) => CallerKeepsInv(c, s, move, s');
    case AcceptWakes => CallerKeepsInv(c, s, move, s');
    case AcceptSettles => CallerKeepsInv(c, s, move, s');
    case Wake => CallerKeepsInv(c, s, move, s');
    case _ => CloseKeepsInv(c, s, move, s');
  }

  lemma {:induction false} AlwaysInv(c: Settings, r: Trace, i: nat)
    requires c.concurrency >= 1 && IsTrace(c, r) && i < |r.states|
    ensures Inv(c, r.states[i])
  {
    hide Inv, Next;
    if i == 0 {
      BeginsInv(c);
    } else {
      TraceMoves(c, r, i - 1);
      AlwaysInv(c, r, i - 1);
      MoveKeepsInv(c, r.states[i - 1], r.moves[i - 1], r.states[i]);
    }
  }

  lemma BeginsInv(c: Settings)
    requires c.concurrency >= 1
    ensures Inv(c, INITIAL)
  {
    assert InFlight(INITIAL) == {};
  }

  /**
   * **`close()` gives up nothing it never tried**: when the drain claims what
   * still waits, every delivery has been claimed for an attempt before.
   */
  lemma DrainedWasTried(c: Settings, r: Trace, i: nat, id: string)
    requires c.concurrency >= 1 && IsTrace(c, r) && i < |r.moves| && r.moves[i].FlightsSettled?
    requires id in r.states[i].w.queue
    ensures r.states[i].w.queue[id].attempts >= 1
  {
    TraceMoves(c, r, i);
    AlwaysInv(c, r, i);
  }

  /** A claim keeps the failure a delivery remembers, and whether it is held by an attempt it does not answer. */
  lemma ClaimKeepsFailed(w: W.State, to: seq<string>, at: int, leaseUntil: int, limit: nat, out: seq<Queued>,
                         w': W.State, id: string)
    requires W.Next(w, W.Claim(to, at, leaseUntil, limit, out), w') && id in w.queue && id in w'.queue
    ensures w'.queue[id].failed == w.queue[id].failed && (w.queue[id].lease.Some? ==> w'.queue[id].lease.Some?)
  {
    ClaimLeaves(w.queue, w'.queue, to, at, leaseUntil, limit, out, id);
    if k :| 0 <= k < |out| && out[k].id == id {
      ClaimIs(w.queue, w'.queue, to, at, leaseUntil, limit, out, k);
    }
  }

  lemma AttemptKeepsFailed(w: W.State, step: W.Step, w': W.State, id: string)
    requires W.Next(w, step, w') && !step.Insert? && !step.Claim? && !step.Retry?
    requires id in w.queue && id in w'.queue
    ensures w'.queue[id].failed == w.queue[id].failed && w'.queue[id].lease == w.queue[id].lease
  {
  }

  /** **Once `close()` was called no failure is put back**: none is remembered anew, and no lease is freed. */
  lemma NothingPutBack(c: Settings, r: Trace, i: nat, id: string)
    requires IsTrace(c, r) && i < |r.moves| && !r.states[i].close.Open?
    requires id in r.states[i].w.queue && id in r.states[i + 1].w.queue
    ensures r.states[i + 1].w.queue[id].failed == r.states[i].w.queue[id].failed
    ensures r.states[i].w.queue[id].lease.Some? ==> r.states[i + 1].w.queue[id].lease.Some?
  {
    TraceMoves(c, r, i);
    var s, s' := r.states[i], r.states[i + 1];
    match r.moves[i]
    case PumpClaims(now, to, leaseUntil, out) =>
      ClaimKeepsFailed(s.w, to, now, leaseUntil, c.concurrency - |InFlight(s)|, out, s'.w, id);
    case Attempt(step) => AttemptKeepsFailed(s.w, step, s'.w, id);
    case FlightsSettled(out, claimed) =>
      ClaimKeepsFailed(s.w, c.keys, END_OF_TIME, END_OF_TIME, MAX_SAFE_INTEGER, out, claimed, id);
    case _ =>
  }

  /** **The drain gives up what it claims and nothing else**: no request is under way when it does. */
  lemma DrainGivesUpItsOwn(c: Settings, r: Trace, i: nat)
    requires IsTrace(c, r) && i < |r.moves| && r.moves[i].FlightsSettled?
    ensures r.states[i].w.flights == map[]
    ensures var flights := r.states[i + 1].w.flights;
            flights.Keys == W.Tickets(r.moves[i].out) && forall t :: t in flights ==> flights[t].GivingUp?
  {
    AlwaysBusy(c, r, i);
    TraceMoves(c, r, i);
    var s, move := r.states[i], r.moves[i];
    assert InFlight(s) == s.w.flights.Keys;
    ClaimStarts(s.w, c.keys, END_OF_TIME, END_OF_TIME, MAX_SAFE_INTEGER, move.out, move.claimed);
    hide IsTrace, W.Next, Slots;
  }
}
