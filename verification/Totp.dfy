/**
 * Time-based codes (section 5.2 of RFC 6238): the step a code matches, and
 * that no step is accepted twice however confirmations race. `codes` is the
 * code a secret shows at each step; the hash it is made of stays outside.
 */
module Totp {
  import opened Std

  const STEP_MS := 30_000
  const DRIFT := 1

  predicate IsSixDigits(code: string) {
    |code| == 6 && forall i :: 0 <= i < 6 ==> '0' <= code[i] <= '9'
  }

  /** Compares without stopping at the first difference; a character past the end differs from any. */
  method EqualCodes(a: string, b: string) returns (equal: bool)
    ensures equal <==> a == b
  {
    var differs := |a| != |b|;
    for i := 0 to |a|
      invariant differs <==> |a| != |b| || exists j :: 0 <= j < i && a[j] != b[j]
    {
      if i >= |b| || a[i] != b[i] { differs := true; }
    }
    equal := !differs;
  }

  /** A step whose code this is, within the drift and after the last one used. */
  predicate Matches(codes: int -> string, code: string, current: int, lastStep: Option<int>, step: int) {
    IsSixDigits(code) && current - DRIFT <= step <= current + DRIFT && codes(step) == code &&
    (lastStep.Some? ==> step > lastStep.value)
  }

  /** **The earliest step that matches**, or none when none does. */
  ghost predicate Matched(codes: int -> string, code: string, current: int, lastStep: Option<int>, found: Option<int>) {
    match found
    case None => forall step :: !Matches(codes, code, current, lastStep, step)
    case Some(step) =>
      Matches(codes, code, current, lastStep, step) &&
      forall other :: Matches(codes, code, current, lastStep, other) ==> step <= other
  }

  method MatchStep(codes: int -> string, code: string, now: int, lastStep: Option<int>) returns (matched: Option<int>)
    ensures Matched(codes, code, now / STEP_MS, lastStep, matched)
  {
    matched := None;
    if !IsSixDigits(code) { return; }
    // Dafny's division floors for a positive divisor, as `Math.floor` does.
    var current := now / STEP_MS;
    for step := current - DRIFT to current + DRIFT + 1
      invariant matched.Some? ==> matched.value < step
      invariant matched.Some? ==> Matches(codes, code, current, lastStep, matched.value)
      invariant forall other :: Matches(codes, code, current, lastStep, other) && other < step ==>
                                matched.Some? && matched.value <= other
    {
      var unused := lastStep.None? || step > lastStep.value;
      var equal := EqualCodes(codes(step), code);
      if equal && unused && matched == None { matched := Some(step); }
    }
  }

  // ----- confirmations that race

  /** What a confirmation read, and the step it is to write. */
  datatype Confirmation = Confirmation(version: nat, step: int)

  /** One enrolment: the record's version and last step, what was read under it, and the steps accepted so far. */
  datatype State = State(version: nat, lastStep: Option<int>, pending: map<string, Confirmation>, accepted: seq<int>)

  const ENROLLED := State(0, None, map[], [])

  datatype Step =
    | Confirm(id: string, code: string, now: int, step: int)   // reads the record, and matches the code
    | Write(id: string)                                        // under the version read
    | Touch                                                    // any other write of the record

  ghost predicate Next(codes: int -> string, s: State, step: Step, s': State) {
    match step
    case Confirm(id, code, now, at) =>
      id !in s.pending && Matched(codes, code, now / STEP_MS, s.lastStep, Some(at)) &&
      s' == s.(pending := s.pending[id := Confirmation(s.version, at)])
    case Write(id) =>
      id in s.pending &&
      if s.pending[id].version == s.version then
        s' == s.(version := s.version + 1, lastStep := Some(s.pending[id].step),
                 accepted := s.accepted + [s.pending[id].step])
      else s' == s                                             // VERSION_CONFLICT
    case Touch => s' == s.(version := s.version + 1)
  }

  /** A run: its states, and the step between each and the next. */
  datatype Run = Run(states: seq<State>, steps: seq<Step>)

  ghost predicate IsRun(codes: int -> string, r: Run) {
    |r.states| == |r.steps| + 1 && r.states[0] == ENROLLED &&
    forall i :: 0 <= i < |r.steps| ==> Next(codes, r.states[i], r.steps[i], r.states[i + 1])
  }

  predicate Rising(steps: seq<int>) {
    forall i, j :: 0 <= i < j < |steps| ==> steps[i] < steps[j]
  }

  ghost predicate Inv(s: State) {
    && Rising(s.accepted)
    && s.lastStep == (if s.accepted == [] then None else Some(s.accepted[|s.accepted| - 1]))
    && forall id :: id in s.pending ==>
         s.pending[id].version <= s.version &&
         (s.pending[id].version == s.version && s.lastStep.Some? ==> s.pending[id].step > s.lastStep.value)
  }

  /** **Accepted steps strictly increase over every run**, so none is accepted twice. */
  lemma {:induction false} StepsRise(codes: int -> string, r: Run, i: nat)
    requires IsRun(codes, r) && i < |r.states|
    ensures Inv(r.states[i])
  {
    if i > 0 {
      StepsRise(codes, r, i - 1);
      assert Next(codes, r.states[i - 1], r.steps[i - 1], r.states[i]);
    }
  }
}
