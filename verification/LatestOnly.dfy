/**
 * Any number of concurrent requests that each issue a token of a user, then
 * spend every other one of its kind, interleaved step by step with every
 * other call on the store: redemptions, attempts, expiries, deletions.
 */
module LatestOnly {
  import opened Std
  import opened Tokens

  /** A request, under the hash of the token it issued. */
  datatype Request = Request(userId: string, kind: string, finished: bool)

  /**
   * `made` holds every hash ever inserted, since a secret is minted once;
   * `latest` the request of each user and kind that finished last.
   */
  datatype State = State(live: Table, made: set<string>, requests: map<string, Request>,
                         latest: map<(string, string), string>)

  const EMPTY := State(map[], {}, map[], map[])

  datatype Step =
    | Issue(hash: string, token: Token)
    | SpendOthers(hash: string, at: int)
    | Other(call: Call)

  /** The kinds of which a user keeps one token at most. */
  const KEPT := {"signInCode", "magicLink", "resetPassword", "stepUp"}

  /** The store call a step is. */
  function CallOf(s: State, step: Step): Call {
    match step
    case Issue(hash, token) => Insert(hash, token)
    case SpendOthers(hash, at) =>
      if hash in s.requests then SpendUser(s.requests[hash].userId, s.requests[hash].kind, at, hash) else Drop(hash)
    case Other(call) => call
  }

  ghost predicate Next(s: State, step: Step, s': State) {
    && s'.live == Tokens.Next(s.live, CallOf(s, step))
    && match step
       case Issue(hash, token) =>
         && hash !in s.made && hash !in s.requests && token.spentAt.None? && token.kind in KEPT
         && s' == s.(live := s'.live, made := s.made + {hash},
                     requests := s.requests[hash := Request(token.userId, token.kind, false)])
       case SpendOthers(hash, at) =>
         && hash in s.requests && !s.requests[hash].finished
         && s' == s.(live := s'.live, requests := s.requests[hash := s.requests[hash].(finished := true)],
                     latest := s.latest[(s.requests[hash].userId, s.requests[hash].kind) := hash])
       case Other(call) =>
         // A token of one of these kinds is inserted by a request only; a retry inserts nothing.
         && (call.Insert? ==> call.hash in s.live || (call.hash !in s.made && call.token.kind !in KEPT))
         && s' == s.(live := s'.live, made := if call.Insert? then s.made + {call.hash} else s.made)
  }

  /** A run: its states, and the step between each and the next. */
  datatype Run = Run(states: seq<State>, steps: seq<Step>)

  ghost predicate IsRun(r: Run) {
    |r.states| == |r.steps| + 1 && r.states[0] == EMPTY &&
    forall i :: 0 <= i < |r.steps| ==> Next(r.states[i], r.steps[i], r.states[i + 1])
  }

  // ----- what every step keeps

  predicate IsUnspent(live: Table, hash: string) {
    hash in live && live[hash].spentAt.None?
  }

  predicate IsFinished(s: State, hash: string) {
    hash in s.requests && s.requests[hash].finished
  }

  /** Tokens are made once, and those of the kept kinds by requests. */
  ghost predicate Tracked(s: State) {
    && s.live.Keys <= s.made && s.requests.Keys <= s.made
    && (forall h :: h in s.live && s.live[h].kind in KEPT ==>
          h in s.requests && s.requests[h].userId == s.live[h].userId && s.requests[h].kind == s.live[h].kind)
    && (forall h :: h in s.live && h in s.requests ==> s.live[h].kind in KEPT)
  }

  /** **A finished request's token is live only if no other request of its user and kind finished after it.** */
  ghost predicate OnlyLatest(s: State) {
    forall h :: IsFinished(s, h) && IsUnspent(s.live, h) ==>
      (s.requests[h].userId, s.requests[h].kind) in s.latest &&
      s.latest[(s.requests[h].userId, s.requests[h].kind)] == h
  }

  ghost predicate Inv(s: State) {
    Tracked(s) && OnlyLatest(s)
  }

  lemma StepKeepsTracked(s: State, step: Step, s': State)
    requires Tracked(s) && Next(s, step, s')
    ensures Tracked(s')
  {
    hide Tokens.Next;
    var call := CallOf(s, step);
    forall h | h in s'.live
      ensures h in s.live || (call.Insert? && call.hash == h && s'.live[h] == call.token)
      ensures h in s.live ==> s'.live[h].userId == s.live[h].userId && s'.live[h].kind == s.live[h].kind
    {
      CallKeeps(s.live, CallOf(s, step), h);
    }
  }

  lemma StepKeepsOnlyLatest(s: State, step: Step, s': State)
    requires Inv(s) && Next(s, step, s')
    ensures OnlyLatest(s')
  {
  }

  lemma {:induction false} Holds(r: Run, i: nat)
    requires IsRun(r) && i < |r.states|
    ensures Inv(r.states[i])
  {
    if i > 0 {
      assert Next(r.states[i - 1], r.steps[i - 1], r.states[i]);
      hide Next, Tracked, OnlyLatest;
      Holds(r, i - 1);
      StepKeepsTracked(r.states[i - 1], r.steps[i - 1], r.states[i]);
      StepKeepsOnlyLatest(r.states[i - 1], r.steps[i - 1], r.states[i]);
    }
  }

  /** **At most one token among finished requests of a user and kind is live**, at every moment of every run. */
  lemma OneLive(r: Run, i: nat, h: string, h': string)
    requires IsRun(r) && i < |r.states|
    requires IsFinished(r.states[i], h) && IsUnspent(r.states[i].live, h)
    requires IsFinished(r.states[i], h') && IsUnspent(r.states[i].live, h')
    requires r.states[i].requests[h].userId == r.states[i].requests[h'].userId
    requires r.states[i].requests[h].kind == r.states[i].requests[h'].kind
    ensures h == h'
  {
    Holds(r, i);
  }

  /** **Once every request of a user and kind finished, the user has one live token of it at most.** */
  lemma OneLiveOnceFinished(r: Run, i: nat, userId: string, kind: string)
    requires IsRun(r) && i < |r.states| && kind in KEPT
    requires forall h :: h in r.states[i].requests ==> r.states[i].requests[h] != Request(userId, kind, false)
    ensures |Unspent(r.states[i].live, userId, kind, "")| <= 1
  {
    Holds(r, i);
    var s := r.states[i];
    var live := Unspent(s.live, userId, kind, "");
    if live != {} {
      var h :| h in live;
      forall h' | h' in live ensures h' == h {
        assert IsFinished(s, h) && IsFinished(s, h') && IsUnspent(s.live, h) && IsUnspent(s.live, h');
      }
      assert live == {h};
    }
  }

  /** A request spares the token it issued: only another call can have spent it. */
  lemma SparesItsOwn(s: State, hash: string, at: int, s': State)
    requires Next(s, SpendOthers(hash, at), s') && hash in s.live
    ensures hash in s'.live && s'.live[hash] == s.live[hash]
    ensures Unspent(s'.live, s.requests[hash].userId, s.requests[hash].kind, hash) == {}
  {
  }

  // ----- and each token is spent by one call

  /** The calls a run makes on the store. */
  function CallsOf(r: Run): (calls: seq<Call>)
    requires |r.states| == |r.steps| + 1
    ensures |calls| == |r.steps|
  {
    seq(|r.steps|, i requires 0 <= i < |r.steps| => CallOf(r.states[i], r.steps[i]))
  }

  lemma {:induction false} CallsReach(r: Run, i: nat)
    requires IsRun(r) && i < |r.states|
    ensures After(map[], CallsOf(r)[..i]) == r.states[i].live
  {
    if i > 0 {
      CallsReach(r, i - 1);
      OneMore(map[], CallsOf(r), i - 1);
    }
  }

  lemma {:induction false} MadeStays(r: Run, m: nat, k: nat)
    requires IsRun(r) && m <= k < |r.states|
    ensures r.states[m].made <= r.states[k].made
    decreases k
  {
    if m < k { MadeStays(r, m, k - 1); }
  }

  /** Every run inserts each token once, as the store's own guarantees ask. */
  lemma RunIsFresh(r: Run)
    requires IsRun(r)
    ensures Fresh(map[], CallsOf(r))
  {
    var calls := CallsOf(r);
    forall k, m | 0 <= m <= k < |calls| && calls[k].Insert? && calls[k].hash in After(map[], calls[..m])
      ensures calls[k].hash in After(map[], calls[..k])
    {
      CallsReach(r, m);
      CallsReach(r, k);
      Holds(r, m);
      MadeStays(r, m, k);
      assert calls[k].hash in r.states[k].made;
      assert Next(r.states[k], r.steps[k], r.states[k + 1]);
    }
  }

  /**
   * **Each token is spent by one `consumeToken` or `spendUserTokens` call**,
   * however requests and redemptions race: the counts of all of them add up
   * to the tokens ever spent, and a token spent was spent by one of them.
   */
  lemma SpentExactlyOnce(r: Run, hash: string) returns (i: nat)
    requires IsRun(r) && hash in r.states[|r.steps|].live && r.states[|r.steps|].live[hash].spentAt.Some?
    requires hash in r.states[|r.steps|].requests
    ensures i < |r.steps| && hash in SpentBy(r.states[i].live, CallOf(r.states[i], r.steps[i]))
    ensures forall j :: 0 <= j < |r.steps| && j != i ==>
              hash !in SpentBy(r.states[j].live, CallOf(r.states[j], r.steps[j]))
    ensures Told(map[], CallsOf(r)) == |EverSpent(map[], CallsOf(r))|
  {
    var calls := CallsOf(r);
    RunIsFresh(r);
    CountsAddUp(map[], calls);
    CallsReach(r, |r.steps|);
    assert calls[..|calls|] == calls;
    forall j | 0 <= j < |r.steps| ensures After(map[], calls[..j]) == r.states[j].live {
      CallsReach(r, j);
    }
    forall k | 0 <= k < |calls| && calls[k].Insert? && calls[k].hash == hash
      ensures hash in After(map[], calls[..k]) || calls[k].token.spentAt.None?
    {
      InsertedUnspent(r, hash, k);
    }
    i := SpentBySome(map[], calls, hash);
    forall j | 0 <= j < |r.steps| && j != i
      ensures hash !in SpentBy(r.states[j].live, CallOf(r.states[j], r.steps[j]))
    {
      if i < j { SpentOnce(map[], calls, i, j); } else { SpentOnce(map[], calls, j, i); }
    }
  }

  lemma {:induction false} NeverRequested(r: Run, m: nat, k: nat, hash: string)
    requires IsRun(r) && m <= k < |r.states| && hash in r.states[m].made && hash !in r.states[m].requests
    ensures hash !in r.states[k].requests
    decreases k
  {
    if m < k {
      NeverRequested(r, m, k - 1, hash);
      MadeStays(r, m, k - 1);
    }
  }

  /** A request's token was inserted unspent; an insert of it that is not the request's wrote nothing. */
  lemma InsertedUnspent(r: Run, hash: string, k: nat)
    requires IsRun(r) && k < |r.steps| && hash in r.states[|r.steps|].requests
    requires CallOf(r.states[k], r.steps[k]).Insert? && CallOf(r.states[k], r.steps[k]).hash == hash
    ensures hash in r.states[k].live || CallOf(r.states[k], r.steps[k]).token.spentAt.None?
  {
    assert Next(r.states[k], r.steps[k], r.states[k + 1]);
    Holds(r, k);
    if r.steps[k].Other? && hash !in r.states[k].live { NeverRequested(r, k + 1, |r.steps|, hash); }
  }

  // ----- and nothing else is spent

  /** **A request spends its own user's tokens of its own kind, but its own**, and no other. */
  lemma SpendsItsKindOnly(s: State, hash: string, at: int, s': State)
    requires Next(s, SpendOthers(hash, at), s')
    ensures s'.live.Keys == s.live.Keys
    ensures forall h :: h in s.live ==>
              if s.live[h].userId == s.requests[hash].userId && s.live[h].kind == s.requests[hash].kind && h != hash &&
                 s.live[h].spentAt.None?
              then s'.live[h].spentAt == Some(at) else s'.live[h] == s.live[h]
  {
    SpendUserIs(s.live, s.requests[hash].userId, s.requests[hash].kind, at, hash);
  }
}
