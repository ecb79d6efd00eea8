/**
 * Any number of sign-ins by password and of password writers, of any number
 * of users, interleaved step by step: a writer writes, then spends the
 * challenges waiting; a sign-in verifies, issues, then reads the user again.
 */
module ByPassword {
  import opened Std
  import Sessions
  import opened Tokens

  /** A stored hash: salted, and matching one password only. */
  datatype Hash = Hash(password: string, salt: string)

  /** `version` moves on every write of the record; `writes` counts those that set another password or none. */
  datatype User = User(password: Option<Hash>, version: nat, writes: nat)

  /** What a sign-in opens: a session, or a challenge for the second factor. */
  datatype Result = SignedIn(id: string) | Challenged(hash: string)

  datatype Phase =
    | Verified
    | Opened(result: Result)      // the session or the challenge written
    | Refusing(result: Result)    // read again, and the password is another's
    | Kept(result: Result)
    | Refused(result: Result)     // revoked, or spent

  /** `verified` is the user as read, or as rehashed. */
  datatype SignIn = SignIn(userId: string, password: string, verified: User, phase: Phase)

  /** `deletes` for the deletion of the user, which deletes their tokens rather than spend them. */
  datatype Writer = Writer(userId: string, deletes: bool, done: bool)

  /** `known` holds every user id ever given, `made` every session id and token hash: none is minted again. */
  datatype State = State(
    users: map<string, User>, known: set<string>,
    tokens: Table, sessions: Sessions.Table, made: set<Result>,
    signIns: map<string, SignIn>,
    writers: map<string, Writer>)

  const EMPTY := State(map[], {}, map[], map[], {}, map[], map[])

  const SECOND_FACTOR := "secondFactor"

  datatype Step =
    | SignUp(userId: string, stored: Option<Hash>)
    | Touch(userId: string)                                       // any write but the password's
    | Write(w: string, userId: string, stored: Option<Hash>)      // a change, a set, a reset, a first proof
    | Delete(w: string, userId: string)
    | EndOpened(w: string, at: int)                               // the writer's spend, or the deletion's
    | Verify(s: string, userId: string, password: string)
    | Rehash(s: string, salt: string)
    | OpenSession(s: string, id: string, session: Sessions.Session)
    | OpenChallenge(s: string, hash: string, token: Token)
    | Reread(s: string)
    | Refuse(s: string, at: int)
    | OtherToken(call: Call)                                      // redemptions, attempts, expiries, other kinds
    | OtherSessions(sessions: Sessions.Table)                     // extensions, revocations, expiries

  /** `heldByPassword`'s comparison, of the user read now with the one verified. */
  predicate Holds(now: Option<User>, verified: User, password: string) {
    && now.Some? && now.value.password.Some?
    && (now.value.password == verified.password || now.value.password.value.password == password)
  }

  function UserOf(s: State, userId: string): Option<User> {
    if userId in s.users then Some(s.users[userId]) else None
  }

  function Written(user: User, password: Option<Hash>): User {
    User(password, user.version + 1, user.writes + 1)
  }

  /** What ending a refused sign-in leaves of the sessions, and of the tokens. */
  function Revoking(sessions: Sessions.Table, result: Result, at: int): Sessions.Table {
    if result.SignedIn? && result.id in sessions && sessions[result.id].revokedAt.None?
    then Sessions.Revoked(sessions, {result.id}, at) else sessions
  }

  function Burning(tokens: Table, result: Result, at: int): Table {
    if result.Challenged? then Spent(tokens, Consumes(tokens, result.hash, SECOND_FACTOR), at) else tokens
  }

  /** A session revoked never stands again, whatever else happens to it; and a new one has a new id. */
  ghost predicate MovesOn(s: State, sessions: Sessions.Table) {
    forall id :: id in sessions && SignedIn(id) in s.made ==>
      id in s.sessions && (s.sessions[id].revokedAt.Some? ==> sessions[id].revokedAt == s.sessions[id].revokedAt)
  }

  ghost predicate Next(s: State, step: Step, s': State) {
    match step
    case SignUp(userId, stored) =>
      userId !in s.known &&
      s' == s.(known := s.known + {userId}, users := s.users[userId := User(stored, 0, 0)])
    case Touch(userId) =>
      userId in s.users &&
      s' == s.(users := s.users[userId := s.users[userId].(version := s.users[userId].version + 1)])
    case Write(w, userId, stored) =>
      userId in s.users && w !in s.writers &&
      s' == s.(users := s.users[userId := Written(s.users[userId], stored)],
               writers := s.writers[w := Writer(userId, false, false)])
    case Delete(w, userId) =>
      w !in s.writers && s' == s.(users := s.users - {userId}, writers := s.writers[w := Writer(userId, true, false)])
    case EndOpened(w, at) =>
      w in s.writers && !s.writers[w].done &&
      s' == s.(writers := s.writers[w := s.writers[w].(done := true)],
               tokens := if s.writers[w].deletes then s.tokens - OfUser(s.tokens, s.writers[w].userId)
                         else Spent(s.tokens, Unspent(s.tokens, s.writers[w].userId, SECOND_FACTOR, ""), at))
    case Verify(i, userId, password) =>
      i !in s.signIns && userId in s.users && s.users[userId].password.Some? &&
      s.users[userId].password.value.password == password &&
      s' == s.(signIns := s.signIns[i := SignIn(userId, password, s.users[userId], Verified)])
    case Rehash(i, salt) =>
      // Under the version read; losing that race changes nothing.
      i in s.signIns && s.signIns[i].phase.Verified? &&
      var userId, read := s.signIns[i].userId, s.signIns[i].verified;
      if userId in s.users && s.users[userId].version == read.version then
        var user := s.users[userId].(password := Some(Hash(s.signIns[i].password, salt)), version := read.version + 1);
        s' == s.(users := s.users[userId := user], signIns := s.signIns[i := s.signIns[i].(verified := user)])
      else s' == s
    case OpenSession(i, id, session) =>
      i in s.signIns && s.signIns[i].phase.Verified? && SignedIn(id) !in s.made &&
      session.userId == s.signIns[i].userId &&
      s' == s.(sessions := s.sessions[id := session], made := s.made + {SignedIn(id)},
               signIns := s.signIns[i := s.signIns[i].(phase := Opened(SignedIn(id)))])
    case OpenChallenge(i, hash, token) =>
      i in s.signIns && s.signIns[i].phase.Verified? && Challenged(hash) !in s.made && hash != "" &&
      token.userId == s.signIns[i].userId && token.kind == SECOND_FACTOR &&
      s' == s.(tokens := Inserted(s.tokens, hash, token), made := s.made + {Challenged(hash)},
               signIns := s.signIns[i := s.signIns[i].(phase := Opened(Challenged(hash)))])
    case Reread(i) =>
      i in s.signIns && s.signIns[i].phase.Opened? &&
      var one := s.signIns[i];
      var kept := Holds(UserOf(s, one.userId), one.verified, one.password);
      var phase := if kept then Kept(one.phase.result) else Refusing(one.phase.result);
      s' == s.(signIns := s.signIns[i := one.(phase := phase)])
    case Refuse(i, at) =>
      i in s.signIns && s.signIns[i].phase.Refusing? &&
      var result := s.signIns[i].phase.result;
      s' == s.(sessions := Revoking(s.sessions, result, at), tokens := Burning(s.tokens, result, at),
               signIns := s.signIns[i := s.signIns[i].(phase := Refused(result))])
    case OtherToken(call) =>
      (call.Insert? ==> call.hash in s.tokens || Challenged(call.hash) !in s.made) &&
      s' == s.(tokens := Tokens.Next(s.tokens, call),
               made := if call.Insert? then s.made + {Challenged(call.hash)} else s.made)
    case OtherSessions(sessions) =>
      MovesOn(s, sessions) &&
      s' == s.(sessions := sessions, made := s.made + set id | id in sessions :: SignedIn(id))
  }

  /** A run: its states, and the step between each and the next. */
  datatype Run = Run(states: seq<State>, steps: seq<Step>)

  ghost predicate IsRun(r: Run) {
    |r.states| == |r.steps| + 1 && r.states[0] == EMPTY &&
    forall i :: 0 <= i < |r.steps| ==> Next(r.states[i], r.steps[i], r.states[i + 1])
  }

  // ----- what every step keeps

  /** The password the user holds. */
  predicate StillHolds(s: State, userId: string, password: string) {
    userId in s.users && s.users[userId].password.Some? && s.users[userId].password.value.password == password
  }

  /** Some writer of this user wrote, and has not spent yet. */
  ghost predicate BetweenWriteAndSpend(s: State, userId: string) {
    exists w :: w in s.writers && s.writers[w].userId == userId && !s.writers[w].done
  }

  predicate ChallengeLive(s: State, hash: string) {
    hash in s.tokens && s.tokens[hash].spentAt.None?
  }

  predicate SessionLive(s: State, id: string) {
    id in s.sessions && s.sessions[id].revokedAt.None?
  }

  predicate Live(s: State, result: Result) {
    match result
    case SignedIn(id) => SessionLive(s, id)
    case Challenged(hash) => ChallengeLive(s, hash)
  }

  /** A password read under a version, or under a count of writes, is the user's while that stays. */
  ghost predicate ReadRight(s: State, one: SignIn) {
    && one.verified.password.Some? && one.verified.password.value.password == one.password
    && one.userId in s.known
    && (one.userId in s.users ==>
          && one.verified.version <= s.users[one.userId].version && one.verified.writes <= s.users[one.userId].writes
          && (one.verified.writes == s.users[one.userId].writes ==> StillHolds(s, one.userId, one.password))
          && (one.verified.version == s.users[one.userId].version ==> one.verified == s.users[one.userId]))
  }

  /** A challenge is its user's, of its kind; and what a sign-in opened was made. */
  ghost predicate OpenedRight(s: State, one: SignIn) {
    !one.phase.Verified? ==>
      && one.phase.result in s.made && one.phase.result != Challenged("")
      && (one.phase.result.Challenged? && one.phase.result.hash in s.tokens ==>
            s.tokens[one.phase.result.hash].userId == one.userId &&
            s.tokens[one.phase.result.hash].kind == SECOND_FACTOR)
  }

  /** **A challenge of a sign-in kept is spent, or its password still held, or a writer is about to spend it.** */
  ghost predicate KeptHolds(s: State, one: SignIn) {
    one.phase.Kept? && one.phase.result.Challenged? && ChallengeLive(s, one.phase.result.hash) ==>
      StillHolds(s, one.userId, one.password) || BetweenWriteAndSpend(s, one.userId)
  }

  /** **A sign-in refused leaves nothing live.** */
  ghost predicate RefusedLeavesNothing(s: State, one: SignIn) {
    one.phase.Refused? ==> !Live(s, one.phase.result)
  }

  ghost predicate Right(s: State, one: SignIn) {
    ReadRight(s, one) && OpenedRight(s, one) && KeptHolds(s, one) && RefusedLeavesNothing(s, one)
  }

  ghost predicate Made(s: State) {
    && s.users.Keys <= s.known
    && (forall h :: h in s.tokens ==> Challenged(h) in s.made)
    && (forall id :: id in s.sessions ==> SignedIn(id) in s.made)
  }

  ghost predicate Inv(s: State) {
    && Made(s)
    && (forall i :: i in s.signIns ==> Right(s, s.signIns[i]))
  }

  /** Tokens and sessions once made never come back, and once ended stay ended. */
  ghost predicate TokensMoveOn(s: State, tokens: Table) {
    forall h :: h in tokens && Challenged(h) in s.made ==>
      h in s.tokens && tokens[h].userId == s.tokens[h].userId && tokens[h].kind == s.tokens[h].kind &&
      (s.tokens[h].spentAt.Some? ==> tokens[h].spentAt.Some?)
  }

  lemma CallsMoveOn(s: State, call: Call)
    requires Made(s) && (call.Insert? ==> call.hash in s.tokens || Challenged(call.hash) !in s.made)
    ensures TokensMoveOn(s, Tokens.Next(s.tokens, call))
  {
  }

  lemma NextMovesOn(s: State, step: Step, s': State)
    requires Made(s) && Next(s, step, s')
    ensures s.made <= s'.made && TokensMoveOn(s, s'.tokens) && MovesOn(s, s'.sessions)
  {
    match step
    case OtherToken(call) => CallsMoveOn(s, call);
    case _ =>
  }

  lemma StepKeepsMade(s: State, step: Step, s': State)
    requires Made(s) && Next(s, step, s')
    ensures Made(s')
  {
  }

  lemma StepKeepsRead(s: State, step: Step, s': State, i: string)
    requires Made(s) && Next(s, step, s') && i in s'.signIns
    requires i in s.signIns ==> ReadRight(s, s.signIns[i])
    requires step.Rehash? ==> ReadRight(s, s.signIns[step.s])
    ensures ReadRight(s', s'.signIns[i])
  {
  }

  /** What a step makes of one sign-in that had opened something already. */
  lemma StepMovesPhase(s: State, step: Step, s': State, i: string)
    requires Next(s, step, s') && i in s.signIns
    ensures i in s'.signIns && s'.signIns[i].userId == s.signIns[i].userId &&
            s'.signIns[i].password == s.signIns[i].password
    ensures !s.signIns[i].phase.Verified? ==>
              !s'.signIns[i].phase.Verified? && s'.signIns[i].phase.result == s.signIns[i].phase.result
    ensures s'.signIns[i].phase.Kept? && !s.signIns[i].phase.Kept? ==>
              step == Reread(i) && Holds(UserOf(s, s.signIns[i].userId), s.signIns[i].verified, s.signIns[i].password)
    ensures s'.signIns[i].phase.Refused? && !s.signIns[i].phase.Refused? ==>
              step.Refuse? && step.s == i && s.signIns[i].phase.Refusing?
  {
  }

  lemma StepKeepsOpened(s: State, step: Step, s': State, i: string)
    requires Made(s) && Next(s, step, s') && i in s'.signIns
    requires i in s.signIns ==> OpenedRight(s, s.signIns[i])
    ensures OpenedRight(s', s'.signIns[i])
  {
  }

  lemma StepKeepsKept(s: State, step: Step, s': State, i: string)
    requires Made(s) && Next(s, step, s') && i in s'.signIns && i in s.signIns
    requires ReadRight(s, s.signIns[i]) && OpenedRight(s, s.signIns[i]) && KeptHolds(s, s.signIns[i])
    requires step.Rehash? ==> ReadRight(s, s.signIns[step.s])
    ensures KeptHolds(s', s'.signIns[i])
  {
    hide Next, StillHolds, BetweenWriteAndSpend, Holds;
    NextMovesOn(s, step, s');
    StepMovesPhase(s, step, s', i);
    var one := s'.signIns[i];
    if one.phase.Kept? && one.phase.result.Challenged? && ChallengeLive(s', one.phase.result.hash) {
      if !s.signIns[i].phase.Kept? {
        HeldByRead(s, one.userId, s.signIns[i].verified, one.password);
      }
      if StillHolds(s, one.userId, one.password) {
        WriterLeavesTrace(s, step, s', one.userId, one.password);
      } else {
        WriterWaits(s, step, s', one.userId, one.phase.result.hash);
      }
    }
  }

  /** The comparison of `heldByPassword` tells whether the password is still the user's. */
  lemma HeldByRead(s: State, userId: string, verified: User, password: string)
    requires Holds(UserOf(s, userId), verified, password)
    requires verified.password.Some? && verified.password.value.password == password
    ensures StillHolds(s, userId, password)
  {
  }

  /** While a challenge is live, a writer that was to spend it still is. */
  lemma WriterWaits(s: State, step: Step, s': State, userId: string, hash: string)
    requires Next(s, step, s') && BetweenWriteAndSpend(s, userId) && ChallengeLive(s', hash)
    requires hash in s.tokens && s.tokens[hash].userId == userId && s.tokens[hash].kind == SECOND_FACTOR && hash != ""
    ensures BetweenWriteAndSpend(s', userId)
  {
    var w :| w in s.writers && s.writers[w].userId == userId && !s.writers[w].done;
    assert !(step.EndOpened? && step.w == w);
    assert w in s'.writers && s'.writers[w] == s.writers[w];
  }

  /** A password stops being held by a write alone, whose writer then has to spend. */
  lemma WriterLeavesTrace(s: State, step: Step, s': State, userId: string, password: string)
    requires Made(s) && Next(s, step, s') && StillHolds(s, userId, password)
    requires step.Rehash? ==> ReadRight(s, s.signIns[step.s])
    ensures StillHolds(s', userId, password) || BetweenWriteAndSpend(s', userId)
  {
    match step
    case Write(w, u, _) => assert w in s'.writers;
    case Delete(w, u) => assert w in s'.writers;
    case _ =>
  }

  lemma StepKeepsRefused(s: State, step: Step, s': State, i: string)
    requires Made(s) && Next(s, step, s') && i in s'.signIns && i in s.signIns
    requires OpenedRight(s, s.signIns[i]) && RefusedLeavesNothing(s, s.signIns[i])
    ensures RefusedLeavesNothing(s', s'.signIns[i])
  {
    NextMovesOn(s, step, s');
    StepMovesPhase(s, step, s', i);
    if s'.signIns[i].phase.Refused? && !s.signIns[i].phase.Refused? { RefusingEnds(s, i, step.at, s'); }
  }

  lemma RefusingEnds(s: State, i: string, at: int, s': State)
    requires Next(s, Refuse(i, at), s') && OpenedRight(s, s.signIns[i])
    ensures !Live(s', s.signIns[i].phase.result)
  {
  }

  lemma StepKeepsInv(s: State, step: Step, s': State)
    requires Inv(s) && Next(s, step, s')
    ensures Inv(s')
  {
    StepKeepsMade(s, step, s');
    forall i | i in s'.signIns ensures Right(s', s'.signIns[i]) {
      if i in s.signIns { assert Right(s, s.signIns[i]); }
      if step.Rehash? { assert Right(s, s.signIns[step.s]); }
      StepKeepsRead(s, step, s', i);
      StepKeepsOpened(s, step, s', i);
      if i in s.signIns {
        StepKeepsKept(s, step, s', i);
        StepKeepsRefused(s, step, s', i);
      } else {
        assert step.Verify?;
      }
    }
  }

  lemma {:induction false} AlwaysRight(r: Run, n: nat)
    requires IsRun(r) && n < |r.states|
    ensures Inv(r.states[n])
  {
    if n > 0 {
      assert Next(r.states[n - 1], r.steps[n - 1], r.states[n]);
      hide Next, Inv;
      AlwaysRight(r, n - 1);
      StepKeepsInv(r.states[n - 1], r.steps[n - 1], r.states[n]);
    } else {
      assert Made(EMPTY);
    }
  }

  // ----- what no interleaving breaks

  /** No sign-in of this user is between opening something and having read again and, when refused, ended it. */
  ghost predicate NoSignInOpen(s: State, userId: string) {
    forall i :: i in s.signIns && s.signIns[i].userId == userId ==>
      !s.signIns[i].phase.Opened? && !s.signIns[i].phase.Refusing?
  }

  /**
   * **Whenever no sign-in of a user is half-way and no writer of theirs is
   * between write and spend, every challenge live was opened with the
   * password the user still holds.**
   */
  lemma ChallengesHoldThePassword(r: Run, n: nat, i: string)
    requires IsRun(r) && n < |r.states| && i in r.states[n].signIns
    requires var s, one := r.states[n], r.states[n].signIns[i];
             NoSignInOpen(s, one.userId) && !BetweenWriteAndSpend(s, one.userId) &&
             !one.phase.Verified? && one.phase.result.Challenged? && Live(s, one.phase.result)
    ensures StillHolds(r.states[n], r.states[n].signIns[i].userId, r.states[n].signIns[i].password)
  {
    AlwaysRight(r, n);
    assert Right(r.states[n], r.states[n].signIns[i]);
  }

  /** **A sign-in told no leaves neither session nor challenge live**, then or ever after. */
  lemma RefusedIsOver(r: Run, n: nat, i: string)
    requires IsRun(r) && n < |r.states| && i in r.states[n].signIns && r.states[n].signIns[i].phase.Refused?
    ensures !Live(r.states[n], r.states[n].signIns[i].phase.result)
  {
    AlwaysRight(r, n);
    assert Right(r.states[n], r.states[n].signIns[i]);
  }

  /**
   * A sign-in is kept exactly when the password it verified is still the
   * user's: a hash rewritten meanwhile with the same password is not a change.
   */
  lemma KeptWhenHeld(r: Run, n: nat, i: string)
    requires IsRun(r) && n < |r.steps| && r.steps[n] == Reread(i)
    ensures i in r.states[n].signIns && i in r.states[n + 1].signIns
    ensures r.states[n + 1].signIns[i].phase.Kept? <==>
            StillHolds(r.states[n], r.states[n].signIns[i].userId, r.states[n].signIns[i].password)
  {
    AlwaysRight(r, n);
    assert Next(r.states[n], r.steps[n], r.states[n + 1]);
    assert Right(r.states[n], r.states[n].signIns[i]);
  }

  /** **A sign-in no password write crosses is kept**, whoever rehashes and whatever else is written meanwhile. */
  lemma UndisturbedIsKept(r: Run, n: nat, i: string)
    requires IsRun(r) && n < |r.steps| && r.steps[n] == Reread(i)
    requires i in r.states[n].signIns && r.states[n].signIns[i].userId in r.states[n].users
    requires r.states[n].users[r.states[n].signIns[i].userId].writes == r.states[n].signIns[i].verified.writes
    ensures i in r.states[n + 1].signIns && r.states[n + 1].signIns[i].phase.Kept?
  {
    AlwaysRight(r, n);
    assert Right(r.states[n], r.states[n].signIns[i]);
    KeptWhenHeld(r, n, i);
  }

  // ----- and nothing else is touched

  function SetOnce(was: Option<int>, at: int): Option<int> {
    if was.Some? then was else Some(at)
  }

  /** **Ending a refused sign-in ends what it opened and nothing else.** */
  lemma RefusalIs(s: State, i: string, at: int, s': State)
    requires Next(s, Refuse(i, at), s')
    ensures var result := s.signIns[i].phase.result;
            && s'.users == s.users && s'.writers == s.writers
            && s'.sessions.Keys == s.sessions.Keys && s'.tokens.Keys == s.tokens.Keys
            && (forall x :: x in s.sessions && result != SignedIn(x) ==> s'.sessions[x] == s.sessions[x])
            && (forall h :: h in s.tokens && result != Challenged(h) ==> s'.tokens[h] == s.tokens[h])
            && (result.SignedIn? && result.id in s.sessions ==>
                  s'.sessions[result.id].revokedAt == SetOnce(s.sessions[result.id].revokedAt, at))
            && (result.Challenged? && result.hash in s.tokens && s.tokens[result.hash].kind == SECOND_FACTOR ==>
                  s'.tokens[result.hash].spentAt == SetOnce(s.tokens[result.hash].spentAt, at))
  {
    var result := s.signIns[i].phase.result;
    if result.Challenged? { ConsumeIs(s.tokens, result.hash, SECOND_FACTOR, at); }
  }

  /** **A writer ends its own user's challenges**: no session, no other user's token, and none of another kind. */
  lemma EndingIs(s: State, w: string, at: int, s': State)
    requires Next(s, EndOpened(w, at), s')
    ensures s'.users == s.users && s'.sessions == s.sessions && s'.signIns == s.signIns
    ensures forall h :: h in s.tokens && s.tokens[h].userId != s.writers[w].userId ==>
              h in s'.tokens && s'.tokens[h] == s.tokens[h]
    ensures !s.writers[w].deletes ==>
              s'.tokens.Keys == s.tokens.Keys &&
              forall h :: h in s.tokens && s.tokens[h].userId == s.writers[w].userId ==>
                if s.tokens[h].kind == SECOND_FACTOR && s.tokens[h].spentAt.None? && h != ""
                then s'.tokens[h].spentAt == Some(at) else s'.tokens[h] == s.tokens[h]
    ensures s.writers[w].deletes ==>
              forall h :: h in s'.tokens <==> h in s.tokens && s.tokens[h].userId != s.writers[w].userId
  {
    SpendUserIs(s.tokens, s.writers[w].userId, SECOND_FACTOR, at, "");
  }

  /** A rehash keeps the password, whoever's it is, and counts as no write of one. */
  lemma RehashIs(s: State, i: string, salt: string, s': State)
    requires Inv(s) && Next(s, Rehash(i, salt), s')
    ensures s'.users.Keys == s.users.Keys && s'.tokens == s.tokens && s'.sessions == s.sessions
    ensures forall u :: u in s.users ==>
              s'.users[u].writes == s.users[u].writes &&
              (s'.users[u].password.Some? <==> s.users[u].password.Some?) &&
              (s.users[u].password.Some? ==>
                 s'.users[u].password.value.password == s.users[u].password.value.password)
  {
    hide KeptHolds, RefusedLeavesNothing, OpenedRight;
  }
}
