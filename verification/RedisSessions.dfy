/**
 * Sessions over Redis: a hash per session, a key per token hash pointing at
 * it, and a set per user, each expiring on its own. Each method is one
 * script, atomic at one instant.
 */
module RedisSessions {
  import opened Sessions
  import opened Std
  import opened UserSets

  // ----- the keys, and what they stand for

  type Keys = map<string, Keyed<Session>>
  type Tokens = map<string, Keyed<string>>

  function TableOf(sessions: Keys): (live: Table)
    ensures live.Keys == sessions.Keys
  {
    map id | id in sessions :: sessions[id].value
  }

  lemma LiveAt(sessions: Keys, id: string)
    requires id in sessions
    ensures TableOf(sessions)[id] == sessions[id].value
    ensures id in EntriesOf(sessions) && EntriesOf(sessions)[id].user == sessions[id].value.userId
  {
  }

  function EntriesOf(sessions: Keys): UserSets.Live {
    map id | id in sessions :: Entry(sessions[id].value.userId, sessions[id].until)
  }

  lemma EntriesKeys(sessions: Keys)
    ensures EntriesOf(sessions).Keys == sessions.Keys
  {
  }

  /** Every session's key expires when it says, and its token points at it and expires with it. */
  ghost predicate Pointed(sessions: Keys, tokens: Tokens, now: int) {
    && (forall id :: id in sessions ==> now < sessions[id].until == sessions[id].value.expiresAt)
    && (forall id :: id in sessions ==>
          sessions[id].value.tokenHash in tokens &&
          tokens[sessions[id].value.tokenHash] == Keyed(id, sessions[id].until))
    && (forall h :: h in tokens ==> tokens[h].value in sessions && sessions[tokens[h].value].value.tokenHash == h)
  }

  /** Every session is in its user's set, which expires no earlier. */
  ghost predicate InSets(sessions: Keys, users: Sets, now: int) {
    Indexes(users, EntriesOf(sessions)) && Tidy(users, EntriesOf(sessions), now)
  }

  lemma AddPoints(sessions: Keys, tokens: Tokens, now: int, id: string, session: Session)
    requires Pointed(sessions, tokens, now) && id !in sessions && session.tokenHash !in tokens &&
             now < session.expiresAt
    ensures var more := sessions[id := Keyed(session, session.expiresAt)];
            && Pointed(more, tokens[session.tokenHash := Keyed(id, session.expiresAt)], now)
            && TableOf(more) == TableOf(sessions)[id := session]
            && EntriesOf(more) == EntriesOf(sessions)[id := Entry(session.userId, session.expiresAt)]
  {
  }

  lemma SetOfUser(sessions: Keys, users: Sets, now: int, userId: string)
    requires InSets(sessions, users, now)
    ensures userId in users ==> users[userId].ids != {}
  {
  }

  lemma AddIndexes(sessions: Keys, users: Sets, now: int, id: string, session: Session)
    requires InSets(sessions, users, now) && id !in sessions && now < session.expiresAt
    ensures var more := sessions[id := Keyed(session, session.expiresAt)];
            InSets(more, Added(users, session.userId, more.Keys, id, session.expiresAt, now), now) <==>
            LeftToNoOther(users, id, session.userId)
  {
    var more := sessions[id := Keyed(session, session.expiresAt)];
    assert EntriesOf(more) == EntriesOf(sessions)[id := Entry(session.userId, session.expiresAt)];
    EntriesKeys(sessions);
    hide Indexes, Tidy, Added, LeftToNoOther, EntriesOf;
    AddKeeps(users, EntriesOf(sessions), now, more.Keys, id, session.userId, session.expiresAt);
  }

  lemma AddPastIndexes(sessions: Keys, users: Sets, now: int, id: string, session: Session)
    requires InSets(sessions, users, now) && id !in sessions && session.expiresAt <= now
    ensures InSets(sessions, Added(users, session.userId, sessions.Keys, id, session.expiresAt, now), now)
  {
    EntriesKeys(sessions);
    hide Indexes, Tidy, Added, LeftToNoOther, EntriesOf;
    AddPastKeeps(users, EntriesOf(sessions), now, sessions.Keys, id, session.userId, session.expiresAt);
  }

  lemma MovePoints(sessions: Keys, tokens: Tokens, now: int, id: string, session: Session)
    requires Pointed(sessions, tokens, now) && id in sessions && now < session.expiresAt
    requires session == sessions[id].value.(expiresAt := session.expiresAt)
    ensures var moved := sessions[id := Keyed(session, session.expiresAt)];
            && Pointed(moved, tokens[session.tokenHash := Keyed(id, session.expiresAt)], now)
            && TableOf(moved) == TableOf(sessions)[id := session]
            && EntriesOf(moved) == EntriesOf(sessions)[id := EntriesOf(sessions)[id].(until := session.expiresAt)]
  {
  }

  lemma DropPoints(sessions: Keys, tokens: Tokens, now: int, id: string)
    requires Pointed(sessions, tokens, now) && id in sessions
    ensures Pointed(sessions - {id}, tokens - {sessions[id].value.tokenHash}, now)
    ensures TableOf(sessions - {id}) == TableOf(sessions) - {id}
    ensures EntriesOf(sessions - {id}) == EntriesOf(sessions) - {id}
  {
  }

  lemma RewritePoints(sessions: Keys, tokens: Tokens, now: int, id: string, session: Session)
    requires Pointed(sessions, tokens, now) && id in sessions
    requires session == sessions[id].value.(authenticatedAt := session.authenticatedAt, revokedAt := session.revokedAt)
    ensures var again := sessions[id := sessions[id].(value := session)];
            && Pointed(again, tokens, now)
            && TableOf(again) == TableOf(sessions)[id := session] && EntriesOf(again) == EntriesOf(sessions)
  {
  }

  lemma ExpiryPoints(sessions: Keys, tokens: Tokens, now: int, to: int)
    requires Pointed(sessions, tokens, now) && now <= to
    ensures var left := map id | id in sessions && to < sessions[id].until :: sessions[id];
            var kept := map h | h in tokens && to < tokens[h].until :: tokens[h];
            && Pointed(left, kept, to)
            && TableOf(left) ==
              (map id | id in TableOf(sessions) && to < TableOf(sessions)[id].expiresAt :: TableOf(sessions)[id])
            && EntriesOf(left) ==
              (map id | id in EntriesOf(sessions) && to < EntriesOf(sessions)[id].until :: EntriesOf(sessions)[id])
  {
  }

  /** A token hash is held by no session when no key is there for it. */
  lemma TokenTells(sessions: Keys, tokens: Tokens, now: int, tokenHash: string)
    requires Pointed(sessions, tokens, now)
    ensures (exists id :: id in TableOf(sessions) && TableOf(sessions)[id].tokenHash == tokenHash) <==>
              tokenHash in tokens
    ensures tokenHash in tokens ==> tokens[tokenHash].value in sessions &&
                                    sessions[tokens[tokenHash].value].value.tokenHash == tokenHash
  {
    if tokenHash in tokens { assert tokens[tokenHash].value in TableOf(sessions); }
  }

  /** A member whose session is gone may leave its set. */
  lemma ForgetKeeps(sessions: Keys, users: Sets, now: int, userId: string, id: string)
    requires InSets(sessions, users, now) && id !in sessions && userId in users
    ensures var left := users[userId].ids - {id};
            InSets(sessions, if left == {} then users - {userId} else users[userId := users[userId].(ids := left)], now)
  {
  }

  /** A set no session needs may go. */
  lemma UserForgotten(sessions: Keys, users: Sets, now: int, userId: string)
    requires InSets(sessions, users, now) && OfUser(TableOf(sessions), userId) == {}
    ensures InSets(sessions, users - {userId}, now)
  {
    assert forall id :: id in sessions ==> id !in OfUser(TableOf(sessions), userId);
  }

  lemma TableWithout(sessions: Keys, ids: set<string>)
    ensures TableOf(sessions - ids) == TableOf(sessions) - ids
  {
  }

  function Without(sessions: Keys, ids: set<string>): Keys {
    sessions - ids
  }

  lemma WithoutOneMore(sessions: Keys, done: set<string>, id: string)
    ensures Without(sessions, done) - {id} == Without(sessions, done + {id})
    ensures id !in done ==> (id in Without(sessions, done) <==> id in sessions)
  {
  }

  /** Sessions deleted leave their members behind. */
  lemma WithoutKeeps(sessions: Keys, users: Sets, now: int, ids: set<string>)
    requires InSets(sessions, users, now)
    ensures InSets(sessions - ids, users, now)
  {
    assert EntriesOf(sessions - ids) == EntriesOf(sessions) - ids;
  }

  lemma RecordsOf(sessions: Keys, users: Sets, now: int, userId: string)
    requires InSets(sessions, users, now)
    ensures OfUser(TableOf(sessions), userId) == Kept(users, userId, sessions.Keys)
  {
  }

  class RedisSessions {
    var sessions: Keys
    var tokens: Tokens
    var users: Sets
    var now: int

    ghost function Live(): Table
      reads this
    {
      TableOf(sessions)
    }

    ghost predicate Valid()
      reads this
    {
      Pointed(sessions, tokens, now) && InSets(sessions, users, now)
    }

    constructor (now: int)
      ensures Valid() && Live() == map[] && users == map[] && this.now == now
    {
      sessions, tokens, users := map[], map[], map[];
      this.now := now;
    }

    /** Time passes: Redis drops, on its own, every key whose instant has come. */
    method Advance(to: int)
      requires Valid() && now <= to
      modifies this
      ensures Valid() && now == to
      ensures Live() == map id | id in old(Live()) && to < old(Live())[id].expiresAt :: old(Live())[id]
      ensures users == Expired(old(users), to)
    {
      hide Pointed, Indexes, Tidy, TableOf, EntriesOf, Expired;
      ExpiryPoints(sessions, tokens, now, to);
      ExpiryKeeps(users, EntriesOf(sessions), now, to);
      sessions := map id | id in sessions && to < sessions[id].until :: sessions[id];
      tokens := map h | h in tokens && to < tokens[h].until :: tokens[h];
      users := Expired(users, to);
      now := to;
    }

    /**
     * Written; or a retry, which writes nothing; or refused, the token hash
     * being another session's. **The sets go on agreeing with the sessions,
     * exactly unless the id is still in a set of another user's**, where a
     * session of that id expired.
     */
    method InsertSession(id: string, session: Session) returns (answer: Insertion)
      requires Valid()
      modifies this`sessions, this`tokens, this`users
      ensures answer == InsertionOf(old(Live()), id, session)
      ensures Live() == if answer == Written && session.expiresAt > now then old(Live())[id := session] else old(Live())
      ensures Pointed(sessions, tokens, now) && users - {session.userId} == old(users) - {session.userId}
      ensures Gains(old(users), users, session.userId, id)
      ensures Valid() <==> (answer == Written && session.expiresAt > now ==>
                              LeftToNoOther(old(users), id, session.userId))
    {
      hide Pointed, InSets, TableOf;
      TokenTells(sessions, tokens, now, session.tokenHash);
      if id in sessions { return Retry; }
      if session.tokenHash in tokens && tokens[session.tokenHash].value != id { return Refused; }
      AddSession(id, session);
      return Written;
    }

    /** The record, its token and its place in its user's set, written in one step. */
    method AddSession(id: string, session: Session)
      requires Valid() && id !in sessions && session.tokenHash !in tokens
      modifies this`sessions, this`tokens, this`users
      ensures Live() == if session.expiresAt > now then old(Live())[id := session] else old(Live())
      ensures Pointed(sessions, tokens, now) && users - {session.userId} == old(users) - {session.userId}
      ensures Gains(old(users), users, session.userId, id)
      ensures Valid() <==> (session.expiresAt > now ==> LeftToNoOther(old(users), id, session.userId))
    {
      hide Pointed, InSets, TableOf, Added, LeftToNoOther, Gains;
      SetOfUser(sessions, users, now, session.userId);
      // A key set to expire in the past is deleted at once.
      if session.expiresAt > now {
        AddPoints(sessions, tokens, now, id, session);
        AddIndexes(sessions, users, now, id, session);
        sessions := sessions[id := Keyed(session, session.expiresAt)];
        tokens := tokens[session.tokenHash := Keyed(id, session.expiresAt)];
      } else {
        AddPastIndexes(sessions, users, now, id, session);
      }
      AddedLeavesOthers(users, session.userId, sessions.Keys, id, session.expiresAt, now);
      AddedGains(users, session.userId, sessions.Keys, id, session.expiresAt, now);
      users := AddMember(users, session.userId, sessions.Keys, id, session.expiresAt, now);
    }

    method FindSession(tokenHash: string) returns (found: Option<(string, Session)>)
      requires Valid()
      ensures IsOf(Live(), tokenHash, found)
    {
      if tokenHash !in tokens { return None; }
      var id := tokens[tokenHash].value;
      return Some((id, sessions[id].value));
    }

    /** Moves a standing session's expiry, and its token's and its user's set's with it. */
    method ExtendSession(id: string, expiresAt: int) returns (written: Option<Session>)
      requires Valid()
      modifies this`sessions, this`tokens, this`users
      ensures Valid()
      ensures written == (if id in old(Live()) && old(Live())[id].revokedAt.None?
                          then Some(old(Live())[id].(expiresAt := expiresAt)) else None)
      ensures Live() == if written.Some? then Moved(old(Live()), id, written.value, now) else old(Live())
      ensures written.Some? && expiresAt > now ==> id in Live() && Live()[id] == written.value
      ensures written.Some? && expiresAt <= now ==> id !in Live()
      ensures GainsNone(old(users), users)
    {
      hide Pointed, Indexes, Tidy, TableOf, EntriesOf, ExtendSet, GainsNone;
      GainsNoneYet(users);
      if id in sessions { LiveAt(sessions, id); }
      if id !in sessions || sessions[id].value.revokedAt.Some? { return None; }
      var session := sessions[id].value.(expiresAt := expiresAt);
      MoveKeeps(users, EntriesOf(sessions), now, id, expiresAt);
      if expiresAt <= now {
        DropPoints(sessions, tokens, now, id);
        sessions := sessions - {id};
        tokens := tokens - {session.tokenHash};
      } else {
        MovePoints(sessions, tokens, now, id, session);
        sessions := sessions[id := Keyed(session, expiresAt)];
        tokens := tokens[session.tokenHash := Keyed(id, expiresAt)];
      }
      ExtendGains(users, session.userId, expiresAt, now);
      users := ExtendSet(users, session.userId, expiresAt, now);
      return Some(session);
    }

    /** Rewrites a session where it stands; its key, its token and its set stay as they are. */
    method Rewrite(id: string, session: Session)
      requires Valid() && id in sessions
      requires session == sessions[id].value.(authenticatedAt := session.authenticatedAt,
                                              revokedAt := session.revokedAt)
      modifies this`sessions
      ensures Valid() && Live() == old(Live())[id := session] && sessions.Keys == old(sessions).Keys
    {
      hide Pointed, Indexes, Tidy, TableOf, EntriesOf;
      RewritePoints(sessions, tokens, now, id, session);
      sessions := sessions[id := sessions[id].(value := session)];
    }

    method ReauthenticateSession(id: string, at: int) returns (written: Option<Session>)
      requires Valid()
      modifies this`sessions
      ensures Valid()
      ensures written == (if id in old(Live()) && old(Live())[id].revokedAt.None?
                          then Some(old(Live())[id].(authenticatedAt := at)) else None)
      ensures Live() == if written.Some? then old(Live())[id := written.value] else old(Live())
    {
      if id !in sessions || sessions[id].value.revokedAt.Some? { return None; }
      Rewrite(id, sessions[id].value.(authenticatedAt := at));
      return Some(sessions[id].value);
    }

    /** Revoked now, or already: the first `revokedAt` is kept. */
    method RevokeSession(id: string, at: int) returns (exists': bool)
      requires Valid()
      modifies this`sessions
      ensures Valid() && exists' == (id in old(Live()))
      ensures Live() == if id in old(Live()) && old(Live())[id].revokedAt.None?
                        then Revoked(old(Live()), {id}, at) else old(Live())
    {
      if id !in sessions { return false; }
      LiveAt(sessions, id);
      RevokedOne(Live(), id, at);
      hide Pointed, InSets, TableOf, Revoked;
      if sessions[id].value.revokedAt.None? {
        Rewrite(id, sessions[id].value.(revokedAt := Some(at)));
      }
      return true;
    }

    /** **Revokes what a scan would**: every standing session of the user but `except`, and counts them. */
    method RevokeUserSessions(userId: string, at: int, except: string) returns (revoked: nat)
      requires Valid()
      modifies this`sessions, this`users
      ensures Valid()
      ensures Live() == Revoked(old(Live()), Standing(old(Live()), userId, except), at)
      ensures revoked == |Standing(old(Live()), userId, except)|
      ensures GainsNone(old(users), users)
    {
      hide Pointed, InSets, OfUser, TableOf, Revoked, Standing, Scanning, GainsNone;
      GainsNoneYet(users);
      revoked := 0;
      ghost var live := Live();
      ghost var standing := Standing(live, userId, except);
      RecordsOf(sessions, users, now, userId);
      StandingAreOf(live, userId, except);
      NoneRevoked(live, at);
      var todo := if userId in users then users[userId].ids else {};
      ghost var done := {};
      ScanStarts(live.Keys, OfUser(live, userId), standing, todo);
      while todo != {}
        invariant Valid() && sessions.Keys == live.Keys &&
                  Scanning(live.Keys, OfUser(live, userId), standing, todo, done)
        invariant Live() == Revoked(live, done, at) && revoked == |done| && GainsNone(old(users), users)
      {
        ghost var before := users;
        var id :| id in todo;
        ScanOne(live.Keys, OfUser(live, userId), standing, todo, done, id);
        var now' := RevokeMember(userId, id, at, except, live, done);
        GainsNoneTwice(old(users), before, users);
        todo := todo - {id};
        if now' { revoked, done := revoked + 1, done + {id}; }
      }
      ScanEnds(live.Keys, OfUser(live, userId), standing, done);
    }

    /** One member of the user's set: forgotten, revoked, or left as it is. */
    method RevokeMember(userId: string, id: string, at: int, except: string, ghost live: Table, ghost done: set<string>)
      returns (now': bool)
      requires Valid() && sessions.Keys == live.Keys && id !in done
      requires Live() == Revoked(live, done, at) && (id in live ==> id in OfUser(live, userId))
      modifies this`sessions, this`users
      ensures Valid() && sessions.Keys == live.Keys && now' == (id in Standing(live, userId, except))
      ensures Live() == Revoked(live, if now' then done + {id} else done, at)
      ensures GainsNone(old(users), users)
    {
      GainsNoneYet(users);
      if id !in sessions {
        StandingAreOf(live, userId, except);
        hide Pointed, InSets, OfUser, TableOf, Revoked, Standing, GainsNone;
        Forget(userId, id);
        return false;
      }
      LiveAt(sessions, id);
      WhenRevoked(live, userId, except, done, at, id);
      hide Pointed, InSets, OfUser, TableOf, Revoked, Standing, GainsNone;
      now' := id != except && sessions[id].value.revokedAt.None?;
      if now' {
        OneRevoked(live, userId, except, done, at, id);
        Rewrite(id, sessions[id].value.(revokedAt := Some(at)));
      }
    }

    /** Drops a member whose session Redis already dropped. */
    method Forget(userId: string, id: string)
      requires Valid() && id !in sessions
      modifies this`users
      ensures Valid() && GainsNone(old(users), users)
    {
      if userId !in users { return; }
      hide Pointed, InSets;
      ForgetKeeps(sessions, users, now, userId, id);
      var left := users[userId].ids - {id};
      users := if left == {} then users - {userId} else users[userId := users[userId].(ids := left)];
    }

    /**
     * **Deletes what a scan would**: every session of the user, standing or
     * not, their tokens, and counts them. Whatever the sets hold, it deletes
     * the live members of the user's, whoever's they are.
     */
    method DeleteUserSessions(userId: string) returns (deleted: nat)
      requires Pointed(sessions, tokens, now)
      modifies this`sessions, this`tokens, this`users
      ensures Pointed(sessions, tokens, now) && users == old(users) - {userId}
      ensures Live() == old(Live()) - Kept(old(users), userId, old(Live()).Keys)
      ensures deleted == |Kept(old(users), userId, old(Live()).Keys)|
      ensures old(Valid()) ==>
                Valid() && OfUser(old(Live()), userId) == Kept(old(users), userId, old(Live()).Keys)
    {
      ghost var had := sessions;
      hide Pointed, InSets, OfUser, TableOf, Kept;
      deleted := DeleteMembers(userId);
      TableWithout(had, Kept(users, userId, had.Keys));
      if old(Valid()) {
        RecordsOf(had, users, now, userId);
        NoneLeftOf(TableOf(had), userId);
        WithoutKeeps(had, users, now, Kept(users, userId, had.Keys));
        UserForgotten(sessions, users, now, userId);
      }
      users := users - {userId};
    }

    /** Every session the user's set names, and its token. */
    method DeleteMembers(userId: string) returns (deleted: nat)
      requires Pointed(sessions, tokens, now)
      modifies this`sessions, this`tokens
      ensures Pointed(sessions, tokens, now)
      ensures sessions == old(sessions) - Kept(users, userId, old(sessions).Keys)
      ensures deleted == |Kept(users, userId, old(sessions).Keys)|
    {
      hide Pointed, Scanning, Kept;
      var todo := if userId in users then users[userId].ids else {};
      ghost var had, all, done := sessions, Kept(users, userId, sessions.Keys), {};
      KeptIs(users, userId, sessions.Keys);
      deleted := 0;
      ScanStarts(had.Keys, all, all, todo);
      while todo != {}
        invariant Pointed(sessions, tokens, now) && sessions == Without(had, done)
        invariant Scanning(had.Keys, all, all, todo, done) && deleted == |done|
      {
        var id :| id in todo;
        ScanOne(had.Keys, all, all, todo, done, id);
        WithoutOneMore(had, done, id);
        hide Without;
        todo := todo - {id};
        if id in sessions {
          DropOne(id);
          deleted, done := deleted + 1, done + {id};
        }
      }
      ScanEnds(had.Keys, all, all, done);
    }

    /** One session and its token deleted. */
    method DropOne(id: string)
      requires Pointed(sessions, tokens, now) && id in sessions
      modifies this`sessions, this`tokens
      ensures Pointed(sessions, tokens, now) && sessions == old(sessions) - {id}
    {
      var tokenHash := sessions[id].value.tokenHash;
      assert tokens[tokenHash].value == id;
      hide Pointed;
      DropPoints(sessions, tokens, now, id);
      if tokens[tokenHash].value == id { tokens := tokens - {tokenHash}; }
      sessions := sessions - {id};
    }
  }

  // ----- runs

  /** Whom each id is made for: an insert names that user, and every id in a set stands in that user's. */
  ghost predicate Makes(call: Call, owner: string -> string) {
    call.Insert? ==> owner(call.id) == call.session.userId
  }

  /**
   * **Any call follows the plain scan, and leaves the sets agreeing** with the
   * sessions, while no id is made for two users.
   */
  method Make(store: RedisSessions, call: Call, ghost owner: string -> string) returns (reply: Reply)
    requires store.Valid() && OwnedBy(store.users, owner) && Makes(call, owner)
    modifies store
    ensures store.Valid() && OwnedBy(store.users, owner)
    ensures Follows(old(Store(store.Live(), store.now)), call, reply, Store(store.Live(), store.now))
  {
    hide Pointed, InSets, TableOf, OwnedBy, Gains, GainsNone, LeftToNoOther, Revoked, Standing, OfUser, IsOf,
      InsertionOf, Expired, Kept;
    ghost var users := store.users;
    match call
    case Wait(ms) =>
      ExpiredGains(users, store.now + ms);
      store.Advance(store.now + ms);
      reply := Nothing;
      OwnedStill(users, store.users, owner);
    case Insert(id, session) =>
      var insertion := store.InsertSession(id, session);
      OwnedWithOneMore(users, store.users, session.userId, id, owner);
      reply := Inserted(insertion);
    case Find(tokenHash) =>
      var found := store.FindSession(tokenHash);
      reply := Found(found);
    case Extend(id, expiresAt) =>
      var written := store.ExtendSession(id, expiresAt);
      OwnedStill(users, store.users, owner);
      reply := Wrote(written);
    case Reauthenticate(id, at) =>
      var written := store.ReauthenticateSession(id, at);
      reply := Wrote(written);
    case Revoke(id, at) =>
      var exists' := store.RevokeSession(id, at);
      reply := Exists(exists');
    case RevokeUser(userId, at, except) =>
      var count := store.RevokeUserSessions(userId, at, except);
      OwnedStill(users, store.users, owner);
      reply := Count(count);
    case DeleteUser(userId) =>
      var count := store.DeleteUserSessions(userId);
      WithoutGains(users, userId);
      OwnedStill(users, store.users, owner);
      reply := Count(count);
  }

  /** What was made for one user only is made for that user at each of its inserts. */
  lemma MakerMakes(calls: seq<Call>, i: nat)
    requires MadeForOne(calls) && i < |calls|
    ensures Makes(calls[i], id => MakerOf(calls, id))
  {
  }

  /**
   * **Over every run**: whatever the calls, from an empty store, at every
   * instant, each is answered as a plain scan of the live sessions would, as
   * long as no id is made for two users.
   */
  method Run(calls: seq<Call>, now: int)
    returns (store: RedisSessions, replies: seq<Reply>, ghost states: seq<Store>)
    requires MadeForOne(calls)
    ensures |states| == |calls| + 1 && |replies| == |calls| && states[0] == Store(map[], now)
    ensures forall i :: 0 <= i < |calls| ==> Follows(states[i], calls[i], replies[i], states[i + 1])
    ensures fresh(store) && store.Valid() && states[|calls|] == Store(store.Live(), store.now)
  {
    hide Pointed, InSets, TableOf, OwnedBy, Follows, MadeForOne, MakerOf, Makes;
    store := new RedisSessions(now);
    replies, states := [], [Store(map[], now)];
    ghost var owner := id => MakerOf(calls, id);
    NoneOwned(owner);
    for i := 0 to |calls|
      invariant fresh(store) && store.Valid() && OwnedBy(store.users, owner)
      invariant |states| == i + 1 && |replies| == i && states[0] == Store(map[], now)
      invariant states[i] == Store(store.Live(), store.now)
      invariant forall k :: 0 <= k < i ==> Follows(states[k], calls[k], replies[k], states[k + 1])
    {
      MakerMakes(calls, i);
      var reply := Make(store, calls[i], owner);
      replies, states := replies + [reply], states + [Store(store.Live(), store.now)];
    }
  }

  // ----- an id given to another user

  /** A set left holding an id holds one record more once the id is made again. */
  lemma OneMoreKept(live: Table, users: Sets, users': Sets, id: string, session: Session, userId: string)
    requires userId in users && id in users[userId].ids && id !in live
    requires userId in users' && users'[userId] == users[userId]
    ensures var more, kept := live[id := session], Kept(users, userId, live.Keys);
            && Kept(users', userId, more.Keys) == kept + {id} && |kept + {id}| == |kept| + 1
            && more - (kept + {id}) == live - kept
  {
  }

  /**
   * **The condition an insert puts on the sets is needed**: once an id left in
   * a user's set is made again for another user, deleting the first user's
   * sessions deletes the other's with them.
   */
  method DeletesAnothers(store: RedisSessions, id: string, session: Session, userId: string) returns (deleted: nat)
    requires store.Valid() && id !in store.Live() && store.now < session.expiresAt && session.userId != userId
    requires forall other :: other in store.Live() ==> store.Live()[other].tokenHash != session.tokenHash
    requires userId in store.users && id in store.users[userId].ids
    modifies store
    ensures store.Live() == old(store.Live()) - OfUser(old(store.Live()), userId)
    ensures deleted == |OfUser(old(store.Live()), userId)| + 1
  {
    RecordsOf(store.sessions, store.users, store.now, userId);
    hide Pointed, InSets, OfUser, TableOf, LeftToNoOther, Kept;
    ghost var live, users := store.Live(), store.users;
    var answer := store.InsertSession(id, session);
    assert userId in users - {session.userId} && userId in store.users - {session.userId};
    OneMoreKept(live, users, store.users, id, session, userId);
    deleted := store.DeleteUserSessions(userId);
  }

  lemma OnlySet(users: Sets, id: string, userId: string)
    requires users - {userId} == map[]
    ensures LeftToNoOther(users, id, userId)
  {
    assert forall u :: u in users && u != userId ==> u in users - {userId};
  }

  lemma InSetOf(store: RedisSessions, id: string, userId: string)
    requires store.Valid() && id in store.Live() && store.Live()[id].userId == userId
    ensures userId in store.users && id in store.users[userId].ids
    ensures store.users[userId].until.Some? && store.users[userId].until.value >= store.Live()[id].expiresAt
  {
    LiveAt(store.sessions, id);
    assert EntriesOf(store.sessions)[id].until == store.sessions[id].until;
  }

  const FIRST := Session("h0", "a", 0, 10, None, 0)
  const SECOND := Session("h1", "a", 0, 100, None, 0)

  /** A session of a expired, another keeping a's set: the set still holds the id of the first. */
  method LeavesAnId() returns (store: RedisSessions)
    ensures fresh(store) && store.Valid() && store.now == 20 && "a" in store.users && "s" in store.users["a"].ids
    ensures store.Live() == map["t" := SECOND]
  {
    hide InSets, Pointed, TableOf, LeftToNoOther;
    store := new RedisSessions(0);
    OnlySet(store.users, "s", "a");
    var answer := store.InsertSession("s", FIRST);
    OnlySet(store.users, "t", "a");
    assert store.Live() == map["s" := FIRST];
    answer := store.InsertSession("t", SECOND);
    assert store.Live() == map["s" := FIRST, "t" := SECOND];
    InSetOf(store, "s", "a");
    InSetOf(store, "t", "a");
    store.Advance(20);
  }

  /** Then b is given that id, and a's sessions are deleted: a's one, and b's. */
  method AnothersIsMet() returns (store: RedisSessions, deleted: nat)
    ensures deleted == 2 && store.Live() == map[]
  {
    store := LeavesAnId();
    hide InSets, TableOf;
    ghost var live := store.Live();
    assert OfUser(live, "a") == {"t"};
    deleted := DeletesAnothers(store, "s", Session("h2", "b", 20, 100, None, 20), "a");
  }

  lemma StandingAreOf(live: Table, userId: string, except: string)
    ensures Standing(live, userId, except) <= OfUser(live, userId) <= live.Keys
  {
  }

  lemma RevokedOne(live: Table, id: string, at: int)
    requires id in live
    ensures Revoked(live, {id}, at) == live[id := live[id].(revokedAt := Some(at))]
  {
  }

  lemma NoneRevoked(live: Table, at: int)
    ensures Revoked(live, {}, at) == live
  {
  }

  /** One of the user's sessions not revoked yet stands, unless it is spared. */
  lemma WhenRevoked(live: Table, userId: string, except: string, done: set<string>, at: int, id: string)
    requires id in OfUser(live, userId) && id !in done
    ensures id in Standing(live, userId, except) <==> id != except && Revoked(live, done, at)[id].revokedAt.None?
  {
  }

  /** One more of a user's standing sessions, among those not revoked yet. */
  lemma OneRevoked(live: Table, userId: string, except: string, done: set<string>, at: int, id: string)
    requires id in OfUser(live, userId) && id != except
    requires Revoked(live, done, at)[id].revokedAt.None?
    ensures id !in done && id in Standing(live, userId, except)
    ensures Revoked(live, done + {id}, at) ==
              Revoked(live, done, at)[id := Revoked(live, done, at)[id].(revokedAt := Some(at))]
  {
  }

  lemma NoneLeftOf(live: Table, userId: string)
    ensures OfUser(live - OfUser(live, userId), userId) == {}
  {
  }
}
