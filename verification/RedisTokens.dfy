/**
 * One-time tokens over Redis: a hash per token, and a set of hashes per user,
 * each expiring on its own. Each method is one script, atomic at one instant.
 */
module RedisTokens {
  import opened Std
  import opened Tokens
  import opened UserSets

  type Keys = map<string, Keyed<Token>>

  // ----- the keys, and what they stand for

  function TableOf(tokens: Keys): (live: Table)
    ensures live.Keys == tokens.Keys
  {
    map h | h in tokens :: tokens[h].value
  }

  function EntriesOf(tokens: Keys): UserSets.Live {
    map h | h in tokens :: Entry(tokens[h].value.userId, tokens[h].until)
  }

  lemma EntriesKeys(tokens: Keys)
    ensures EntriesOf(tokens).Keys == tokens.Keys
  {
  }

  lemma LiveAt(tokens: Keys, hash: string)
    ensures hash in tokens ==> TableOf(tokens)[hash] == tokens[hash].value
  {
  }

  /** Every token's key expires when it says. */
  ghost predicate Timed(tokens: Keys, now: int) {
    forall h :: h in tokens ==> now < tokens[h].until == tokens[h].value.expiresAt
  }

  /** Every token is in its user's set, which expires no earlier. */
  ghost predicate InSets(tokens: Keys, users: Sets, now: int) {
    Indexes(users, EntriesOf(tokens)) && Tidy(users, EntriesOf(tokens), now)
  }

  lemma AddTimes(tokens: Keys, now: int, hash: string, token: Token)
    requires Timed(tokens, now) && now < token.expiresAt
    ensures var more := tokens[hash := Keyed(token, token.expiresAt)];
            && Timed(more, now) && TableOf(more) == TableOf(tokens)[hash := token]
            && EntriesOf(more) == EntriesOf(tokens)[hash := Entry(token.userId, token.expiresAt)]
  {
  }

  lemma SetOfUser(tokens: Keys, users: Sets, now: int, userId: string)
    requires InSets(tokens, users, now)
    ensures userId in users ==> users[userId].ids != {}
  {
  }

  lemma AddIndexes(tokens: Keys, users: Sets, now: int, hash: string, token: Token)
    requires InSets(tokens, users, now) && hash !in tokens && now < token.expiresAt
    ensures var more := tokens[hash := Keyed(token, token.expiresAt)];
            InSets(more, Added(users, token.userId, more.Keys, hash, token.expiresAt, now), now) <==>
            LeftToNoOther(users, hash, token.userId)
  {
    var more := tokens[hash := Keyed(token, token.expiresAt)];
    assert EntriesOf(more) == EntriesOf(tokens)[hash := Entry(token.userId, token.expiresAt)];
    EntriesKeys(tokens);
    hide Indexes, Tidy, Added, LeftToNoOther, EntriesOf;
    AddKeeps(users, EntriesOf(tokens), now, more.Keys, hash, token.userId, token.expiresAt);
  }

  lemma AddPastIndexes(tokens: Keys, users: Sets, now: int, hash: string, token: Token)
    requires InSets(tokens, users, now) && hash !in tokens && token.expiresAt <= now
    ensures InSets(tokens, Added(users, token.userId, tokens.Keys, hash, token.expiresAt, now), now)
  {
    EntriesKeys(tokens);
    hide Indexes, Tidy, Added, LeftToNoOther, EntriesOf;
    AddPastKeeps(users, EntriesOf(tokens), now, tokens.Keys, hash, token.userId, token.expiresAt);
  }

  lemma RewriteTimes(tokens: Keys, now: int, hash: string, token: Token)
    requires Timed(tokens, now) && hash in tokens
    requires token == tokens[hash].value.(spentAt := token.spentAt, attempts := token.attempts)
    ensures var again := tokens[hash := tokens[hash].(value := token)];
            && Timed(again, now) && EntriesOf(again) == EntriesOf(tokens)
            && TableOf(again) == TableOf(tokens)[hash := token]
  {
  }

  lemma DropTimes(tokens: Keys, now: int, hash: string)
    requires Timed(tokens, now)
    ensures Timed(tokens - {hash}, now) && TableOf(tokens - {hash}) == TableOf(tokens) - {hash}
    ensures EntriesOf(tokens - {hash}) == EntriesOf(tokens) - {hash}
  {
  }

  lemma ExpiryTimes(tokens: Keys, now: int, to: int)
    requires Timed(tokens, now) && now <= to
    ensures var left := map h | h in tokens && to < tokens[h].until :: tokens[h];
            && Timed(left, to)
            && TableOf(left) ==
              (map h | h in TableOf(tokens) && to < TableOf(tokens)[h].expiresAt :: TableOf(tokens)[h])
            && EntriesOf(left) ==
              (map h | h in EntriesOf(tokens) && to < EntriesOf(tokens)[h].until :: EntriesOf(tokens)[h])
  {
  }

  /** A set no token needs may go. */
  lemma UserForgotten(tokens: Keys, users: Sets, now: int, userId: string)
    requires InSets(tokens, users, now) && OfUser(TableOf(tokens), userId) == {}
    ensures InSets(tokens, users - {userId}, now)
  {
    assert forall h :: h in tokens ==> h !in OfUser(TableOf(tokens), userId);
  }

  lemma RecordsOf(tokens: Keys, users: Sets, now: int, userId: string)
    requires InSets(tokens, users, now)
    ensures OfUser(TableOf(tokens), userId) == if userId in users then users[userId].ids * tokens.Keys else {}
  {
  }

  class RedisTokens {
    var tokens: Keys
    var users: Sets
    var now: int

    ghost function Live(): Table
      reads this
    {
      TableOf(tokens)
    }

    ghost predicate Valid()
      reads this
    {
      Timed(tokens, now) && InSets(tokens, users, now)
    }

    constructor (now: int)
      ensures Valid() && Live() == map[] && users == map[] && this.now == now
    {
      tokens, users := map[], map[];
      this.now := now;
    }

    /** Time passes: Redis drops, on its own, every key whose instant has come. */
    method Advance(to: int)
      requires Valid() && now <= to
      modifies this
      ensures Valid() && now == to
      ensures Live() == map h | h in old(Live()) && to < old(Live())[h].expiresAt :: old(Live())[h]
      ensures users == Expired(old(users), to)
    {
      hide Timed, Indexes, Tidy, TableOf, EntriesOf, Expired;
      ExpiryTimes(tokens, now, to);
      ExpiryKeeps(users, EntriesOf(tokens), now, to);
      tokens := map h | h in tokens && to < tokens[h].until :: tokens[h];
      users := Expired(users, to);
      now := to;
    }

    /**
     * Written, unless a token of this hash is there: a retry writes nothing.
     * **The sets go on agreeing with the tokens, exactly unless the hash is
     * still in a set of another user's.**
     */
    method InsertToken(hash: string, token: Token) returns (written: bool)
      requires Valid()
      modifies this`tokens, this`users
      ensures written == (hash !in old(Live()))
      ensures Live() == if written && token.expiresAt <= now then old(Live()) else Inserted(old(Live()), hash, token)
      ensures Timed(tokens, now) && Gains(old(users), users, token.userId, hash)
      ensures Valid() <==> (written && token.expiresAt > now ==> LeftToNoOther(old(users), hash, token.userId))
    {
      hide Timed, InSets, TableOf;
      if hash in tokens { return false; }
      AddToken(hash, token);
      return true;
    }

    /** The record and its place in its user's set, written in one step. */
    method AddToken(hash: string, token: Token)
      requires Valid() && hash !in tokens
      modifies this`tokens, this`users
      ensures Live() == if token.expiresAt > now then old(Live())[hash := token] else old(Live())
      ensures Timed(tokens, now) && Gains(old(users), users, token.userId, hash)
      ensures Valid() <==> (token.expiresAt > now ==> LeftToNoOther(old(users), hash, token.userId))
    {
      hide Timed, InSets, TableOf, Added, LeftToNoOther, Gains;
      SetOfUser(tokens, users, now, token.userId);
      // A key set to expire in the past is deleted at once.
      if token.expiresAt > now {
        AddTimes(tokens, now, hash, token);
        AddIndexes(tokens, users, now, hash, token);
        tokens := tokens[hash := Keyed(token, token.expiresAt)];
      } else {
        AddPastIndexes(tokens, users, now, hash, token);
      }
      AddedGains(users, token.userId, tokens.Keys, hash, token.expiresAt, now);
      users := AddMember(users, token.userId, tokens.Keys, hash, token.expiresAt, now);
    }

    /** Rewrites a token where it stands; its key and its set stay as they are. */
    method Rewrite(hash: string, token: Token)
      requires Valid() && hash in tokens
      requires token == tokens[hash].value.(spentAt := token.spentAt, attempts := token.attempts)
      modifies this`tokens
      ensures Valid() && Live() == old(Live())[hash := token]
    {
      hide Timed, Indexes, Tidy, TableOf, EntriesOf;
      RewriteTimes(tokens, now, hash, token);
      tokens := tokens[hash := tokens[hash].(value := token)];
    }

    /** **Spends the token and answers it as it was before.** */
    method ConsumeToken(hash: string, kind: string, at: int) returns (before: Option<Token>)
      requires Valid()
      modifies this`tokens
      ensures Valid() && before == Named(old(Live()), hash, kind)
      ensures before.Some? <==> hash in old(Live()) && old(Live())[hash].kind == kind
      ensures before.Some? ==> before.value == old(Live())[hash]
      ensures Live() == Spent(old(Live()), Consumes(old(Live()), hash, kind), at)
    {
      SpentNone(Live(), at);
      SpentMore(Live(), {}, at, hash);
      LiveAt(tokens, hash);
      hide Timed, InSets, TableOf, Spent;
      if hash !in tokens || tokens[hash].value.kind != kind { return None; }
      before := Some(tokens[hash].value);
      if tokens[hash].value.spentAt.None? {
        assert {} + {hash} == {hash};
        Rewrite(hash, tokens[hash].value.(spentAt := Some(at)));
      }
    }

    /** **Counts one attempt and answers the token as it is after.** */
    method CountAttempt(hash: string, kind: string) returns (after: Option<Token>)
      requires Valid()
      modifies this`tokens
      ensures Valid() && Live() == Counted(old(Live()), hash, kind) && after == Named(Live(), hash, kind)
      ensures after.Some? <==> hash in old(Live()) && old(Live())[hash].kind == kind
      ensures after.Some? ==> hash in Live() && after.value == Live()[hash]
    {
      LiveAt(tokens, hash);
      hide Timed, InSets, TableOf;
      if hash !in tokens || tokens[hash].value.kind != kind { return None; }
      if tokens[hash].value.spentAt.None? {
        Rewrite(hash, tokens[hash].value.(attempts := tokens[hash].value.attempts + 1));
        LiveAt(tokens, hash);
      }
      return Some(tokens[hash].value);
    }

    /** **Spends what a scan would**: every unspent token of the user and kind but `except`, and counts them. */
    method SpendUserTokens(userId: string, kind: string, at: int, except: string) returns (spent: nat)
      requires Valid()
      modifies this`tokens
      ensures Valid()
      ensures Live() == Spent(old(Live()), Unspent(old(Live()), userId, kind, except), at)
      ensures spent == |Unspent(old(Live()), userId, kind, except)|
    {
      hide Timed, InSets, OfUser, TableOf, Spent, Unspent, Scanning;
      spent := 0;
      ghost var live := Live();
      ghost var unspent := Unspent(live, userId, kind, except);
      RecordsOf(tokens, users, now, userId);
      UnspentAreOf(live, userId, kind, except);
      SpentNone(live, at);
      var todo := if userId in users then users[userId].ids else {};
      ghost var done := {};
      ScanStarts(live.Keys, OfUser(live, userId), unspent, todo);
      while todo != {}
        invariant Valid() && Scanning(live.Keys, OfUser(live, userId), unspent, todo, done)
        invariant Live() == Spent(live, done, at) && spent == |done|
      {
        var hash :| hash in todo;
        ScanOne(live.Keys, OfUser(live, userId), unspent, todo, done, hash);
        var now' := SpendMember(userId, kind, hash, at, except, live, done);
        todo := todo - {hash};
        if now' { spent, done := spent + 1, done + {hash}; }
      }
      ScanEnds(live.Keys, OfUser(live, userId), unspent, done);
    }

    /** One member of the user's set: spent, or left as it is. */
    method SpendMember(userId: string, kind: string, hash: string, at: int, except: string,
                       ghost live: Table, ghost done: set<string>)
      returns (now': bool)
      requires Valid() && hash !in done && (hash in live ==> hash in OfUser(live, userId))
      requires Live() == Spent(live, done, at)
      modifies this`tokens
      ensures Valid() && now' == (hash in Unspent(live, userId, kind, except))
      ensures Live() == Spent(live, if now' then done + {hash} else done, at)
    {
      LiveAt(tokens, hash);
      WhenSpent(live, done, at, hash);
      SpentMore(live, done, at, hash);
      UnspentOf(live, userId, kind, except, hash);
      hide Timed, InSets, OfUser, TableOf, Spent, Unspent;
      now' := hash != except && hash in tokens && tokens[hash].value.kind == kind && tokens[hash].value.spentAt.None?;
      if now' { Rewrite(hash, tokens[hash].value.(spentAt := Some(at))); }
    }

    /** **Deletes what a scan would**: every token of the user, spent or not, and counts them. */
    method DeleteUserTokens(userId: string) returns (deleted: nat)
      requires Valid()
      modifies this`tokens, this`users
      ensures Valid()
      ensures Live() == old(Live()) - OfUser(old(Live()), userId) && users == old(users) - {userId}
      ensures deleted == |OfUser(old(Live()), userId)|
    {
      hide Timed, InSets, OfUser, TableOf, Scanning;
      deleted := 0;
      ghost var live := Live();
      ghost var all := OfUser(live, userId);
      RecordsOf(tokens, users, now, userId);
      var todo := if userId in users then users[userId].ids else {};
      ghost var done := {};
      ScanStarts(live.Keys, all, all, todo);
      NoneLeftOf(live, userId);
      while todo != {}
        invariant Valid() && tokens.Keys == live.Keys - done && Scanning(live.Keys, all, all, todo, done)
        invariant Live() == live - done && deleted == |done| && users == old(users)
      {
        var hash :| hash in todo;
        ScanOne(live.Keys, all, all, todo, done, hash);
        todo := todo - {hash};
        var n := Del(hash);
        MinusOne(live, done, hash);
        if n == 1 { done := done + {hash}; }
        deleted := deleted + n;
      }
      ScanEnds(live.Keys, all, all, done);
      UserForgotten(tokens, users, now, userId);
      users := users - {userId};
    }

    /** `DEL`: how many keys it deleted. */
    method Del(hash: string) returns (n: nat)
      requires Valid()
      modifies this`tokens
      ensures Valid() && Live() == old(Live()) - {hash} && tokens.Keys == old(tokens).Keys - {hash}
      ensures n == if hash in old(tokens) then 1 else 0
    {
      hide Timed, TableOf, EntriesOf, Indexes, Tidy;
      DropTimes(tokens, now, hash);
      DropKeeps(users, EntriesOf(tokens), now, hash);
      n := if hash in tokens then 1 else 0;
      tokens := tokens - {hash};
    }
  }

  // ----- runs

  /** One script, or time passing. */
  datatype Script =
    | Wait(ms: nat)
    | Insert(hash: string, token: Token)
    | Consume(hash: string, kind: string, at: int)
    | CountOne(hash: string, kind: string)
    | SpendUser(userId: string, kind: string, at: int, except: string)
    | DeleteUser(userId: string)

  datatype Reply = Nothing | Wrote(written: bool) | Answer(token: Option<Token>) | HowMany(count: nat)

  datatype Store = Store(live: Table, now: int)

  /** What a plain scan answers to a script, and makes of the live tokens. */
  ghost predicate Follows(s: Store, script: Script, reply: Reply, s': Store) {
    match script
    case Wait(ms) =>
      reply == Nothing &&
      s' == Store(map h | h in s.live && s.now + ms < s.live[h].expiresAt :: s.live[h], s.now + ms)
    case Insert(hash, token) =>
      reply == Wrote(hash !in s.live) &&
      s' == if reply.written && token.expiresAt <= s.now then s else s.(live := Inserted(s.live, hash, token))
    case Consume(hash, kind, at) =>
      reply == Answer(Named(s.live, hash, kind)) && s' == s.(live := Spent(s.live, Consumes(s.live, hash, kind), at))
    case CountOne(hash, kind) =>
      s' == s.(live := Counted(s.live, hash, kind)) && reply == Answer(Named(s'.live, hash, kind))
    case SpendUser(userId, kind, at, except) =>
      var unspent := Unspent(s.live, userId, kind, except);
      reply == HowMany(|unspent|) && s' == s.(live := Spent(s.live, unspent, at))
    case DeleteUser(userId) =>
      reply == HowMany(|OfUser(s.live, userId)|) && s' == s.(live := s.live - OfUser(s.live, userId))
  }

  /** **No hash is made for two users**, as secrets minted fresh are not; one made again for its own user is a retry. */
  ghost predicate MadeForOne(scripts: seq<Script>) {
    forall i, j |
      0 <= i < |scripts| && 0 <= j < |scripts| && scripts[i].Insert? && scripts[j].Insert? &&
      scripts[i].hash == scripts[j].hash ::
      scripts[i].token.userId == scripts[j].token.userId
  }

  /** Whom a hash is made for in these scripts. */
  ghost function MakerOf(scripts: seq<Script>, hash: string): string {
    if i :| 0 <= i < |scripts| && scripts[i].Insert? && scripts[i].hash == hash then scripts[i].token.userId else ""
  }

  /** Whom each hash is made for: an insert names that user, and every hash in a set stands in that user's. */
  ghost predicate Makes(script: Script, owner: string -> string) {
    script.Insert? ==> owner(script.hash) == script.token.userId
  }

  /** What was made for one user only is made for that user at each of its inserts. */
  lemma MakerMakes(scripts: seq<Script>, i: nat)
    requires MadeForOne(scripts) && i < |scripts|
    ensures Makes(scripts[i], hash => MakerOf(scripts, hash))
  {
  }

  /**
   * **Any script follows the plain scan, and leaves the sets agreeing** with
   * the tokens, while no hash is made for two users.
   */
  method Make(store: RedisTokens, script: Script, ghost owner: string -> string) returns (reply: Reply)
    requires store.Valid() && OwnedBy(store.users, owner) && Makes(script, owner)
    modifies store
    ensures store.Valid() && OwnedBy(store.users, owner)
    ensures Follows(old(Store(store.Live(), store.now)), script, reply, Store(store.Live(), store.now))
  {
    hide Timed, InSets, TableOf, OwnedBy, Gains, GainsNone, LeftToNoOther, Spent, Unspent, Consumes, Counted, OfUser,
      Tokens.Named, Tokens.Inserted, Expired;
    ghost var users := store.users;
    match script
    case Wait(ms) =>
      ExpiredGains(users, store.now + ms);
      store.Advance(store.now + ms);
      reply := Nothing;
      OwnedStill(users, store.users, owner);
    case Insert(hash, token) =>
      var written := store.InsertToken(hash, token);
      OwnedWithOneMore(users, store.users, token.userId, hash, owner);
      reply := Wrote(written);
    case Consume(hash, kind, at) =>
      var before := store.ConsumeToken(hash, kind, at);
      reply := Answer(before);
    case CountOne(hash, kind) =>
      var after := store.CountAttempt(hash, kind);
      reply := Answer(after);
    case SpendUser(userId, kind, at, except) =>
      var count := store.SpendUserTokens(userId, kind, at, except);
      reply := HowMany(count);
    case DeleteUser(userId) =>
      var count := store.DeleteUserTokens(userId);
      WithoutGains(users, userId);
      OwnedStill(users, store.users, owner);
      reply := HowMany(count);
  }

  /**
   * **Over every run**: whatever the scripts, from an empty store, at every
   * instant, each is answered as a plain scan of the live tokens would, as
   * long as no hash is made for two users.
   */
  method Run(scripts: seq<Script>, now: int)
    returns (store: RedisTokens, replies: seq<Reply>, ghost states: seq<Store>)
    requires MadeForOne(scripts)
    ensures |states| == |scripts| + 1 && |replies| == |scripts| && states[0] == Store(map[], now)
    ensures forall i :: 0 <= i < |scripts| ==> Follows(states[i], scripts[i], replies[i], states[i + 1])
    ensures fresh(store) && store.Valid() && states[|scripts|] == Store(store.Live(), store.now)
  {
    hide Timed, InSets, TableOf, OwnedBy, Follows, MadeForOne, MakerOf, Makes;
    store := new RedisTokens(now);
    replies, states := [], [Store(map[], now)];
    ghost var owner := hash => MakerOf(scripts, hash);
    NoneOwned(owner);
    for i := 0 to |scripts|
      invariant fresh(store) && store.Valid() && OwnedBy(store.users, owner)
      invariant |states| == i + 1 && |replies| == i && states[0] == Store(map[], now)
      invariant states[i] == Store(store.Live(), store.now)
      invariant forall k :: 0 <= k < i ==> Follows(states[k], scripts[k], replies[k], states[k + 1])
    {
      MakerMakes(scripts, i);
      var reply := Make(store, scripts[i], owner);
      replies, states := replies + [reply], states + [Store(store.Live(), store.now)];
    }
  }

  lemma SpentNone(live: Table, at: int)
    ensures Spent(live, {}, at) == live
  {
  }

  lemma SpentMore(live: Table, done: set<string>, at: int, hash: string)
    ensures hash in live && hash !in done ==> Spent(live, done + {hash}, at) ==
                                              Spent(live, done, at)[hash := live[hash].(spentAt := Some(at))]
  {
  }

  lemma WhenSpent(live: Table, done: set<string>, at: int, hash: string)
    ensures Spent(live, done, at).Keys == live.Keys
    ensures hash in live && hash !in done ==> Spent(live, done, at)[hash] == live[hash]
  {
  }

  lemma UnspentOf(live: Table, userId: string, kind: string, except: string, hash: string)
    ensures hash in Unspent(live, userId, kind, except) <==>
            hash in OfUser(live, userId) && hash != except && live[hash].kind == kind && live[hash].spentAt.None?
    ensures hash in OfUser(live, userId) ==> hash in live
  {
  }

  lemma UnspentAreOf(live: Table, userId: string, kind: string, except: string)
    ensures Unspent(live, userId, kind, except) <= OfUser(live, userId) <= live.Keys
  {
  }

  lemma MinusOne(live: Table, done: set<string>, hash: string)
    ensures live - done - {hash} == live - (done + {hash})
    ensures live.Keys - done - {hash} == live.Keys - (done + {hash})
    ensures hash !in live.Keys - done ==> live - done - {hash} == live - done
  {
  }

  lemma NoneLeftOf(live: Table, userId: string)
    ensures OfUser(live - OfUser(live, userId), userId) == {}
  {
  }
}
