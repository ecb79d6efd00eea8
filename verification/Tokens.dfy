/**
 * One-time tokens, as any store holds them: what each call makes of them,
 * and that over any run of calls each token is spent by exactly one.
 */
module Tokens {
  import opened Std

  datatype Token = Token(kind: string, userId: string, address: string, expiresAt: int, spentAt: Option<int>,
                         createdAt: int, codeHash: Option<string>, attempts: int)

  type Table = map<string, Token>

  // ----- what each call does

  function Inserted(live: Table, hash: string, token: Token): Table {
    if hash in live then live else live[hash := token]
  }

  /** The token a call with this hash and kind is about. */
  function Named(live: Table, hash: string, kind: string): Option<Token> {
    if hash in live && live[hash].kind == kind then Some(live[hash]) else None
  }

  function Spent(live: Table, hashes: set<string>, at: int): Table {
    map h | h in live :: if h in hashes then live[h].(spentAt := Some(at)) else live[h]
  }

  /** The one token `consumeToken` spends, if it does. */
  function Consumes(live: Table, hash: string, kind: string): set<string> {
    if Named(live, hash, kind).Some? && live[hash].spentAt.None? then {hash} else {}
  }

  /** The tokens `spendUserTokens` spends: a user's, of a kind, unspent, but one. */
  function Unspent(live: Table, userId: string, kind: string, except: string): set<string> {
    set h | h in live && h != except && live[h].userId == userId && live[h].kind == kind && live[h].spentAt.None?
  }

  function Counted(live: Table, hash: string, kind: string): Table {
    if Consumes(live, hash, kind) != {} then live[hash := live[hash].(attempts := live[hash].attempts + 1)] else live
  }

  function OfUser(live: Table, userId: string): set<string> {
    set h | h in live && live[h].userId == userId
  }

  // ----- runs of calls

  /** `Drop` is a token gone: expired, or deleted with its user. */
  datatype Call =
    | Insert(hash: string, token: Token)
    | Consume(hash: string, kind: string, at: int)
    | Count(hash: string, kind: string)
    | SpendUser(userId: string, kind: string, at: int, except: string)
    | Drop(hash: string)

  function Next(live: Table, call: Call): Table {
    match call
    case Insert(hash, token) => Inserted(live, hash, token)
    case Consume(hash, kind, at) => Spent(live, Consumes(live, hash, kind), at)
    case Count(hash, kind) => Counted(live, hash, kind)
    case SpendUser(userId, kind, at, except) => Spent(live, Unspent(live, userId, kind, except), at)
    case Drop(hash) => live - {hash}
  }

  /** The tokens the call tells its caller it spent: one answered unspent, or those it counts. */
  function SpentBy(live: Table, call: Call): set<string> {
    match call
    case Consume(hash, kind, _) => Consumes(live, hash, kind)
    case SpendUser(userId, kind, _, except) => Unspent(live, userId, kind, except)
    case _ => {}
  }

  function After(live: Table, calls: seq<Call>): Table
    decreases |calls|
  {
    if calls == [] then live else Next(After(live, calls[..|calls| - 1]), calls[|calls| - 1])
  }

  /** Secrets are minted once: a token dropped is never inserted again. Inserting one still there is a retry. */
  ghost predicate Fresh(live: Table, calls: seq<Call>) {
    forall k, m | 0 <= m <= k < |calls| && calls[k].Insert? && calls[k].hash in After(live, calls[..m]) ::
      calls[k].hash in After(live, calls[..k])
  }

  lemma OneMore(live: Table, calls: seq<Call>, k: nat)
    requires k < |calls|
    ensures After(live, calls[..k + 1]) == Next(After(live, calls[..k]), calls[k])
  {
    assert calls[..k + 1][..k] == calls[..k];
  }

  /** No call makes a token unspent, or another's. */
  lemma CallKeeps(live: Table, call: Call, h: string)
    requires h in Next(live, call)
    ensures h in live || (call.Insert? && call.hash == h && Next(live, call)[h] == call.token)
    ensures h in live ==> var then' := Next(live, call)[h];
                          then'.userId == live[h].userId && then'.kind == live[h].kind &&
                          (live[h].spentAt.Some? ==> then'.spentAt == live[h].spentAt)
  {
  }

  /** A call never moves a `spentAt`, and sets it only where it says so. */
  lemma NextSpends(live: Table, call: Call, hash: string)
    requires hash in live && hash in Next(live, call)
    ensures var was := live[hash].spentAt;
            var then' := Next(live, call)[hash].spentAt;
            if hash in SpentBy(live, call) then was.None? && then'.Some? else then' == was
  {
  }

  lemma SpentIsSpent(live: Table, call: Call, hash: string)
    requires hash in live && hash in Next(live, call) && live[hash].spentAt.Some?
    ensures Next(live, call)[hash].spentAt == live[hash].spentAt
  {
  }

  /** Once a token is there it is there or gone: a call that could bring it back is a retry, made while it is. */
  lemma NextHolds(live: Table, calls: seq<Call>, i: nat, k: nat, hash: string)
    requires Fresh(live, calls) && i <= k < |calls| && hash in After(live, calls[..i])
    requires hash in Next(After(live, calls[..k]), calls[k])
    ensures hash in After(live, calls[..k])
  {
  }

  lemma NextCounts(live: Table, call: Call, hash: string)
    requires hash in live && hash in Next(live, call)
    ensures Next(live, call)[hash].attempts >= live[hash].attempts
  {
  }

  /** **Once set, `spentAt` never changes**, for as long as the token is there; and a token gone stays gone. */
  lemma {:induction false} SpentStays(live: Table, calls: seq<Call>, i: nat, k: nat, hash: string)
    requires Fresh(live, calls) && i <= k <= |calls|
    requires hash in After(live, calls[..i]) && After(live, calls[..i])[hash].spentAt.Some?
    ensures hash in After(live, calls[..k]) ==>
              After(live, calls[..k])[hash].spentAt == After(live, calls[..i])[hash].spentAt
    decreases k - i
  {
    hide Next, SpentBy, After, Fresh;
    if i < k {
      OneMore(live, calls, k - 1);
      if hash in After(live, calls[..k]) {
        NextHolds(live, calls, i, k - 1, hash);
        SpentStays(live, calls, i, k - 1, hash);
        SpentIsSpent(After(live, calls[..k - 1]), calls[k - 1], hash);
      }
    }
  }

  /** **Each token is spent by one call at most**: no two are told they spent it. */
  lemma SpentOnce(live: Table, calls: seq<Call>, i: nat, j: nat)
    requires Fresh(live, calls) && i < j < |calls|
    ensures SpentBy(After(live, calls[..i]), calls[i]) !! SpentBy(After(live, calls[..j]), calls[j])
  {
    var first, then' := After(live, calls[..i]), After(live, calls[..j]);
    OneMore(live, calls, i);
    forall hash | hash in SpentBy(first, calls[i]) ensures hash !in SpentBy(then', calls[j]) {
      NextSpends(first, calls[i], hash);
      SpentStays(live, calls, i + 1, j, hash);
    }
  }

  /** **And by one at least**: a token issued unspent and found spent was spent by a call that was told so. */
  lemma {:induction false} SpentBySome(live: Table, calls: seq<Call>, hash: string) returns (i: nat)
    requires Fresh(live, calls)
    requires hash in After(live, calls) && After(live, calls)[hash].spentAt.Some?
    requires hash in live ==> live[hash].spentAt.None?
    requires forall k | 0 <= k < |calls| && calls[k].Insert? && calls[k].hash == hash ::
               hash in After(live, calls[..k]) || calls[k].token.spentAt.None?
    ensures i < |calls| && hash in SpentBy(After(live, calls[..i]), calls[i])
    decreases |calls|
  {
    var n := |calls| - 1;
    var less := calls[..n];
    var before := After(live, less);
    if hash in SpentBy(before, calls[n]) { return n; }
    forall m | 0 <= m <= n ensures less[..m] == calls[..m] { }
    assert hash in before;
    NextSpends(before, calls[n], hash);
    i := SpentBySome(live, less, hash);
  }

  /** How many tokens all the calls together were told they spent. */
  function Told(live: Table, calls: seq<Call>): nat
    decreases |calls|
  {
    if calls == [] then 0
    else
      var less := calls[..|calls| - 1];
      Told(live, less) + |SpentBy(After(live, less), calls[|calls| - 1])|
  }

  /** The tokens spent at some time in the run. */
  function EverSpent(live: Table, calls: seq<Call>): set<string>
    decreases |calls|
  {
    if calls == [] then {}
    else
      var less := calls[..|calls| - 1];
      EverSpent(live, less) + SpentBy(After(live, less), calls[|calls| - 1])
  }

  ghost predicate SpendsAt(live: Table, calls: seq<Call>, i: int, hash: string) {
    0 <= i < |calls| && hash in SpentBy(After(live, calls[..i]), calls[i])
  }

  lemma {:induction false} EverSpentBy(live: Table, calls: seq<Call>, hash: string)
    ensures hash in EverSpent(live, calls) <==>
            exists i :: SpendsAt(live, calls, i, hash)
    decreases |calls|
  {
    hide SpentBy, After;
    if calls != [] {
      var n := |calls| - 1;
      EverSpentBy(live, calls[..n], hash);
      forall i | 0 <= i < n ensures SpendsAt(live, calls[..n], i, hash) == SpendsAt(live, calls, i, hash) {
        assert calls[..n][..i] == calls[..i];
      }
      assert SpendsAt(live, calls, n, hash) == (hash in SpentBy(After(live, calls[..n]), calls[n]));
    }
  }

  /** **The counts add up**: no token is counted twice, whatever redemptions and spends interleave. */
  lemma {:induction false} CountsAddUp(live: Table, calls: seq<Call>)
    requires Fresh(live, calls)
    ensures Told(live, calls) == |EverSpent(live, calls)|
    decreases |calls|
  {
    if calls != [] {
      var n := |calls| - 1;
      var less := calls[..n];
      forall m | 0 <= m <= n ensures less[..m] == calls[..m] { }
      CountsAddUp(live, less);
      var now := SpentBy(After(live, less), calls[n]);
      forall hash | hash in EverSpent(live, less) ensures hash !in now {
        EverSpentBy(live, less, hash);
        var i :| SpendsAt(live, less, i, hash);
        SpentOnce(live, calls, i, n);
      }
      assert EverSpent(live, less) !! now;
    }
  }

  lemma {:induction false} AttemptsOnlyRise(live: Table, calls: seq<Call>, i: nat, k: nat, hash: string)
    requires Fresh(live, calls) && i <= k <= |calls| && hash in After(live, calls[..i])
    ensures hash in After(live, calls[..k]) ==>
              After(live, calls[..k])[hash].attempts >= After(live, calls[..i])[hash].attempts
    decreases k
  {
    hide Next, After, Fresh;
    if i < k {
      OneMore(live, calls, k - 1);
      if hash in After(live, calls[..k]) {
        NextHolds(live, calls, i, k - 1, hash);
        AttemptsOnlyRise(live, calls, i, k - 1, hash);
        NextCounts(After(live, calls[..k - 1]), calls[k - 1], hash);
      }
    }
  }

  /**
   * **No count is answered twice**: of two attempts counted against an unspent
   * token, the later answers a higher count.
   */
  lemma CountsDiffer(live: Table, calls: seq<Call>, i: nat, j: nat, hash: string)
    requires Fresh(live, calls) && i < j < |calls|
    requires calls[i].Count? && calls[i].hash == hash && Consumes(After(live, calls[..i]), hash, calls[i].kind) != {}
    requires calls[j].Count? && calls[j].hash == hash && Consumes(After(live, calls[..j]), hash, calls[j].kind) != {}
    ensures hash in After(live, calls[..i + 1]) && hash in After(live, calls[..j + 1])
    ensures After(live, calls[..i + 1])[hash].attempts < After(live, calls[..j + 1])[hash].attempts
  {
    OneMore(live, calls, i);
    OneMore(live, calls, j);
    AttemptsOnlyRise(live, calls, i + 1, j, hash);
  }

  // ----- what each call is, token by token

  /** `y` is `x`, spent. */
  predicate SpentAt(x: Token, y: Token, at: int) {
    y.spentAt == Some(at) && y.kind == x.kind && y.userId == x.userId && y.address == x.address &&
    y.expiresAt == x.expiresAt && y.createdAt == x.createdAt && y.codeHash == x.codeHash && y.attempts == x.attempts
  }

  /**
   * **A redemption answers the token of this hash and of the kind asked, as it
   * was, and spends it if it was unspent**: a token of another kind is not
   * answered, not spent, and nothing is written.
   */
  lemma ConsumeIs(live: Table, hash: string, kind: string, at: int)
    ensures var (before, after) := (Named(live, hash, kind), Next(live, Consume(hash, kind, at)));
            && (before.Some? <==> hash in live && live[hash].kind == kind)
            && (before.Some? ==> before.value == live[hash])
            && after.Keys == live.Keys && (forall h :: h in live && h != hash ==> after[h] == live[h])
            && (before.Some? && live[hash].spentAt.None? ==> SpentAt(live[hash], after[hash], at))
            && (hash in live && (before.None? || live[hash].spentAt.Some?) ==> after[hash] == live[hash])
    ensures forall h :: h in SpentBy(live, Consume(hash, kind, at)) <==>
              h == hash && hash in live && live[hash].kind == kind && live[hash].spentAt.None?
  {
  }

  /** **A call of another kind leaves the table as it was.** */
  lemma OtherKindNothing(live: Table, hash: string, kind: string, at: int)
    requires hash !in live || live[hash].kind != kind
    ensures Next(live, Consume(hash, kind, at)) == live && Next(live, Count(hash, kind)) == live
    ensures Named(live, hash, kind).None? && SpentBy(live, Consume(hash, kind, at)) == {}
  {
    assert Spent(live, {}, at) == live;
  }

  /** **An attempt counts one, against an unspent token of this hash and kind**, which it answers as it is after. */
  lemma CountIs(live: Table, hash: string, kind: string)
    ensures var (counts, after) := (hash in live && live[hash].kind == kind && live[hash].spentAt.None?,
                                    Next(live, Count(hash, kind)));
            && after.Keys == live.Keys && (forall h :: h in live && (h != hash || !counts) ==> after[h] == live[h])
            && (counts ==> after[hash].attempts == live[hash].attempts + 1 &&
                           after[hash].(attempts := live[hash].attempts) == live[hash])
            && (Named(after, hash, kind).Some? <==> hash in live && live[hash].kind == kind)
            && (Named(after, hash, kind).Some? ==> Named(after, hash, kind).value == after[hash])
  {
  }

  /** **A user's spend is of every unspent token of theirs of the kind but one**, and of no other. */
  lemma SpendUserIs(live: Table, userId: string, kind: string, at: int, except: string)
    ensures var after := Next(live, SpendUser(userId, kind, at, except));
            && after.Keys == live.Keys
            && forall h :: h in live ==>
                 if live[h].userId == userId && live[h].kind == kind && h != except && live[h].spentAt.None?
                 then SpentAt(live[h], after[h], at) && h in SpentBy(live, SpendUser(userId, kind, at, except))
                 else after[h] == live[h] && h !in SpentBy(live, SpendUser(userId, kind, at, except))
  {
  }

  /** An insert adds the token as it is given, unless the hash is there. */
  lemma InsertIs(live: Table, hash: string, token: Token)
    ensures var after := Next(live, Insert(hash, token));
            && hash in after && after[hash] == (if hash in live then live[hash] else token)
            && (forall h :: h != hash ==> (h in after <==> h in live) && (h in live ==> after[h] == live[h]))
  {
  }
}
