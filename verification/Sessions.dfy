/** Sessions, as any store holds them: what each call answers and makes of them. */
module Sessions {
  import opened Std

  datatype Session = Session(tokenHash: string, userId: string, authenticatedAt: int, expiresAt: int,
                             revokedAt: Option<int>, createdAt: int)

  type Table = map<string, Session>

  // ----- what a plain scan of the live sessions answers

  /** The session a token hash is of. */
  ghost predicate IsOf(live: Table, tokenHash: string, found: Option<(string, Session)>) {
    match found
    case Some((id, session)) => id in live && live[id] == session && session.tokenHash == tokenHash
    case None => forall id :: id in live ==> live[id].tokenHash != tokenHash
  }

  /** The standing sessions of a user but `except`. */
  function Standing(live: Table, userId: string, except: string): set<string> {
    set id | id in live && live[id].userId == userId && id != except && live[id].revokedAt.None?
  }

  function Revoked(live: Table, ids: set<string>, at: int): Table {
    map id | id in live :: if id in ids then live[id].(revokedAt := Some(at)) else live[id]
  }

  function OfUser(live: Table, userId: string): set<string> {
    set id | id in live && live[id].userId == userId
  }

  /** Moved to another expiry: gone at once when that is past. */
  function Moved(live: Table, id: string, session: Session, now: int): Table {
    if session.expiresAt <= now then live - {id} else live[id := session]
  }

  datatype Insertion = Written | Retry | Refused

  ghost function InsertionOf(live: Table, id: string, session: Session): Insertion {
    if id in live then Retry
    else if exists other :: other in live && live[other].tokenHash == session.tokenHash then Refused
    else Written
  }

  // ----- runs of calls

  /** One call on the store, or time passing. */
  datatype Call =
    | Wait(ms: nat)
    | Insert(id: string, session: Session)
    | Find(tokenHash: string)
    | Extend(id: string, expiresAt: int)
    | Reauthenticate(id: string, at: int)
    | Revoke(id: string, at: int)
    | RevokeUser(userId: string, at: int, except: string)
    | DeleteUser(userId: string)

  datatype Reply =
    | Nothing
    | Inserted(insertion: Insertion)
    | Found(found: Option<(string, Session)>)
    | Wrote(written: Option<Session>)
    | Exists(exists': bool)
    | Count(count: nat)

  datatype Store = Store(live: Table, now: int)

  /** What a plain scan answers to a call, and makes of the live sessions. */
  ghost predicate Follows(s: Store, call: Call, reply: Reply, s': Store) {
    match call
    case Wait(ms) =>
      reply == Nothing &&
      s' == Store(map id | id in s.live && s.now + ms < s.live[id].expiresAt :: s.live[id], s.now + ms)
    case Insert(id, session) =>
      reply == Inserted(InsertionOf(s.live, id, session)) &&
      s' == if reply.insertion == Written && session.expiresAt > s.now then s.(live := s.live[id := session]) else s
    case Find(tokenHash) =>
      reply.Found? && IsOf(s.live, tokenHash, reply.found) && s' == s
    case Extend(id, expiresAt) =>
      if id in s.live && s.live[id].revokedAt.None? then
        var session := s.live[id].(expiresAt := expiresAt);
        reply == Wrote(Some(session)) && s' == s.(live := Moved(s.live, id, session, s.now))
      else
        reply == Wrote(None) && s' == s
    case Reauthenticate(id, at) =>
      if id in s.live && s.live[id].revokedAt.None? then
        var session := s.live[id].(authenticatedAt := at);
        reply == Wrote(Some(session)) && s' == s.(live := s.live[id := session])
      else
        reply == Wrote(None) && s' == s
    case Revoke(id, at) =>
      reply == Exists(id in s.live) &&
      s' == if id in s.live && s.live[id].revokedAt.None? then s.(live := Revoked(s.live, {id}, at)) else s
    case RevokeUser(userId, at, except) =>
      var standing := Standing(s.live, userId, except);
      reply == Count(|standing|) && s' == s.(live := Revoked(s.live, standing, at))
    case DeleteUser(userId) =>
      var all := OfUser(s.live, userId);
      reply == Count(|all|) && s' == s.(live := s.live - all)
  }

  /** **No id is made for two users**, as ids minted fresh are not; one made again for its own user is a retry. */
  ghost predicate MadeForOne(calls: seq<Call>) {
    forall i, j |
      0 <= i < |calls| && 0 <= j < |calls| && calls[i].Insert? && calls[j].Insert? && calls[i].id == calls[j].id ::
      calls[i].session.userId == calls[j].session.userId
  }

  /** Whom an id is made for in these calls. */
  ghost function MakerOf(calls: seq<Call>, id: string): string {
    if i :| 0 <= i < |calls| && calls[i].Insert? && calls[i].id == id then calls[i].session.userId else ""
  }

  // ----- what each call is, session by session

  /** `y` is `x` but for when it expires. */
  predicate SameButExpiry(x: Session, y: Session) {
    y.tokenHash == x.tokenHash && y.userId == x.userId && y.authenticatedAt == x.authenticatedAt &&
    y.revokedAt == x.revokedAt && y.createdAt == x.createdAt
  }

  /** **An extension of a standing session moves when it expires, at once when that is past**, and touches no other. */
  lemma ExtendIs(s: Store, id: string, expiresAt: int, reply: Reply, s': Store)
    requires Follows(s, Extend(id, expiresAt), reply, s')
    ensures reply.Wrote? && s'.now == s.now
    ensures reply.written.Some? <==> id in s.live && s.live[id].revokedAt.None?
    ensures reply.written.Some? ==>
              reply.written.value.expiresAt == expiresAt && SameButExpiry(s.live[id], reply.written.value)
    ensures reply.written.Some? && expiresAt > s.now ==> id in s'.live && s'.live[id] == reply.written.value
    ensures reply.written.Some? && expiresAt <= s.now ==> id !in s'.live
    ensures reply.written.None? ==> s'.live == s.live
    ensures forall x :: x != id ==> (x in s'.live <==> x in s.live) && (x in s.live ==> s'.live[x] == s.live[x])
  {
  }

  /** **Extended, a session lives exactly until the new expiry.** */
  lemma ExtendThenWait(s: Store, id: string, expiresAt: int, reply: Reply, mid: Store, ms: nat, reply': Reply,
                       s': Store)
    requires Follows(s, Extend(id, expiresAt), reply, mid) && reply.Wrote? && reply.written.Some?
    requires Follows(mid, Wait(ms), reply', s')
    ensures id in s'.live <==> s.now + ms < expiresAt
    ensures id in s'.live ==> s'.live[id].expiresAt == expiresAt && SameButExpiry(s.live[id], s'.live[id])
  {
    ExtendIs(s, id, expiresAt, reply, mid);
    if expiresAt > s.now { assert id in mid.live && mid.live[id].expiresAt == expiresAt; }
  }

  /** Time takes exactly what expired, and moves nothing else. */
  lemma WaitIs(s: Store, ms: nat, reply: Reply, s': Store)
    requires Follows(s, Wait(ms), reply, s')
    ensures s'.now == s.now + ms
    ensures forall x :: x in s'.live <==> x in s.live && s.now + ms < s.live[x].expiresAt
    ensures forall x :: x in s'.live ==> s'.live[x] == s.live[x]
  {
  }

  /** An insert adds the session as it is given, unless its id is there, or its token hash, or it is past already. */
  lemma InsertIs(s: Store, id: string, session: Session, reply: Reply, s': Store)
    requires Follows(s, Insert(id, session), reply, s')
    ensures reply.Inserted? && s'.now == s.now
    ensures reply.insertion == Retry <==> id in s.live
    ensures reply.insertion == Refused <==>
              id !in s.live && exists other :: other in s.live && s.live[other].tokenHash == session.tokenHash
    ensures forall x :: x in s.live ==> x in s'.live && s'.live[x] == s.live[x]
    ensures forall x :: x in s'.live && x !in s.live ==> x == id && s'.live[x] == session
    ensures id in s'.live <==> id in s.live || (reply.insertion == Written && session.expiresAt > s.now)
  {
  }

  /** A session found is live and has the hash asked; none is found only when none has. */
  lemma FindIs(s: Store, tokenHash: string, reply: Reply, s': Store)
    requires Follows(s, Find(tokenHash), reply, s')
    ensures reply.Found? && s' == s
    ensures reply.found.Some? ==> reply.found.value.0 in s.live && s.live[reply.found.value.0] == reply.found.value.1 &&
                                  reply.found.value.1.tokenHash == tokenHash
    ensures reply.found.None? ==> forall x :: x in s.live ==> s.live[x].tokenHash != tokenHash
  {
  }

  /** Revoked is `revokedAt`, and nothing else. */
  predicate RevokedAt(x: Session, y: Session, at: int) {
    y.revokedAt == Some(at) && y.tokenHash == x.tokenHash && y.userId == x.userId &&
    y.authenticatedAt == x.authenticatedAt && y.expiresAt == x.expiresAt && y.createdAt == x.createdAt
  }

  /** **A revocation is of that session alone**, and the first one stands. */
  lemma RevokeIs(s: Store, id: string, at: int, reply: Reply, s': Store)
    requires Follows(s, Revoke(id, at), reply, s')
    ensures reply == Exists(id in s.live) && s'.now == s.now && s'.live.Keys == s.live.Keys
    ensures forall x :: x in s.live && (x != id || s.live[x].revokedAt.Some?) ==> s'.live[x] == s.live[x]
    ensures id in s.live && s.live[id].revokedAt.None? ==> RevokedAt(s.live[id], s'.live[id], at)
  {
  }

  /** **A user's revocation is of every standing session of theirs but one**, and of nobody else's. */
  lemma RevokeUserIs(s: Store, userId: string, at: int, except: string, reply: Reply, s': Store)
    requires Follows(s, RevokeUser(userId, at, except), reply, s')
    ensures s'.now == s.now && s'.live.Keys == s.live.Keys
    ensures forall x :: x in s.live ==>
              if s.live[x].userId == userId && x != except && s.live[x].revokedAt.None?
              then RevokedAt(s.live[x], s'.live[x], at) else s'.live[x] == s.live[x]
    ensures reply.Count? &&
            reply.count == |set x | x in s.live && s'.live[x] != s.live[x]|
  {
    assert (set x | x in s.live && s'.live[x] != s.live[x]) == Standing(s.live, userId, except);
  }

  /** A user's deletion takes every session of theirs, and nobody else's. */
  lemma DeleteUserIs(s: Store, userId: string, reply: Reply, s': Store)
    requires Follows(s, DeleteUser(userId), reply, s')
    ensures s'.now == s.now && reply.Count? && reply.count == |s.live| - |s'.live|
    ensures forall x :: x in s'.live <==> x in s.live && s.live[x].userId != userId
    ensures forall x :: x in s'.live ==> s'.live[x] == s.live[x]
  {
    var all := OfUser(s.live, userId);
    assert s'.live.Keys == s.live.Keys - all && all <= s.live.Keys;
    assert |s.live| == |s.live.Keys| && |s'.live| == |s'.live.Keys|;
  }

  /** A reauthentication moves `authenticatedAt` of a standing session, and nothing else. */
  lemma ReauthenticateIs(s: Store, id: string, at: int, reply: Reply, s': Store)
    requires Follows(s, Reauthenticate(id, at), reply, s')
    ensures reply.Wrote? && s'.now == s.now && s'.live.Keys == s.live.Keys
    ensures reply.written.Some? <==> id in s.live && s.live[id].revokedAt.None?
    ensures forall x :: x in s.live && (x != id || reply.written.None?) ==> s'.live[x] == s.live[x]
    ensures reply.written.Some? ==>
              s'.live[id] == reply.written.value && s'.live[id].authenticatedAt == at &&
              s'.live[id].(authenticatedAt := s.live[id].authenticatedAt) == s.live[id]
  {
  }
}
