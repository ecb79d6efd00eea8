/**
 * The sets both Redis stores keep beside their records: the keys of each
 * user, which expire on their own as the records do, and must go on naming
 * every record still there.
 */
module UserSets {
  import opened Std

  /** A set's members, and when its key expires; a key just made has no expiry. */
  datatype Members = Members(ids: set<string>, until: Option<int>)

  type Sets = map<string, Members>

  /** What the sets index: whose each record is, and when it expires. */
  datatype Entry = Entry(user: string, until: int)

  type Live = map<string, Entry>

  /** A key's value, and when Redis drops it. */
  datatype Keyed<T> = Keyed(value: T, until: int)

  // ----- what the scripts do

  function Pruned(sets: Sets, user: string, alive: set<string>): Sets {
    if user !in sets then sets
    else if sets[user].ids * alive == {} then sets - {user}
    else sets[user := sets[user].(ids := sets[user].ids * alive)]
  }

  /** Drops from a user's set every member whose record is gone. */
  method Prune(sets: Sets, user: string, alive: set<string>) returns (r: Sets)
    requires user in sets ==> sets[user].ids != {}
    ensures r == Pruned(sets, user, alive)
  {
    if user !in sets { return sets; }
    var members := sets[user].ids;
    var todo := members;
    while todo != {}
      invariant todo <= sets[user].ids && members == sets[user].ids - (sets[user].ids - todo - alive)
    {
      var id :| id in todo;
      todo := todo - {id};
      if id !in alive { members := members - {id}; }
    }
    assert members == sets[user].ids * alive;
    // Redis keeps no empty set.
    r := if members == {} then sets - {user} else sets[user := sets[user].(ids := members)];
  }

  function Sadd(sets: Sets, user: string, id: string): Sets {
    if user in sets then sets[user := sets[user].(ids := sets[user].ids + {id})] else sets[user := Members({id}, None)]
  }

  /** Expires at `at`, or later if it already does; an instant already past drops a key with no expiry. */
  function ExtendSet(sets: Sets, user: string, at: int, now: int): Sets {
    if user !in sets then sets
    else if sets[user].until.None? then
      if at <= now then sets - {user} else sets[user := sets[user].(until := Some(at))]
    else if at > sets[user].until.value then sets[user := sets[user].(until := Some(at))]
    else sets
  }

  /** Redis drops a set whose instant has come. */
  function Expired(sets: Sets, now: int): Sets {
    map user | user in sets && (sets[user].until.Some? ==> now < sets[user].until.value) :: sets[user]
  }

  // ----- what they keep

  /** **Every record is in its user's set, which expires no earlier than it.** */
  ghost predicate Indexes(sets: Sets, live: Live) {
    forall id :: id in live ==>
      live[id].user in sets && id in sets[live[id].user].ids &&
      sets[live[id].user].until.Some? && live[id].until <= sets[live[id].user].until.value
  }

  /** Each set expires, later than now, and holds some member; none holds another user's record. */
  ghost predicate Tidy(sets: Sets, live: Live, now: int) {
    forall user :: user in sets ==>
      && sets[user].until.Some? && now < sets[user].until.value && sets[user].ids != {}
      && forall id :: id in sets[user].ids && id in live ==> live[id].user == user
  }

  /** No other user's set was left holding this id. */
  ghost predicate LeftToNoOther(sets: Sets, id: string, user: string) {
    forall u :: u in sets && u != user ==> id !in sets[u].ids
  }

  /** The members of a user's set whose records are there: what a script over the set goes through. */
  function Kept(sets: Sets, user: string, alive: set<string>): set<string> {
    if user in sets then sets[user].ids * alive else {}
  }

  lemma KeptIs(sets: Sets, user: string, alive: set<string>)
    ensures Kept(sets, user, alive) == (if user in sets then sets[user].ids else {}) * alive
  {
  }

  /** **A user's records are exactly the live members of the user's set, unless one of these is another's.** */
  lemma MembersAreRecords(sets: Sets, live: Live, user: string)
    requires Indexes(sets, live)
    ensures (set id | id in live && live[id].user == user) == Kept(sets, user, live.Keys) <==>
            (user in sets ==> forall id :: id in sets[user].ids && id in live ==> live[id].user == user)
  {
    var mine := set id | id in live && live[id].user == user;
    assert mine <= Kept(sets, user, live.Keys);
    if mine == Kept(sets, user, live.Keys) && user in sets {
      forall id | id in sets[user].ids && id in live ensures live[id].user == user { assert id in mine; }
    }
  }

  /** A user's set once an id is added: pruned, then given the member, then kept alive. */
  function Added(sets: Sets, user: string, alive: set<string>, id: string, at: int, now: int): Sets {
    ExtendSet(Sadd(Pruned(sets, user, alive), user, id), user, at, now)
  }

  method AddMember(sets: Sets, user: string, alive: set<string>, id: string, at: int, now: int) returns (r: Sets)
    requires user in sets ==> sets[user].ids != {}
    ensures r == Added(sets, user, alive, id, at, now)
  {
    r := Prune(sets, user, alive);
    r := Sadd(r, user, id);
    r := ExtendSet(r, user, at, now);
  }

  lemma AddedIs(sets: Sets, user: string, alive: set<string>, id: string, at: int, now: int) returns (until: int)
    requires now < at && (user in sets ==> sets[user].until.Some? && now < sets[user].until.value)
    ensures Added(sets, user, alive, id, at, now) == sets[user := Members(Kept(sets, user, alive) + {id}, Some(until))]
    ensures until >= at && (Kept(sets, user, alive) != {} ==> until >= sets[user].until.value)
    ensures until == at || (user in sets && sets[user].until == Some(until))
  {
    var kept := Kept(sets, user, alive);
    until := if kept != {} && sets[user].until.value > at then sets[user].until.value else at;
    assert {} + {id} == {id};
  }

  lemma AddedLeavesOthers(sets: Sets, user: string, alive: set<string>, id: string, at: int, now: int)
    ensures Added(sets, user, alive, id, at, now) - {user} == sets - {user}
  {
  }

  lemma AddedPastIs(sets: Sets, user: string, alive: set<string>, id: string, at: int, now: int)
    requires at <= now && (user in sets ==> sets[user].until.Some? && now < sets[user].until.value)
    ensures Added(sets, user, alive, id, at, now) ==
            if Kept(sets, user, alive) == {} then sets - {user}
            else sets[user := Members(Kept(sets, user, alive) + {id}, sets[user].until)]
  {
  }

  /** A user's own records are kept. */
  lemma OwnAreKept(sets: Sets, live: Live, alive: set<string>, user: string)
    requires Indexes(sets, live) && live.Keys <= alive
    ensures forall x :: x in live && live[x].user == user ==> x in Kept(sets, user, alive)
    ensures Kept(sets, user, alive) != {} ==> user in sets
  {
    forall x | x in live && live[x].user == user ensures x in Kept(sets, user, alive) {
      assert x in sets[user].ids * alive;
    }
  }

  /** **A record more is indexed with the rest, exactly when no other user's set was left holding its id.** */
  lemma AddKeeps(sets: Sets, live: Live, now: int, alive: set<string>, id: string, user: string, at: int)
    requires Indexes(sets, live) && Tidy(sets, live, now) && live.Keys <= alive && id !in live && now < at
    ensures Indexes(Added(sets, user, alive, id, at, now), live[id := Entry(user, at)])
    ensures Tidy(Added(sets, user, alive, id, at, now), live[id := Entry(user, at)], now) <==>
              LeftToNoOther(sets, id, user)
    ensures var added := Added(sets, user, alive, id, at, now);
            && user in added && id in added[user].ids && added[user].ids <= alive + {id}
            && added[user].until.Some? && at <= added[user].until.value
            && (added[user].until == Some(at) || (user in sets && added[user].until == sets[user].until))
            && forall u :: u != user ==> (u in added <==> u in sets) && (u in sets ==> added[u] == sets[u])
  {
    var until := AddedIs(sets, user, alive, id, at, now);
    OwnAreKept(sets, live, alive, user);
    KeptAreOwn(sets, live, now, alive, user);
    hide Added, Kept;
    var sets', live' := sets[user := Members(Kept(sets, user, alive) + {id}, Some(until))], live[id := Entry(user, at)];
    if u :| u in sets && u != user && id in sets[u].ids {
      assert u in sets' && id in sets'[u].ids && id in live' && live'[id].user != u;
    }
  }

  lemma KeptAreOwn(sets: Sets, live: Live, now: int, alive: set<string>, user: string)
    requires Tidy(sets, live, now)
    ensures forall x :: x in Kept(sets, user, alive) && x in live ==> live[x].user == user
  {
  }

  /** A record made already expired leaves every other indexed. */
  lemma AddPastKeeps(sets: Sets, live: Live, now: int, alive: set<string>, id: string, user: string, at: int)
    requires Indexes(sets, live) && Tidy(sets, live, now) && live.Keys <= alive && id !in live && at <= now
    ensures Indexes(Added(sets, user, alive, id, at, now), live) &&
            Tidy(Added(sets, user, alive, id, at, now), live, now)
  {
    AddedPastIs(sets, user, alive, id, at, now);
    OwnAreKept(sets, live, alive, user);
    KeptAreOwn(sets, live, now, alive, user);
    hide Added, Kept;
  }

  /** A record moved to another expiry, or dropped when that is past. */
  lemma MoveKeeps(sets: Sets, live: Live, now: int, id: string, at: int)
    requires Indexes(sets, live) && Tidy(sets, live, now) && id in live
    ensures var sets' := ExtendSet(sets, live[id].user, at, now);
            var live' := if at <= now then live - {id} else live[id := live[id].(until := at)];
            Indexes(sets', live') && Tidy(sets', live', now)
  {
  }

  /** A record deleted leaves its member behind. */
  lemma DropKeeps(sets: Sets, live: Live, now: int, id: string)
    requires Indexes(sets, live) && Tidy(sets, live, now)
    ensures Indexes(sets, live - {id}) && Tidy(sets, live - {id}, now)
  {
  }

  /** **Keys that expire on their own take nothing live from the sets.** */
  lemma ExpiryKeeps(sets: Sets, live: Live, now: int, to: int)
    requires Indexes(sets, live) && Tidy(sets, live, now) && now <= to
    ensures var live' := map id | id in live && to < live[id].until :: live[id];
            Indexes(Expired(sets, to), live') && Tidy(Expired(sets, to), live', to)
  {
  }

  // ----- what a call adds to the sets

  /** Only `id` joins, and only the set of `user`. */
  ghost predicate Gains(sets: Sets, sets': Sets, user: string, id: string) {
    forall u, x :: u in sets' && x in sets'[u].ids ==> (u in sets && x in sets[u].ids) || (u == user && x == id)
  }

  ghost predicate GainsNone(sets: Sets, sets': Sets) {
    forall u, x :: u in sets' && x in sets'[u].ids ==> u in sets && x in sets[u].ids
  }

  lemma GainsNoneYet(sets: Sets)
    ensures GainsNone(sets, sets)
  {
  }

  lemma GainsNoneTwice(a: Sets, b: Sets, c: Sets)
    requires GainsNone(a, b) && GainsNone(b, c)
    ensures GainsNone(a, c)
  {
  }

  lemma AddedGains(sets: Sets, user: string, alive: set<string>, id: string, at: int, now: int)
    ensures Gains(sets, Added(sets, user, alive, id, at, now), user, id)
  {
  }

  lemma ExtendGains(sets: Sets, user: string, at: int, now: int)
    ensures GainsNone(sets, ExtendSet(sets, user, at, now))
  {
  }

  lemma ExpiredGains(sets: Sets, now: int)
    ensures GainsNone(sets, Expired(sets, now))
  {
  }

  lemma WithoutGains(sets: Sets, user: string)
    ensures GainsNone(sets, sets - {user})
  {
  }

  /** Every id in a set was made for that set's user, as `owner` says of each id. */
  ghost predicate OwnedBy(sets: Sets, owner: string -> string) {
    forall u, x :: u in sets && x in sets[u].ids ==> owner(x) == u
  }

  lemma NoneOwned(owner: string -> string)
    ensures OwnedBy(map[], owner)
  {
  }

  lemma OwnedStill(sets: Sets, sets': Sets, owner: string -> string)
    requires OwnedBy(sets, owner) && GainsNone(sets, sets')
    ensures OwnedBy(sets', owner)
  {
  }

  /** **An id made for no other user finds itself in no other's set, and leaves every id with its owner.** */
  lemma OwnedWithOneMore(sets: Sets, sets': Sets, user: string, id: string, owner: string -> string)
    requires OwnedBy(sets, owner) && Gains(sets, sets', user, id) && owner(id) == user
    ensures OwnedBy(sets', owner) && LeftToNoOther(sets, id, user)
  {
  }

  // ----- loops over a user's members

  /** A loop over a user's members, some of whom are records, and these are the user's: `done` of `all` so far. */
  ghost predicate Scanning(records: set<string>, mine: set<string>, all: set<string>, todo: set<string>,
                           done: set<string>) {
    all <= mine <= records && todo * records <= mine && done == all - todo
  }

  lemma ScanStarts(records: set<string>, mine: set<string>, all: set<string>, todo: set<string>)
    requires all <= mine <= records && mine == todo * records
    ensures Scanning(records, mine, all, todo, {})
  {
  }

  lemma ScanOne(records: set<string>, mine: set<string>, all: set<string>, todo: set<string>, done: set<string>,
                id: string)
    requires Scanning(records, mine, all, todo, done) && id in todo
    ensures id !in done && (id in records <==> id in mine)
    ensures Scanning(records, mine, all, todo - {id}, if id in all then done + {id} else done)
  {
  }

  lemma ScanEnds(records: set<string>, mine: set<string>, all: set<string>, done: set<string>)
    requires Scanning(records, mine, all, {}, done)
    ensures done == all
  {
  }
}
