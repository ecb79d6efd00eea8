# Models of janus, proved

janus answers who may do what (`can`, `list`), delivers its events by webhooks, and keeps sessions and
one-time tokens in a store. This project models the parts of it whose correctness spans many functions, many
processes or many moments, and proves what they promise.

Run `dafny verify dfyconfig.toml`.

## What is modelled

**The permission engine.** `Permissions.dfy` says what it means to hold a name on an object: a *derivation*, a
chain of (entity, name) nodes, each a step of some rule from the one before, ending in a stored tuple the model
admits or in a field naming the subject. `Walks.dfy` is `can()`: the class `Walk` with its `path`, cut at a node
already on it, and its depth. `Reverses.dfy` is `list()`: the class `Reverse` with its rounds, memo, path and
`looped` flag. Both are proved against derivability, so they agree. `Rounds.dfy` says what one round of `list()`
computes as a function, and `Fixpoint.dfy` why rounds reach the least fixpoint. `Conditions.dfy` is the static
analysis that tells whether a permission can reach a condition, against the walk it must over-approximate.
`Depth.dfy` is what the depth of each side bounds, and where the two part.
`Paging.dfy` and `Order.dfy` are the pages of a computed set.

**The webhook queue.** `Queue.dfy` is what the port promises, on a map of deliveries: what an insert, an
extension, a retry and a removal make of it, and what a claim may answer (`Claimed`), up to the order of equal due
times. `MemoryQueue.dfy` and `RedisQueue.dfy` are the two implementations, each method proved against that one
specification: the reference queue, and the Lua scripts over hashes, sorted sets and the endpoint set.
`Workers.dfy` interleaves any number of workers over a queue, each of which may crash between any two steps.
`Attempts.dfy` counts claims over those runs, and is what a sender decides by that number. `Closing.dfy` is one worker
without a caller's queue: its pump, its attempts in flight and the steps of `close()`; `Flush.dfy` is what it sends
before it gives anything up.

**Sessions and tokens.** `Sessions.dfy` and `Tokens.dfy` say what each store call makes of the live records, as a
plain scan would. `UserSets.dfy` is the per-user index both Redis stores keep; `RedisSessions.dfy` and
`RedisTokens.dfy` are the scripts, one method each, with Redis dropping keys on its own in `Advance`.
`LatestOnly.dfy` and `ByPassword.dfy` are the two races of the identity flows: issue a token then spend every
other, and write a password then spend what it opened against issue then read again.

**Smaller algorithms.** `Ids.dfy` mints UUIDv7 ids (section 5.7 of RFC 9562), `Base32.dfy` encodes and decodes
secrets (section 6 of RFC 4648), `Totp.dfy` matches codes (section 5.2 of RFC 6238), `Holders.dfy` pages holders
under a predicate and a budget, `HolderCursors.dfy` prints and reads their cursors, `PublishOrder.dfy` orders
packages, `Notation.dfy` prints and parses tuples.

What the source updates in place is a class whose methods say what their whole new state is; what it only computes
is a function. A protocol is a relation between states, one step per `await`, and a theorem about it is a lemma
over every run. What a class keeps over every run is a method, `Run`, that makes any calls one after the other.

## What is assumed

- A model is *resolved* (`Permissions.Resolved`): no name is both a relation and a permission, a set holder names a
  relation, and no arrow or set leads to a name read from a field. What the caller's lookups answer is the exact
  inverse of the fields (`Rounds.Inverse`), ids no store keeps included, and the store's tuples are finite.
- A walk's path and a round's path hold nodes as pairs; `Notation.PathKeysTell` says the text keys the source
  builds tell the same pairs apart.
- Leases and token secrets are never drawn twice where a run says so (`Workers.Next`, `LatestOnly.Next`,
  `ByPassword.Next`). The memory queue draws a lease per delivery, the Redis queue one per claim, given by the caller.
- A salted hash matches one password. A user id is never given twice.
- Each Lua script is one atomic step at one instant, and Redis drops a key at the instant it was set to expire.
- An undo write of a Redis insert succeeds; the script ignores one that is refused.
- In `Closing.dfy` instants stay within what a `Date` holds and the clock does not go back. Continuations run in the
  order they were queued: an accept that wakes the pump as it ends settles only after `pumping` is cleared.

## Where the code and its words differ

- `list()`'s documentation counts depth in relations crossed, as `can()` does. What the code counts is rounds:
  `Fixpoint.TooDeep` is the exact condition, some name loops and `maxDepth` rounds leave something derivable to find
  (`Reverses.Reverse.Objects`). Neither depth follows from the other. On a tree of folders `list()` is too deep exactly
  when `maxDepth` is no more than the tree's depth (`Depth.TreeTooDeep`), though nothing on it crosses more relations
  than that (`Depth.TreeCrossesNoMore`): with `maxDepth` 1, one folder viewed and one below it, `list()` throws
  (`Depth.TooDeepAtOne`) and `can()` answers both (`Depth.ListRefusesATree`, for every depth). On a ladder of types
  joined by arrows no name loops: `list()` answers at any `maxDepth`, and `can()` is too deep exactly when the ladder is
  higher than it, from two arrows and `maxDepth` 1 on (`Depth.CanRefusesALadder`).
- A Redis queue reads a failure whose error is `''` back as none (`RedisQueues.ReadBack`), where the memory queue
  keeps it. Its comment says so: a failure is named by its class, never the empty string.
- A sign-in refused by `heldByPassword` is over only once its session is revoked or its challenge burnt: between the
  second read and that write the challenge is still live, so `ByPassword.NoSignInOpen` counts that moment as open.
- Ids are ordered by what they wrote of the clock (`Ids.RunOrder`, exactly). Two families fall out of the order the
  documentation promises: ids stamped before 1970 (`Ids.BeforeTheEpoch`: readings -5 then 5) and milliseconds past
  2^48 (`Ids.PastTheEndStartsOver`).
- A user's set may outlive a record of it, and a delivery deleted by hand leaves a member behind. Over every run, Redis
  sessions, tokens and deliveries are what a plain scan would answer as long as no id or hash is made for two users
  (`RedisSessions.Run`, `RedisTokens.Run`) and no delivery id for two endpoints (`RedisQueues.Run`). Ids and secrets
  minted fresh are not, and neither are the ids of events whose own id and type hold no colon
  (`RedisQueues.WellNamedHasOnePlace`).
  One step keeps the invariant exactly unless something left behind is in the way (`InsertSession`, `InsertToken`,
  `InsertDeliveries`). Where it is, deleting one user's sessions deletes another's (`RedisSessions.DeletesAnothers`, met
  at `RedisSessions.AnothersIsMet`), and a claim of one endpoint answers another's delivery
  (`RedisQueues.AnswersAnothers`, met at `RedisQueues.AnothersIsMet`).

## Model

| member | source | states |
|---|---|---|
| Permissions.CutLosesNothing | packages/janus/src/permissions/walk.ts:48-50 | Cutting a node already on the path loses no derivation: with no step leading to one off the path, there is none |
| Permissions.WithoutReturning | packages/janus/src/permissions/walk.ts:48-64 | Any derivation that takes a step can be shortened to one that never comes back to where it began |
| Permissions.UndeclaredHoldsNothing | packages/janus/src/permissions/walk.ts:52-54 | An entity of a type the model does not declare derives nothing, whatever is stored |
| Permissions.UnplacedGrantsNothing | packages/janus/src/permissions/walk.ts:85-92 | Only tuples the model has a place for matter: two stores that agree on them derive the same |
| Permissions.ConditionsOnlyDecide | packages/janus/src/permissions/walk.ts:126-138 | A condition takes its rule away or leaves it whole: the model with each condition run derives the same |
| Permissions.ReadFieldIs | packages/janus/src/permissions/walk.ts:169-184 | A field names an id exactly when it holds it as text a store can keep |
| Permissions.AdmitsIs | packages/janus/src/permissions/walk.ts:86-95 | An entity is admitted by its type, a set by its type and relation |
| Permissions.PassesIs | packages/janus/src/permissions/walk.ts:126-138 | A rule counts without a condition, and under one exactly when the `ctx` passes it |
| Walks.Walk.Holds | packages/janus/src/permissions/walk.ts:35-64 | The path is restored. Denied: no derivation keeps off the path, no chain crosses more than is left, none comes to what throws, whichever way the walk turns. Any other answer comes of a way the walk took, everything tried before each turn denied; it terminates by depth left, then names of the entity off the path |
| Walks.Walk.RelationOf | packages/janus/src/permissions/walk.ts:66-101 | The same for a relation: the field, or the stored tuple first and the admitted subject sets only without it |
| Walks.Walk.Permission | packages/janus/src/permissions/walk.ts:103-124 | The same for a permission: the first rule that gives anything, all before it denied, a condition run where its rule is come to |
| Walks.Walk.Arrow | packages/janus/src/permissions/walk.ts:117-121 | The same for one arrow, over every entity it reaches, each a relation deeper |
| Walks.Walk.Targets | packages/janus/src/permissions/walk.ts:141-162 | The targets are exactly the entities the arrow reaches, those the model does not admit left out; refused exactly when its field cannot be read |
| Walks.FieldRead | packages/janus/src/permissions/walk.ts:169-184 | A field reads as an id, as nobody, or is the caller's bug; an id no store keeps is nobody |
| Walks.Can | packages/janus/src/permissions/walk.ts:35-162 | Denied if and only if nothing is derivable, no chain crosses more than `maxDepth` relations and none comes to what throws; who holds the name directly is granted, whatever else is stored; any other answer comes of the way taken, the rules before each turn denied; granted within `maxDepth` crossings |
| Walks.DirectIsGranted | packages/janus/src/permissions/walk.ts:86-92 | A direct holder is never thrown anything: nothing is tried before the stored tuple, or the field |
| Walks.DeniedWhenQuiet | packages/janus/src/permissions/walk.ts:35-64 | Of an answer with either meaning, denied is exactly that nothing comes of asking, whichever way |
| Walks.ComesAcross | packages/janus/src/permissions/walk.ts:41-46 | A way taken is a trail: what it crossed, and what it came to |
| Rounds.PullIsStep | packages/janus/src/permissions/reverse.ts:120-128 | What a round pulls back from an id is exactly what steps forward to it |
| Rounds.StepIsPulled | packages/janus/src/permissions/reverse.ts:132-183 | Every step a walk can take is pulled back by some term of its name |
| Rounds.DirectGrants | packages/janus/src/permissions/reverse.ts:107-119 | What a name finds by itself is exactly what grants by itself |
| Fixpoint.RoundsInStep | packages/janus/src/permissions/reverse.ts:72-98 | A round started from more finds more, over the same names and loops: the call tree does not depend on the data |
| Fixpoint.RoundSound | packages/janus/src/permissions/reverse.ts:50-57 | Every round stays below the fixpoint: what it finds is derivable |
| Fixpoint.ReachCovers | packages/janus/src/permissions/reverse.ts:72-98 | Under the memo and the cut path, what a name finds covers every term of it, and every loop is answered by the previous round |
| Fixpoint.SettledIsLeast | packages/janus/src/permissions/reverse.ts:19-24 | A round that met no loop, or found what the previous one did, found exactly the ids derivable: the least fixpoint |
| Fixpoint.RoundGoesFurther | packages/janus/src/permissions/reverse.ts:27-29 | Each round finds every derivation one node longer than the previous one did |
| Fixpoint.SameSizeIsSame | packages/janus/src/permissions/reverse.ts:65-70 | A set within another of the same size is the same set |
| Fixpoint.RoundNRises | packages/janus/src/permissions/reverse.ts:50-57 | Round after round, what is found only grows, stays below the fixpoint, and is of the same names |
| Fixpoint.SettledExactly | packages/janus/src/permissions/reverse.ts:55-55 | A round is final exactly when no name loops, or the rounds before it found everything derivable |
| Fixpoint.TooDeepIsLong | packages/janus/src/permissions/reverse.ts:27-29 | Where `list()` is too deep, some object of a name it reached has no derivation of `maxDepth` nodes or fewer |
| Fixpoint.SettledForGood | packages/janus/src/permissions/reverse.ts:51-57 | Once final at some round, `list()` is too deep for no greater `maxDepth` |
| Fixpoint.ReachedExactly | packages/janus/src/permissions/reverse.ts:72-98 | The names a round reaches are exactly those asked for step by step backwards from the name asked, of declared types |
| Reverses.Reverse.Objects | packages/janus/src/permissions/reverse.ts:50-62 | The answer is exactly the ids derivable; with no other error, it is too deep if and only if a name loops and `maxDepth` rounds leave something derivable to find. It throws for want of a `ctx` or a lookup only at a name asked for on the way back, and answers only when none of these has a condition without a `ctx` |
| Depth.TreeTooDeep | packages/janus/src/permissions/reverse.ts:51-61 | On a tree of folders `list()` is too deep exactly when `maxDepth` is no more than its depth |
| Depth.TreeCrossesNoMore | packages/janus/src/permissions/walk.ts:41-46 | Nothing on that tree crosses more relations than it is deep |
| Depth.TooDeepAtOne | packages/janus/src/permissions/reverse.ts:27-29 | The smallest such tree: two folders and `maxDepth` 1, of which nothing crosses two relations |
| Depth.ListRefusesATree | packages/janus/src/permissions/reverse.ts:27-29 | So `list()` throws where `can()` grants every folder, at the same `maxDepth`, for every one |
| Depth.CanRefusesALadder | packages/janus/src/permissions/reverse.ts:24-29 | And `can()` throws where `list()` answers: up a ladder of arrows, at every `maxDepth`, exactly when it has more arrows than `maxDepth` |
| Depth.LadderIsCrossed | packages/janus/src/permissions/walk.ts:41-46 | Every derivation of a rung crosses as many relations as it is high, and no walk crosses more |
| Reverses.Reverse.Same | packages/janus/src/permissions/reverse.ts:65-70 | Comparing sizes answers whether this round found what the previous one did |
| Reverses.Reverse.Reach | packages/janus/src/permissions/reverse.ts:73-98 | The recursion over the mutable memo, path and flag computes the round's function |
| Reverses.Reverse.RelationOf | packages/janus/src/permissions/reverse.ts:100-130 | So does a relation's part of it |
| Reverses.Reverse.PermissionOf | packages/janus/src/permissions/reverse.ts:132-149 | So does a permission's, conditions run on the way: it stops for want of a `ctx` only at a rule of a permission asked for |
| Reverses.Reverse.Arrow | packages/janus/src/permissions/reverse.ts:152-183 | So does an arrow's, user types left out unless declared |
| Reverses.Reverse.Holding | packages/janus/src/permissions/reverse.ts:186-205 | The page loop reads every object once |
| Reverses.Reverse.LookupOf | packages/janus/src/permissions/reverse.ts:208-230 | What a lookup answers, less what no store keeps, is exactly the objects whose field reads as the id; it throws exactly when there is no lookup |
| Reverses.List | packages/janus/src/permissions/list.ts:55-64 | `list()` answers one page of exactly the ids derivable, or is too deep on exactly the condition of its rounds, or throws for a name asked for on the way back |
| Reverses.ListAgreesWithCan | packages/janus/src/permissions/reverse.ts:19-25 | `list()` pages through one set, all the storable ids derivable, and whenever neither throws these are exactly those `can()` grants, for every subject, tuples the model does not admit included |
| Paging.PageThenRest | packages/janus/src/permissions/list.ts:67-79 | A page is the next `limit` ids, or all there are, and its cursor leaves exactly the rest, strictly shorter |
| Paging.EveryPageIsAll | packages/janus/src/permissions/list.ts:67-79 | Following the cursor to its end lists every id once, ascending, whatever the limit |
| Conditions.Search | packages/janus-graphql/src/directives/permission/model.ts:67-82 | The search with one shared `seen` set answers true if and only if a chain of names not seen before reaches a condition |
| Conditions.ReachesCondition | packages/janus-graphql/src/directives/permission/model.ts:63-83 | True exactly when some chain of rules from the permission meets a `when` |
| Conditions.NoTrailMeetsCondition | packages/janus-graphql/src/directives/permission/model.ts:54-96 | When it answers false, no walk from that type and name ever comes to a condition |
| Conditions.CanNeedsNoContext | packages/janus-graphql/src/directives/permission/model.ts:54-83 | So `can()` never throws for want of a `ctx` |
| Conditions.ListNeedsNoContext | packages/janus-graphql/src/directives/permission/model.ts:54-83 | Nor does `list()` |
| Conditions.LeadsExactly | packages/janus-graphql/src/directives/permission/model.ts:85-96 | A rule is said to lead exactly where some walk may follow it, and to the types of the sets its relation admits |
| Conditions.WalkableIsWalked | packages/janus/src/permissions/walk.ts:103-162 | Where it may, some walk does, over some objects and tuples |
| Earliest.TakeEarliest | packages/janus-webhooks-redis/src/scripts.ts:41-41 | The first `limit` members by score: distinct, ascending, and none left out is earlier |
| Queue.InsertKeeps | packages/janus-webhooks/src/queue/memory.ts:37-53 | An insert keeps what is held as it is, and adds one delivery per new id: never tried, no failure, no lease, due when told |
| Queue.InsertIsIdempotent | packages/janus-webhooks/src/queue/types.ts:12-15 | Inserting the same event again adds nothing |
| Queue.ClaimHides | packages/janus-webhooks/src/queue/types.ts:52-54 | A claim as of before a lease's end answers nothing that lease hides, and leaves it held |
| Queue.ClaimMore | packages/janus-webhooks/src/queue/memory.ts:114-123 | A claim over some endpoints, then of the next with what is left of the limit, is the claim over all of them |
| Queue.ClaimStops | packages/janus-webhooks/src/queue/memory.ts:116-116 | At the limit, the endpoints not walked would have given nothing |
| Queue.ClaimsAgree | packages/janus-webhooks/src/queue/types.ts:66-77 | Without ties any two queues answer the same deliveries in the same order: the specification leaves nothing else open |
| Queue.ClaimIs | packages/janus-webhooks/src/queue/memory.ts:114-122 | A claim counts one attempt more and answers that number, gives the lease answered until `leaseUntil`, keeps event, endpoint and last failure, of deliveries due at one of the endpoints |
| Queue.ClaimLeaves | packages/janus-webhooks/src/queue/memory.ts:106-124 | It leaves every other as it was, and leaves one due only when the limit is reached |
| Queue.ClaimOrder | packages/janus-webhooks/src/queue/memory.ts:92-124 | Endpoints in the order first named, and of one endpoint by due time, what is left out coming no earlier |
| Queue.ExtendIs | packages/janus-webhooks/src/queue/memory.ts:67-72 | An extension moves `due` of the delivery whose lease it names and nothing else |
| Queue.RetryIs | packages/janus-webhooks/src/queue/memory.ts:74-81 | A retry remembers status and error, frees the lease and moves `due`; event, endpoint and attempts stay |
| Queue.DeleteIs | packages/janus-webhooks/src/queue/memory.ts:83-87 | A removal takes the delivery whose lease it names alone |
| MemoryQueues.MemoryQueue.InsertDeliveries | packages/janus-webhooks/src/queue/memory.ts:37-53 | The new map is the insert's, and the answer counts what it added |
| MemoryQueues.MemoryQueue.ClaimDeliveries | packages/janus-webhooks/src/queue/memory.ts:55-57 | A claim as specified, each delivery under a lease of its own |
| MemoryQueues.MemoryQueue.ClaimOrphanedDeliveries | packages/janus-webhooks/src/queue/memory.ts:59-65 | The same claim over every endpoint with deliveries that is not known |
| MemoryQueues.MemoryQueue.ExtendLease | packages/janus-webhooks/src/queue/memory.ts:67-72 | Moves the lease's end when the lease is the one held; otherwise nothing |
| MemoryQueues.MemoryQueue.ScheduleRetry | packages/janus-webhooks/src/queue/memory.ts:74-81 | Due again, the failure remembered, the lease released; otherwise nothing |
| MemoryQueues.MemoryQueue.DeleteDelivery | packages/janus-webhooks/src/queue/memory.ts:83-87 | Removed when the lease is the one held; otherwise nothing |
| MemoryQueues.MemoryQueue.Claim | packages/janus-webhooks/src/queue/memory.ts:106-124 | Exactly as many as the limit allows, endpoint by endpoint, earliest first, each once |
| MemoryQueues.DueOf | packages/janus-webhooks/src/queue/memory.ts:92-100 | The due deliveries of one endpoint, all of them, earliest first |
| RedisQueues.MadeForOne | packages/janus-webhooks-redis/src/scripts.ts:102-105 | Events without colons in their ids and types make a delivery id for one endpoint only |
| RedisQueues.WellNamedHasOnePlace | packages/janus-webhooks-redis/src/scripts.ts:102-105 | So no run of inserts of such events makes an id for two endpoints |
| RedisQueues.GrownInPlace | packages/janus-webhooks-redis/src/scripts.ts:105-116 | While no id is made for two endpoints, an insert leaves every delivery in its own endpoint's set alone, whatever members were left before |
| RedisQueues.Make | packages/janus-webhooks-redis/src/scripts.ts:1-216 | From any state a run reaches, each script's answer and the deliveries after it are the port's, and the keys go on agreeing |
| RedisQueues.Run | packages/janus-webhooks-redis/src/scripts.ts:1-216 | So over every run from an empty queue, inserts refused half way and hashes deleted by hand among its calls, while no id is made for two endpoints |
| RedisQueues.AnswersAnothers | packages/janus-webhooks-redis/src/scripts.ts:105-108 | An id left at one endpoint and made again for another: a claim of the first answers the other's delivery, from any state where one is left |
| RedisQueues.AnothersIsMet | packages/janus-webhooks-redis/src/scripts.ts:102-105 | Such a state is reached by an insert, a hash deleted by hand, and an event with a colon in its type |
| RedisQueues.GrowsBy | packages/janus-webhooks-redis/src/scripts.ts:106-116 | A delivery added is in its own endpoint's set alone, exactly when no member was left under its id elsewhere |
| RedisQueues.RedisQueue.InsertDeliveries | packages/janus-webhooks-redis/src/scripts.ts:91-126 | Takes the deliveries where the memory method takes them; the keys go on agreeing if and only if no member was left under a new id elsewhere; the only members added are its own; refused at any write, every delivery, hash and endpoint is as it was |
| RedisQueues.RedisQueue.ClaimFrom | packages/janus-webhooks-redis/src/scripts.ts:34-67 | Claims exactly the earliest live deliveries in the endpoint's set, each once, also when hashes are gone or the lease ends in range; while the keys agree these are the endpoint's own; the loop ends because a stale pass shrinks the set |
| RedisQueues.RedisQueue.Pass | packages/janus-webhooks-redis/src/scripts.ts:39-60 | One reading of the range: what it claims and drops, and whether all that is live and due is claimed |
| RedisQueues.RedisQueue.ClaimDeliveries | packages/janus-webhooks-redis/src/scripts.ts:132-146 | The claim the memory queue makes, up to ties, under the claim's one lease |
| RedisQueues.RedisQueue.ClaimOrphanedDeliveries | packages/janus-webhooks-redis/src/scripts.ts:153-169 | The same over every endpoint with deliveries that is not known, in the order of their ids |
| RedisQueues.RedisQueue.ExtendLease | packages/janus-webhooks-redis/src/scripts.ts:172-179 | Takes the deliveries where the memory method takes them |
| RedisQueues.RedisQueue.ScheduleRetry | packages/janus-webhooks-redis/src/scripts.ts:185-196 | The same, an error of `''` read back as none |
| RedisQueues.RedisQueue.DeleteDelivery | packages/janus-webhooks-redis/src/scripts.ts:202-216 | The same, and the endpoint leaves with its last member |
| RedisQueues.RedisQueue.DeleteHashByHand | packages/janus-webhooks-redis/src/scripts.ts:27-28 | A key deleted by hand takes its delivery and nothing else; the member left behind stands for nothing |
| RedisQueues.RedisQueue.Rollback | packages/janus-webhooks-redis/src/scripts.ts:121-121 | Undoing every write in reverse restores the keys as they stood |
| RedisQueues.AllUndone | packages/janus-webhooks-redis/src/scripts.ts:86-89 | With nothing left to undo, every key is as before the insert, but for members that stand for nothing |
| Workers.NothingIsLost | packages/janus-webhooks/src/worker/sender.ts:45-146 | Over every interleaving of many workers, crashing at any step: every delivery inserted is held, or was answered 2xx, or was reported given up |
| Workers.OnlyTheLatestWrites | packages/janus-webhooks/src/queue/types.ts:89-105 | Under any lease but the latest, an extension, a retry and a removal change nothing |
| Workers.LeaseHidesOverRuns | packages/janus-webhooks/src/queue/types.ts:52-54 | Until its lease ends, no claim of any worker answers a delivery and nothing but its holder changes it |
| Workers.RemovalWasEarned | packages/janus-webhooks/src/worker/sender.ts:129-134 | A delivery leaves the queue only under its lease, answered 2xx or reported |
| Attempts.AttemptsAreClaims | packages/janus-webhooks/src/queue/memory.ts:114-122 | Over every run a delivery's attempts are the claims that answered its present life |
| Attempts.HeldAsClaimed | packages/janus-webhooks/src/worker/sender.ts:135-135 | While a lease is held, they are the number its claim answered |
| Attempts.DecideIs | packages/janus-webhooks/src/worker/sender.ts:121-146 | Delivered, retried or given up, for which reason and counting how many attempts, exactly when |
| Attempts.KthFailureKthDelay | packages/janus-webhooks/src/worker/sender.ts:135-145 | A retry that takes effect, after the k-th claim of its life, is due the k-th delay after the attempt ended; there is none past the last |
| Attempts.GivenUpAfterEveryDelay | packages/janus-webhooks/src/worker/sender.ts:136-139 | While a failure may wait, it is given up only once every delay was used |
| Attempts.WaitingHasARetryLeft | packages/janus-webhooks/src/worker/sender.ts:135-145 | A delivery waiting under no lease has been tried no more often than there are delays |
| Attempts.ReportedUnderLease | packages/janus-webhooks/src/worker/sender.ts:45-75 | Nothing is reported given up but after an extension of the lease while it was still held |
| Attempts.NothingAfterTheEnd | packages/janus-webhooks/src/worker/sender.ts:121-146 | After a retry, a removal or an extension refused an attempt does and writes nothing more |
| Attempts.OnlyMovesOn | packages/janus-webhooks/src/worker/sender.ts:121-146 | No phase of an attempt comes back, and what was delivered is never given up |
| Closing.ConcurrencyHolds | packages/janus-webhooks/src/worker/pump.ts:138-169 | Requests in flight never exceed `concurrency`, at any moment of any trace |
| Closing.CloseLeavesNothing | packages/janus-webhooks/src/worker/index.ts:89-104 | Once `close()` resolves the queue is empty, and every delivery accepted was answered 2xx or handed to the report, when the drain's one claim could take all that waited |
| Closing.DrainHolds | packages/janus-webhooks/src/worker/drain.ts:37-55 | The drain's claim takes every delivery, each under the lease it then gives up |
| Closing.PumpClaimKeeps | packages/janus-webhooks/src/worker/pump.ts:144-168 | A claim up to the free slots never overfills them |
| Flush.DrainedWasTried | packages/janus-webhooks/src/worker/drain.ts:15-30 | `close()` gives up nothing it never tried: when the drain claims, every delivery left has been claimed for an attempt before, however pumps, wakes and accepts interleave |
| Flush.NothingPutBack | packages/janus-webhooks/src/worker/index.ts:58-60 | Once `close()` was called no failure is scheduled again and no lease freed |
| Flush.DrainGivesUpItsOwn | packages/janus-webhooks/src/worker/drain.ts:37-55 | The drain begins with no request under way, and gives up what it claims alone |
| UserSets.Prune | packages/janus-redis/src/scripts/shared.ts:27-35 | Leaves exactly the members whose record is there, and no empty set |
| UserSets.AddKeeps | packages/janus-redis/src/scripts/shared.ts:12-35 | Pruned, added to and extended, a user's set names every live record and expires no earlier than any, holds no member whose record is gone, and no other set changes; no set names another user's if and only if none was left holding the id |
| UserSets.AddPastKeeps | packages/janus-redis/src/scripts/shared.ts:12-20 | So it does after an insert already expired |
| UserSets.MoveKeeps | packages/janus-redis/src/scripts/shared.ts:12-20 | So it does after a record's expiry moves, either way |
| UserSets.ExpiryKeeps | packages/janus-redis/src/scripts/shared.ts:6-11 | So it does when Redis drops keys on its own |
| UserSets.OwnedWithOneMore | packages/janus-redis/src/scripts/shared.ts:22-35 | An id made for no other user finds itself in no other's set, and leaves every id with the user it was made for |
| UserSets.MembersAreRecords | packages/janus-redis/src/scripts/shared.ts:22-26 | A user's records are exactly the live members of the set, if and only if none of these is another's |
| Sessions.ExtendIs | packages/janus-redis/src/scripts/sessions.ts:54-67 | An extension of a standing session moves its expiry, at once when that is past, keeps all else of it, and touches no other; an absent or revoked one is left |
| Sessions.ExtendThenWait | packages/janus-redis/src/scripts/sessions.ts:54-67 | Extended, a session lives exactly until the new expiry |
| Sessions.InsertIs | packages/janus-redis/src/scripts/sessions.ts:20-39 | An insert adds the session as given, unless its id or its token hash is there, or it is past already |
| Sessions.FindIs | packages/janus-redis/src/scripts/sessions.ts:42-47 | A session found is live and has the hash asked; none only when none has |
| Sessions.ReauthenticateIs | packages/janus-redis/src/scripts/sessions.ts:75-81 | A reauthentication moves `authenticatedAt` of a standing session and nothing else |
| Sessions.WaitIs | packages/janus-redis/src/scripts/sessions.ts:32-33 | Time takes exactly what expired |
| Sessions.RevokeIs | packages/janus-redis/src/scripts/sessions.ts:87-94 | A revocation is of that session alone, sets `revokedAt` and nothing else, and the first stands |
| Sessions.RevokeUserIs | packages/janus-redis/src/scripts/sessions.ts:101-115 | A user's is of every standing session of theirs but one, counted, and of nobody else's |
| Sessions.DeleteUserIs | packages/janus-redis/src/scripts/sessions.ts:121-137 | A deletion takes and counts every session of the user, and nobody else's |
| RedisSessions.TokenTells | packages/janus-redis/src/scripts/sessions.ts:24-28 | A token hash is some live session's exactly when its key is there, and the key points at that session |
| RedisSessions.RedisSessions.Advance | packages/janus-redis/src/scripts/sessions.ts:32-33 | When time passes Redis drops exactly the sessions that expired, and every index still agrees |
| RedisSessions.RedisSessions.InsertSession | packages/janus-redis/src/scripts/sessions.ts:20-39 | Written, a retry that writes nothing, or refused for a token hash another session holds, as a scan tells; the sets agree after it if and only if no other user's was left holding the id, and only the user's own gains it |
| RedisSessions.RedisSessions.FindSession | packages/janus-redis/src/scripts/sessions.ts:42-47 | The session a scan would find by its token hash, or none |
| RedisSessions.RedisSessions.ExtendSession | packages/janus-redis/src/scripts/sessions.ts:54-67 | Moves a standing session's expiry and its indexes with it; gone at once when that is past; an absent or revoked one is left |
| RedisSessions.RedisSessions.ReauthenticateSession | packages/janus-redis/src/scripts/sessions.ts:75-81 | Moves `authenticatedAt` of a standing session, and nothing else |
| RedisSessions.RedisSessions.RevokeSession | packages/janus-redis/src/scripts/sessions.ts:87-94 | Revoked now or already, keeping the first `revokedAt` |
| RedisSessions.RedisSessions.RevokeUserSessions | packages/janus-redis/src/scripts/sessions.ts:101-115 | Revokes and counts exactly the standing sessions a scan would, but `except` |
| RedisSessions.RedisSessions.DeleteUserSessions | packages/janus-redis/src/scripts/sessions.ts:121-137 | Deletes and counts the live members of the user's set with their tokens, which are exactly the sessions a scan would delete while the sets agree |
| RedisSessions.Make | packages/janus-redis/src/scripts/sessions.ts:1-137 | From any state a run reaches, each call is answered as a plain scan would, and the sets go on agreeing |
| RedisSessions.Run | packages/janus-redis/src/scripts/sessions.ts:1-137 | So over every run from an empty store, at every instant, while no id is made for two users |
| RedisSessions.DeletesAnothers | packages/janus-redis/src/scripts/sessions.ts:20-39 | An id left in one user's set and made again for another: deleting the first user's sessions deletes the other's, from any state where one is left |
| RedisSessions.AnothersIsMet | packages/janus-redis/src/scripts/sessions.ts:20-39 | Such a state is reached by two inserts and an expiry |
| Tokens.SpentStays | packages/janus/src/auth/port/types/tokens.ts:70-71 | Once set, `spentAt` never changes |
| Tokens.SpentOnce | packages/janus/src/auth/port/types/tokens.ts:83-91 | No two calls of a run are told they spent one token |
| Tokens.SpentBySome | packages/janus/src/auth/port/types/tokens.ts:86-87 | A token issued unspent and found spent was spent by a call told so |
| Tokens.CountsAddUp | packages/janus/src/auth/port/types/tokens.ts:144-146 | What all calls were told they spent adds up to the tokens ever spent |
| Tokens.CountsDiffer | packages/janus/src/auth/port/types/tokens.ts:112-115 | Two attempts counted against one token never answer the same count |
| Tokens.ConsumeIs | packages/janus-redis/src/scripts/tokens.ts:31-40 | A redemption answers the token of this hash and of the kind asked, as it was, and spends it if unspent; nothing of another kind is answered or written |
| Tokens.OtherKindNothing | packages/janus-redis/src/scripts/tokens.ts:33-33 | A call of another kind leaves the table as it was |
| Tokens.CountIs | packages/janus-redis/src/scripts/tokens.ts:47-56 | An attempt counts one, against an unspent token of this hash and kind, and answers it as it is after |
| Tokens.SpendUserIs | packages/janus-redis/src/scripts/tokens.ts:64-75 | A user's spend is of every unspent token of theirs of the kind but one, and of no other |
| Tokens.InsertIs | packages/janus-redis/src/scripts/tokens.ts:10-24 | An insert adds the token as given unless its hash is there, and touches no other |
| RedisTokens.RedisTokens.Advance | packages/janus-redis/src/scripts/tokens.ts:18-18 | When time passes Redis drops exactly the tokens that expired, and the sets still name the rest |
| RedisTokens.RedisTokens.InsertToken | packages/janus-redis/src/scripts/tokens.ts:10-24 | Written unless the hash is there; the sets agree after it if and only if no other user's was left holding the hash, and only the user's own gains it |
| RedisTokens.RedisTokens.ConsumeToken | packages/janus-redis/src/scripts/tokens.ts:31-39 | Answers the token as it was, and spends it when that was unspent |
| RedisTokens.RedisTokens.CountAttempt | packages/janus-redis/src/scripts/tokens.ts:47-54 | Counts one attempt against an unspent token, and answers it as it is after |
| RedisTokens.RedisTokens.SpendUserTokens | packages/janus-redis/src/scripts/tokens.ts:64-75 | Spends and counts exactly the unspent tokens a scan would, but `except` |
| RedisTokens.RedisTokens.DeleteUserTokens | packages/janus-redis/src/scripts/tokens.ts:78-87 | Deletes and counts exactly the tokens a scan would |
| RedisTokens.Make | packages/janus-redis/src/scripts/tokens.ts:1-87 | From any state a run reaches, each script answers as a plain scan would, and the sets go on agreeing |
| RedisTokens.Run | packages/janus-redis/src/scripts/tokens.ts:1-87 | So over every run from an empty store, at every instant, while no hash is made for two users |
| LatestOnly.OneLive | packages/janus/src/auth/email-sign-in.ts:40-57 | Among finished requests of a user and kind one token at most is live, at every moment of every run |
| LatestOnly.StepKeepsOnlyLatest | packages/janus/src/auth/email-sign-in.ts:40-57 | The one that may be live is of the request that finished last |
| LatestOnly.OneLiveOnceFinished | packages/janus/src/auth/email-flows/reset-password.ts:93-101 | Once all finished, the user has one live token of the kind at most |
| LatestOnly.SparesItsOwn | packages/janus/src/auth/email-sign-in.ts:51-56 | A request spares its own token, and leaves no other unspent |
| LatestOnly.SpentExactlyOnce | packages/janus/src/auth/port/types/tokens.ts:144-146 | However requests and redemptions race, a token spent was spent by exactly one call |
| LatestOnly.SpendsItsKindOnly | packages/janus/src/auth/email-sign-in.ts:51-56 | A request spends its own user's tokens of its own kind, but its own, and no other |
| ByPassword.ChallengesHoldThePassword | packages/janus/src/auth/password-written.ts:73-82 | With no sign-in half-way and no writer between write and spend, every live challenge was opened with the password still held |
| ByPassword.RefusedIsOver | packages/janus/src/auth/password-written.ts:97-107 | A sign-in told no leaves neither session nor challenge live, ever after |
| ByPassword.KeptWhenHeld | packages/janus/src/auth/password-written.ts:91-97 | A sign-in is kept exactly when its password is still the user's, by another hash or not |
| ByPassword.UndisturbedIsKept | packages/janus/src/auth/context/password.ts:81-114 | A sign-in no password write crosses is kept, whoever rehashes meanwhile |
| ByPassword.WriterLeavesTrace | packages/janus/src/auth/password-written.ts:28-33 | A password stops being held only by a write whose writer then has to spend |
| ByPassword.StepKeepsKept | packages/janus/src/auth/password-written.ts:78-80 | Whichever order they interleave in, the writer or the sign-in sees the other |
| ByPassword.RefusalIs | packages/janus/src/auth/password-written.ts:97-107 | Ending a refused sign-in ends what it opened and nothing else |
| ByPassword.EndingIs | packages/janus/src/auth/password-written.ts:36-50 | A writer ends its own user's challenges: no session, nobody else's token, and none of another kind |
| ByPassword.RehashIs | packages/janus/src/auth/context/password.ts:81-114 | A rehash keeps the password and is no write of one |
| Ids.Minter.MintId | packages/janus/src/ids/id.ts:53-97 | The clock kept is the one specified, and the text is that of the bytes written |
| Ids.Layout | packages/janus/src/ids/id.ts:84-96 | The bytes are the UUIDv7 layout: 48 bits of milliseconds, version, sequence, variant, random |
| Ids.TickForward | packages/janus/src/ids/id.ts:54-79 | Minting moves strictly forward and never before the clock read |
| Ids.TickCounts | packages/janus/src/ids/id.ts:54-79 | As one number, 4096 to the millisecond, the clock counts one on at each mint unless the reading is ahead: then it starts there |
| Ids.StalledKeepsMs | packages/janus/src/ids/id.ts:56-64 | A reading repeated keeps its millisecond until the sequence runs out |
| Ids.RunsLittleAhead | packages/janus/src/ids/id.ts:59-63 | The clock runs ahead of its readings by a millisecond in 4096 mints at most |
| Ids.TextOrder | packages/janus/src/ids/id.ts:7-12 | A later clock is a greater string, whatever the random tails |
| Ids.OrderIsOfWritten | packages/janus/src/ids/id.ts:84-91 | Of two clocks that write differently, the first gives the lesser text if and only if what it writes comes before |
| Ids.RunOrder | packages/janus/src/ids/id.ts:53-97 | So it is of any two ids of any run, before 1970 and past 2^48 included |
| Ids.StrictlyIncreasing | packages/janus/src/ids/id.ts:44-52 | From the first id stamped at the epoch or later, ids are strictly increasing strings below 2^48, none stamped before its reading |
| Ids.BeforeTheEpoch | packages/janus/src/ids/id.ts:30-30 | Readings -5 then 5 give a second id lesser than the first |
| Ids.PastTheEndStartsOver | packages/janus/src/ids/id.ts:84-84 | Of two ids less than 2^48 milliseconds apart, on either side of 2^48, the later is always the lesser |
| Ids.MintedAtReads | packages/janus/src/ids/id.ts:124-127 | `mintedAt` answers the milliseconds written |
| Ids.MintedIsId | packages/janus/src/ids/id.ts:99-113 | Every id minted is one `isId` accepts |
| Base32.ToBase32 | packages/janus/src/auth/totp.ts:19-33 | The text is the bytes' bits in groups of five, the last filled with zeros, though the accumulator wraps |
| Base32.FromBase32 | packages/janus/src/auth/totp.ts:35-50 | The whole bytes among the text's bits, or a refusal exactly when a character is not of the alphabet |
| Base32.DecodesWhatEncodes | packages/janus/src/auth/totp.ts:18-50 | What a text decodes to is what it was encoded from |
| Base32.RoundTrip | packages/janus/src/auth/totp.ts:18-50 | `fromBase32(toBase32(b))` is `b` for every byte sequence |
| Base32.EncodedLength | packages/janus/src/auth/totp.ts:18-33 | As many letters as hold the bits, and no padding |
| Base32.AlphabetIs | packages/janus/src/auth/totp.ts:11-11 | The letters are those of table 3 of RFC 4648 |
| Totp.EqualCodes | packages/janus/src/auth/totp.ts:93-99 | True exactly for equal strings |
| Totp.MatchStep | packages/janus/src/auth/totp.ts:74-90 | The earliest step within the drift, after the last used, that shows this code; none when there is none |
| Totp.StepsRise | packages/janus/src/auth/second-factor/factor.ts:59-63 | However confirmations race, accepted steps strictly increase |
| Holders.ScanHolders | packages/janus/src/permissions/holders.ts:136-175 | The matching holders among the next ones, at most `limit`, at most the budget judged, and a cursor at the last looked at |
| Holders.JudgeVisible | packages/janus/src/permissions/holders.ts:149-163 | Batches of any size keep the matching holders in order until one more than the page |
| Holders.StartAfter | packages/janus/src/permissions/port/holders.ts:63-89 | A page after a holder starts at the next one |
| Holders.CursorMoves | packages/janus/src/permissions/holders.ts:164-174 | The cursor moves strictly forward |
| Holders.ChainIsAll | packages/janus/src/permissions/holders.ts:131-135 | Following the cursor lists exactly the matching holders, in order, once each, whatever every page's limit, budget and batch |
| Holders.ReadEveryHolder | packages/janus/src/permissions/holders.ts:136-175 | So does the loop a caller writes, and it ends |
| Holders.PassingIs | packages/janus/src/permissions/holders.ts:154-158 | What passes is every holder the predicate holds of, each once, in order |
| Holders.StartIs | packages/janus/src/permissions/port/holders.ts:63-89 | A page starts right after the holders that come no later than its cursor, whether it is one of them or not |
| HolderCursors.ReadsBack | packages/janus/src/permissions/port/holders.ts:35-50 | A cursor reads back as its holder exactly while the type is below a billion characters |
| HolderCursors.PrintsBack | packages/janus/src/permissions/port/holders.ts:38-50 | Any text that reads as a cursor is the one minted for that holder |
| HolderCursors.AsWritten | packages/janus/src/permissions/port/holders.ts:29-36 | A cursor is the type's length, the type and the id |
| PublishOrder.InDependencyOrder | scripts/publish.ts:82-102 | A permutation in which every listed dependency comes first; refused exactly when there is a cycle, naming packages that wait for one another |
| PublishOrder.StuckIsCycle | scripts/publish.ts:92-95 | Packages all waiting for one another hold a cycle |
| PublishOrder.OrderedHasNoCycle | scripts/publish.ts:81-102 | What is ordered has no cycle |
| Notation.RoundTrip | packages/janus/src/subjects/notation.ts:41-76 | A tuple printed parses back to itself exactly when it is well formed |
| Notation.TuplePrints | packages/janus/src/subjects/notation.ts:24-27 | Any text that parses prints back to itself, and what it parses to is well formed |
| Notation.SubjectBack | packages/janus/src/subjects/notation.ts:83-100 | A subject printed parses back to itself |
| Notation.SubjectPrints | packages/janus/src/subjects/notation.ts:83-100 | Any text that parses as a subject prints back to itself |
| Notation.AsWritten | packages/janus/src/subjects/notation.ts:29-76 | A tuple prints as messages write it |
| Notation.PathKeysTell | packages/janus/src/permissions/walk.ts:48-48 | Two nodes of a walk never share a key, whatever their ids hold |

## Left out

- Storable: a Dafny string holds no lone surrogate, so an id is unstorable here only for a NUL; strings are ordered by code point, which is JavaScript's order by UTF-16 unit only outside the supplementary planes.
- MatchStep: the HMAC behind a code is a parameter, the code a secret shows at each step; a negative step, before the epoch, is not refused.
- EqualCodes: the words or-ed together are one flag; only whether they are zero matters.
- StrictlyIncreasing: says nothing of ids stamped before 1970 or past 2^48 milliseconds, where the order fails; RunOrder gives the order of every run.
- ClaimDeliveries: equal due times may be answered in either order, as the two queues do.
- ScheduleRetry: a store failing between its two writes, whose partial outcome the script documents, is not modelled; only an insert's rollback is.
- CloseLeavesNothing: what waits at the drain is at most 2^53 - 1 deliveries, the limit of its one claim.
- ScanHolders: `all` is what the search text leaves, already ordered; case folding of the search is not modelled.
- InDependencyOrder: names are distinct, as package names are; duplicate names are outside it.
- Pump wakes: that every wake leads to a claim is not claimed, only that the flush returns with nothing left untried.
- Worker timers, the poll, the backoff and the sweeper are wakes and claims that may come at any time.
- A broken drain: an attempt too broken to handle may end at any step, but a drain that breaks never resolves.
- The reset links a password writer spends beside the challenges, and the sessions a reset revokes, are calls among the others of `ByPassword.dfy`.
- The session a redeemed challenge opens is not tied to the sign-in that opened the challenge.
- Resolving a model, checking what callers pass, error texts and type-level checks.
- The Mongo and SQL stores, GraphQL servers, HTTP, mail, telemetry and build scripts: they are I/O or thin wrappers.
- Hashing, signing, sealing and randomness: drawn values are parameters, and never drawn twice where that matters.
