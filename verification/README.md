# Verification models

Dafny models of the algorithms and state machines of a FastAPI admin backend with an LLM gateway,
with proofs about them. `dafny verify dfyconfig.toml` checks everything.

Redis is a map from keys to values with an expiry, time is a clock that never goes back (except in
the snowflake generator, whose clock may), and one Redis command, or one service call where noted,
is one step. Code that fills maps in loops or updates objects is modelled by methods and classes
proved against functions; the theorems are about those functions, and about runs of them.

| files | subject |
|---|---|
| `JoinSerializer`, `JoinDictionaries`, `JoinGrouping`, `JoinRows`, `JoinRoundTrip` | turning the rows of a multi-way join back into nested objects |
| `Bits`, `Snowflake`, `SnowflakeRuns`, `NodeLease`, `LeaseRuns` | 63-bit ids that never repeat, the leases that keep their nodes apart, and both together |
| `Forests`, `StableSort`, `TreeBuild` | two ways of building a forest from parent links |
| `Breaker`, `Gateway` | the circuit breaker, and what the fallback search does to it |
| `RateWindow`, `TokenQuota`, `QuotaReached` | requests per minute, token quotas and the usage ledger |
| `UserCache`, `CachedRights` | the cached user record, who must be cleared from it, and what it grants meanwhile |
| `DataPermission` | compiling a user's data rules to a condition |
| `TokenSessions`, `LoginLockout` | sessions with refresh rotation, and the password lockout |
| `BeatSync` | the re-entrant flush of the beat scheduler |
| `Basics`, `Options` | small facts about sets and lists, and the option type |

Places where the code does less than its comments or its callers suggest, and when exactly it does
what one would expect:

- The serializer gives a forest back if and only if no root keyed 0 has children that show
  (`SerializeInvertsJoin`): such a root is looked up by its address, so all its relations come out
  empty, whatever the rows (`ZeroKeyLosesChildren`).
- The two tree builders agree if and only if there are no orphans (`BuildersAgree`); on a parent
  cycle, and only there, the recursive one never returns (`RecursiveTerminates`), while the linking
  one drops the cycle (`ForestHoldsGrounded`).
- Leases exclude on all runs if and only if renewals are less than a TTL apart (`ExclusionExactly`);
  with the deployed settings one failed heartbeat is a whole TTL (`OneMissedHeartbeatShares`). A
  late process's release evicts a punctual rival: the punctual ones exclude each other if and only
  if nobody is late (`PunctualExactly`).
- A node handed on within a millisecond repeats ids, and so does a generator used after its node was
  released, which `generate` does not notice (`GenerateAfterRelease`): ids are unique on all runs of
  timely processes if and only if the next holder's clock is at least a millisecond on and nobody
  generates after releasing, or all clocks are that far apart where they share a node
  (`HandoverExactly`).
- The fallback search takes a permit from every candidate and uses one. A request leaks nothing if
  and only if nobody has room for it, or its call ends in a report and the primary or just one
  candidate has room, each at the moment it is asked (`LeaksNothingExactly`, `LaterReadingLeaks`);
  building the parameters outside the `try` and cancellation end a call without a report. Leaked permits can wedge a provider nobody called
  (`FallbackSearchWedges`), but only those of the present half-open episode (`ProviderRecovers`).
- A request that dies between INCR and EXPIRE leaves a counter without an end (`CrashUnarms`): some
  later request passes if and only if the limit is positive and the counter is not both unarmed for
  good and full (`RecoversExactly`).
- The limiter's minute bound is `2 * limit - 1`, one better than twice the limit, and it is reached
  (`AnyMinuteBounded`, `BoundReached`). So is the quotas' bound of the limit less one plus `k * m`
  (`OvershootBounded`, `OvershootReached`).
- The usage counters fall behind the ledger if and only if a request fails, or is cancelled, between
  its answer and the command that counts it, or is between the two now (`CountersMatchLedger`).
- Logins, updates of a department and deletions of a menu clear nobody's cached record: the cache
  stays right on a run if and only if none of them meets a cached user's own row, department or
  menus (`CoherentExactly`). A record never grants less than the database (`NeverGrantsLess`), but a
  deleted menu's permission is granted on (`DeletedMenuGrants`) and the users of a locked department
  stay in (`ShutDeptAdmits`): grants and admission are the database's throughout if and only if no
  step deletes a cached staff user's last menu, or the last with some mark, or shuts a cached user's
  department (`RightsExactlyThroughout`).
- A single-login user's login or a password reset ends the sessions of every user whose number
  begins with theirs (`PrefixReaches`, `EndsExactly`). A revoked session's refresh token still opens
  a new one if and only if it has not expired and the user may have several sessions, or has no
  other access entry (`RevokedCanRotate`).
- The lockout's bound on failed checks holds on all runs with at most k attempts open at once if and
  only if k is at most one (`LockoutExactly`, `OverlapEscapes`).
- The unsaved state a beat entry had when its name was popped reaches its row if and only if the look
  at the schedule did not reload, or the row is gone (`SavedExactly`). Loading fills in a time for a
  task that never ran, and only that makes a loaded entry differ from its row (`LoadedExactly`); the
  flush may write it.

## Model

| member | source | states |
|---|---|---|
| JoinSerializer.ParseRelationships | backend/utils/serializers.py:118-149 | the loop over the relation list builds the graph, reverse and custom-name maps of the list, later entries overwriting earlier ones |
| JoinSerializer.BuildHierarchy | backend/utils/serializers.py:254-287 | under every (main, class, parent) key the three-level hierarchy holds what the rows file there, in row order with repetitions |
| JoinSerializer.DedupeObjects | backend/utils/serializers.py:159-167 | the loop with its seen set is first-occurrence de-duplication by id |
| JoinSerializer.DedupFromConcat | backend/utils/serializers.py:159-167 | de-duplicating a concatenation is de-duplicating the parts, the second knowing the ids of the first |
| JoinSerializer.RecursiveBuild | backend/utils/serializers.py:323-350 | on an acyclic relation graph the recursion terminates and returns the nested list of the key |
| JoinSerializer.WriteRelations | backend/utils/serializers.py:335-346 | writing every relation in order gives the dictionary of the object |
| JoinSerializer.SelectJoinSerialize | backend/utils/serializers.py:178-388 | the imperative serializer, error and empty cases included, computes the function of rows and relations the theorems are about |
| JoinDictionaries.SerializeShows | backend/utils/serializers.py:178-388 | for arbitrary rows and any acyclic list: one distinct main id gives one dictionary, any other number a list; every dictionary, at every depth, holds its object's own value under each column no relation goes to, and under each relation all children of a to-many, or the first or nothing of a to-one relation; nothing, an error or the flat form exactly otherwise |
| JoinDictionaries.ParsedNothing | backend/utils/serializers.py:118-120 | the relation graph is empty, and the flat form taken, only without entries |
| JoinDictionaries.ParsedExactly | backend/utils/serializers.py:118-149 | whatever entries the list repeats or contradicts, each pair of classes has one edge, of the kind given last; a class's parent is that of the last entry leading to it, and a custom name the last one given that is not empty |
| JoinGrouping.SharingMember | backend/utils/serializers.py:256-287 | an object belongs to a parent's reference list exactly when some row holds both |
| JoinGrouping.BucketIsSharing | backend/utils/serializers.py:256-287 | grouping by main object, class and parent key equals filtering the rows by main object and parent |
| JoinGrouping.DedupExact | backend/utils/serializers.py:159-167 | de-duplication keeps exactly one object of every id, the first, in order of first appearance |
| JoinGrouping.NestIsChildList | backend/utils/serializers.py:323-361 | for arbitrary rows with one class a column and a key in every object, the list nested under a parent is the id-distinct, first-occurrence-ordered list of the children sharing a row with it and its main object |
| JoinGrouping.MainsExact | backend/utils/serializers.py:363-386 | one result for each distinct main id, taken from its first row, in order of those rows, and none is left out |
| JoinGrouping.ZeroKeyLosesChildren | backend/utils/serializers.py:109-110 | for arbitrary rows, a main object keyed 0 or without a key, whose address is no object's key, comes out with every relation empty |
| JoinRows.SharingIsKids | backend/utils/serializers.py:198-287 | in the join rows of one nested entity, the rows holding an entity list exactly its children of a relation, up to what de-duplication removes |
| JoinRoundTrip.ParsedMatches | backend/utils/serializers.py:118-149 | parsing the relation list of a tree-shaped schema gives a graph that says what the schema says |
| JoinRoundTrip.SchemaAcyclic | backend/utils/serializers.py:323-350 | a tree-shaped relation list gives an acyclic graph, so the recursion terminates |
| JoinRoundTrip.SerializeServes | backend/utils/serializers.py:198-388 | on every such forest the serializer gives exactly the forest with the children of roots keyed 0 left out |
| JoinRoundTrip.SerializeInvertsJoin | backend/utils/serializers.py:198-388 | serializing the join rows of a nested forest (cartesian across sibling branches, None for an empty one) gives the forest, in the same order, if and only if no root keyed 0 has children under a name no later relation overwrites; one class a column, any ids, equal class and id below one main object meaning equal subtree |
| JoinRoundTrip.SerializeInvertsJoinOfSchema | backend/utils/serializers.py:118-388 | the same equivalence for the whole pipeline, starting from the relation list itself |
| Bits.AndIsBitwise | backend/utils/snowflake.py:199-226 | `&` on unbounded integers acts bit by bit, negative numbers included |
| Bits.OrIsBitwise | backend/utils/snowflake.py:208-213 | `\|` on unbounded integers acts bit by bit |
| Bits.BitIsShifted | backend/utils/snowflake.py:216-226 | a bit is the parity of the number shifted right, negative numbers included |
| Bits.OrIsSum | backend/utils/snowflake.py:208-213 | or-ing a field into the zeros a shift left behind adds it |
| Bits.MaskIsMod | backend/utils/snowflake.py:223-226 | masking with n ones is the non-negative remainder, on every integer |
| Snowflake.PackIsSum | backend/utils/snowflake.py:207-213 | for in-range fields the packed id is the sum of the shifted fields |
| Snowflake.ParsePack | backend/utils/snowflake.py:216-226 | parsing a packed in-range record gives the record back |
| Snowflake.PackParse | backend/utils/snowflake.py:216-226 | every integer parses to in-range fields that pack to that integer |
| Snowflake.FitsSixtyFourBits | backend/utils/snowflake.py:22-37 | the id lies in [0, 2^63) exactly when the time lies within 2^41 ms after the epoch |
| Snowflake.PackMonotone | backend/utils/snowflake.py:207-213 | on one node ids are ordered as (time, sequence) |
| Snowflake.Generator.Init | backend/utils/snowflake.py:125-161 | a generator becomes initialized exactly with an in-range node, from both settings or from a lease; one setting alone is an error |
| Snowflake.Generator.TillNextMs | backend/utils/snowflake.py:172-178 | waiting returns the first clock reading after the last timestamp |
| Snowflake.Generator.Generate | backend/utils/snowflake.py:180-213 | the stateful call, roll-back and sequence wrap included, is the step function of the run theorems |
| Snowflake.CallAdvances | backend/utils/snowflake.py:180-213 | an issued id is above everything the generator stood at before, whatever the clock readings; every other call changes nothing or waits in the lock |
| Snowflake.ClockErrorExactly | backend/utils/snowflake.py:187-195 | a call gives up exactly if its clock is more than ten seconds behind the last id's |
| SnowflakeRuns.IdsUnique | backend/utils/snowflake.py:172-213 | over every interleaving on distinct nodes, each generator's ids strictly increase and no id is issued twice |
| SnowflakeRuns.PerMillisecond | backend/utils/snowflake.py:197-203 | no millisecond carries more than 4096 ids of one node |
| SnowflakeRuns.SharedNodeCollides | backend/utils/snowflake.py:207-213 | two generators sharing a node issue the same id in the same millisecond |
| NodeLease.Redis.SetNxEx | backend/utils/snowflake.py:74-77 | SET NX EX takes the key exactly when no live lease is on it |
| NodeLease.Redis.Expire | backend/utils/snowflake.py:89 | EXPIRE renews whatever live lease is there, whoever owns it, and never creates one |
| NodeLease.NodeManager.AcquireNodeId | backend/utils/snowflake.py:53-77 | undisturbed, acquisition leases the lexicographically least free pair and fails exactly when all 1024 are live |
| NodeLease.NodeManager.Heartbeat | backend/utils/snowflake.py:84-92 | a heartbeat moves the expiry of the live lease on the node, or does nothing |
| NodeLease.NodeManager.Release | backend/utils/snowflake.py:105-107 | release deletes the node's key without looking at its owner |
| NodeLease.SeenIsSkipped | backend/utils/snowflake.py:56-72 | a pair seen leased while scanning is passed over when its turn comes, even if it is free by then |
| NodeLease.OwnershipKept | backend/utils/snowflake.py:53-107 | on timely runs every holder's lease is its own and expires one TTL after its last renewal |
| NodeLease.ExclusionExactly | backend/utils/snowflake.py:53-107 | no two live processes share a pair on all runs with renewal gaps up to `gap`, if and only if `gap` is below the TTL |
| NodeLease.OneMissedHeartbeatShares | backend/utils/snowflake.py:84-92 | with the deployed interval and TTL one missed heartbeat suffices for two processes to share a pair |
| NodeLease.LateReleaseEvicts | backend/utils/snowflake.py:96-107 | one late process's release lets any two punctual ones share a pair |
| NodeLease.PunctualExactly | backend/utils/snowflake.py:84-107 | with gaps below the TTL, the punctual processes exclude each other on all runs if and only if no process is late |
| NodeLease.ExhaustedMeansTaken | backend/utils/snowflake.py:66-72 | on every run a process that gives up met each of the 1024 pairs leased during its own search |
| LeaseRuns.HandoverExactly | backend/utils/snowflake.py:144-213 | over runs that interleave acquiring, renewing, losing and releasing leases with generating ids, before or after the release, no id is issued twice on all runs that keep a clock rule, if and only if the rule's d is at least one and, where it speaks only of a holder's clock being d milliseconds past earlier holders', nobody generates after releasing; the other rule sets any two clocks on a node d apart |
| LeaseRuns.GenerateAfterRelease | backend/utils/snowflake.py:163-213 | a generator goes on after its node is released, and repeats the next holder's ids however far that holder's clock had to be past earlier ones |
| LeaseRuns.CrashEnds | backend/utils/snowflake.py:96-107 | a process that dies issues nothing more, and its lease stays until it expires |
| LeaseRuns.HoldersNeedNoClock | backend/utils/snowflake.py:180-213 | the clock rules ask nothing of a holder whose node was used by itself and present holders only |
| LeaseRuns.IssuedReads | backend/utils/snowflake.py:172-213 | an issued id carries a timestamp the call read from its clock |
| Forests.ForestHoldsGrounded | backend/utils/build_tree.py:25-50 | for unique ids and arbitrary parents the linked forest holds a node once if its parent chain ends at null or a missing id, and not at all otherwise |
| Forests.ForestComplete | backend/utils/build_tree.py:25-50 | the forest is cut off nowhere: growing it deeper adds nothing |
| Forests.RecursiveTerminates | backend/utils/build_tree.py:53-68 | with unique ids the recursion from a parent returns within a depth bounded by the list exactly when that parent is not on a cycle |
| Forests.CycleNeverReturns | backend/utils/build_tree.py:53-68 | from an id on a cycle no recursion limit suffices |
| Forests.RecursiveGrows | backend/utils/build_tree.py:53-68 | when the recursion returns, it returns the forest grown from the parent's children |
| Forests.BuildersAgree | backend/utils/build_tree.py:25-68 | the two builders return equal forests if and only if there are no orphans |
| StableSort.SortIsStable | backend/utils/build_tree.py:19-21 | the sort is ascending, a permutation, and keeps equal keys in order |
| StableSort.SortIsUnique | backend/utils/build_tree.py:19-21 | any ascending stable rearrangement is this one |
| StableSort.SiblingsSorted | backend/utils/build_tree.py:19-21 | siblings keep the stable order of the sorted list |
| TreeBuild.TraversalToTree | backend/utils/build_tree.py:25-50 | in-place linking of node objects leaves exactly the forest of their parent links |
| TreeBuild.RecursiveToTree | backend/utils/build_tree.py:53-68 | the recursive builder, setting `children` in place, fails exactly when the recursion does and otherwise completes every node it returns |
| TreeBuild.GetTreeNodes | backend/utils/build_tree.py:10-22 | one fresh node a row, stably sorted if asked |
| TreeBuild.GetTreeData | backend/utils/build_tree.py:71-97 | for both build types, sorted or not, following `children` through the allocated nodes shows the forest the theorems describe |
| Breaker.CircuitBreaker.AllowRequest | backend/app/llm/core/circuit_breaker.py:60-80 | the locked method is the admission step of the run theorems |
| Breaker.CircuitBreaker.RecordSuccess | backend/app/llm/core/circuit_breaker.py:82-93 | the success report is the success step |
| Breaker.CircuitBreaker.RecordFailure | backend/app/llm/core/circuit_breaker.py:95-107 | the failure report is the failure step |
| Breaker.NoWedge | backend/app/llm/core/circuit_breaker.py:53-107 | over all runs a request is granted unless the breaker is open within its timeout, or half-open with a grant of this very episode unreported; grants lost earlier do no harm and a closed breaker always grants |
| Breaker.NoWedgeExactly | backend/app/llm/core/circuit_breaker.py:14-36 | recovery is guaranteed on every run if and only if at least one half-open call is allowed |
| Breaker.WedgedForever | backend/app/llm/core/circuit_breaker.py:75-80 | a half-open breaker with its permits used up refuses every request at every time until a report or reset |
| Breaker.UnreportedWedge | backend/app/llm/core/circuit_breaker.py:60-80 | grants that never report wedge the breaker, whatever its settings |
| Breaker.StaleSuccessesClose | backend/app/llm/core/circuit_breaker.py:82-90 | successes of calls from before it opened close a half-open breaker that granted nothing |
| Breaker.ClosedCountsTrailing | backend/app/llm/core/circuit_breaker.py:91-107 | while closed the failure count is the trailing run of failures and below the threshold |
| Breaker.EpisodeBounded | backend/app/llm/core/circuit_breaker.py:53-80 | a half-open episode grants at most the configured number of calls |
| Breaker.HalfOpenGrantsWait | backend/app/llm/core/circuit_breaker.py:53-80 | a half-open grant is more than the timeout after every earlier failure |
| Gateway.Manager.AllowRequest | backend/app/llm/core/circuit_breaker.py:142-152 | a provider's breaker is created on first use and asked |
| Gateway.Manager.GetFallbackModels | backend/app/llm/core/gateway.py:91-111 | every usable candidate's breaker is asked in order, each by its own clock reading, and the granted ones are returned |
| Gateway.Manager.Admit | backend/app/llm/core/gateway.py:240-248 | the primary if its breaker grants, else the first granted fallback, else nobody |
| Gateway.Manager.Report | backend/app/llm/core/gateway.py:257-317 | an answer reports success, a failed call failure, a failure after the answer both, a call that was cancelled or never built nothing |
| Gateway.ReportAgrees | backend/app/llm/core/gateway.py:250-317 | for every way a call ends, what the handlers report leaves the breakers as the run's own events for that ending do, ends the request, and leaks its grant exactly if nothing is reported |
| Gateway.AdmissionAgrees | backend/app/llm/core/gateway.py:240-248 | asked event by event, an admission leaves the run with the manager's breakers, and the request at the provider it chose |
| Gateway.FailuresShutOut | backend/app/llm/core/circuit_breaker.py:95-107 | from a closed breaker, calls failing one after another shut the provider out exactly when the failures in a row reach five, until more than thirty seconds after the last |
| Gateway.AnswersClose | backend/app/llm/core/circuit_breaker.py:82-93 | three answered calls close a half-open breaker, fewer do not |
| Gateway.RunInvariants | backend/app/llm/core/gateway.py:100-317 | over every interleaving of single commands, cancellation included, each breaker's half-open permits are backed by unreported grants of the episode or successes, and each of these grants is leaked or held by a request |
| Gateway.SearchIsFallbacks | backend/app/llm/core/gateway.py:91-111 | asking the candidates one command after another gives the breakers and grants of the search as a whole |
| Gateway.GrantedHaveRoom | backend/app/llm/core/gateway.py:100-109 | for any clock readings, one a candidate, the search is granted exactly by the considered candidates whose breaker, as it stood before, has room at its own reading left by the ones asked before them |
| Gateway.ProviderRecovers | backend/app/llm/core/gateway.py:240-317 | over every interleaving, a provider is granted when its breaker is closed, when its timeout is over, or when no grant since it last became half-open is leaked or still held |
| Gateway.LeaksNothingExactly | backend/app/llm/core/gateway.py:240-317 | told from the breakers before the search, the clock reading of each ask and the call's ending: a request no other disturbs leaks no grant if and only if nobody has room, or the call ends in a report and the primary has room or exactly one candidate has |
| Gateway.LaterReadingLeaks | backend/app/llm/core/gateway.py:100-106 | a candidate's timeout ending between two asks of one search makes an answered request leak a grant that one reading for both would not have given |
| Gateway.FallbackSearchWedges | backend/app/llm/core/gateway.py:100-111 | answered requests on the first fallback use up the half-open permits of the second, which is never called and stays wedged |
| RateWindow.RateLimiter.CheckRpm | backend/app/llm/core/rate_limiter.py:40-58 | undisturbed, a request passes iff the window's count including it is within the limit, and the first of a window arms it |
| RateWindow.TwoWindows | backend/app/llm/core/rate_limiter.py:49-53 | requests of one minute come from at most two successive windows |
| RateWindow.AnyMinuteBounded | backend/app/llm/core/rate_limiter.py:40-58 | over every interleaving of INCR and EXPIRE any half-open minute lets at most `2 * limit - 1` requests through |
| RateWindow.BoundReached | backend/app/llm/core/rate_limiter.py:40-58 | for every positive limit some run reaches that bound |
| RateWindow.RecoversExactly | backend/app/llm/core/rate_limiter.py:50-56 | from a state of any run, some continuation lets a request through if and only if the limit is positive and the counter is not present, endless, full and past arming |
| RateWindow.ArmedRecovers | backend/app/llm/core/rate_limiter.py:50-56 | sixty seconds after a window was armed, however full, the next undisturbed check passes |
| RateWindow.CrashUnarms | backend/app/llm/core/rate_limiter.py:50-53 | a request dying between INCR and EXPIRE leaves such a counter |
| TokenQuota.RateLimiter.Consume | backend/app/llm/core/rate_limiter.py:117-132 | undisturbed, consuming adds the tokens to today's and this month's bucket only and renews both lifetimes |
| TokenQuota.LongEnough | backend/app/llm/core/rate_limiter.py:127-132 | two days outlive any day already reached and thirty-five days any month |
| TokenQuota.CurrentBucketsExact | backend/app/llm/core/rate_limiter.py:60-92 | on every run a read of the current day or month is exactly what was consumed in it |
| TokenQuota.OvershootBounded | backend/app/llm/core/rate_limiter.py:60-132 | with at most k requests in flight of at most m tokens, usage plus m for each pending request never exceeds the limit less one plus k*m, day and month, across rollover |
| QuotaReached.OvershootReached | backend/app/llm/core/rate_limiter.py:60-132 | for every positive limit, k and m some run keeps to k requests in flight of m tokens and ends with the limit less one plus k*m counted, on the day and in the month |
| QuotaReached.RolloverResets | backend/app/llm/core/rate_limiter.py:60-92 | whatever was used before, the next day and the next month begin with nothing counted |
| TokenQuota.CountersMatchLedger | backend/app/llm/core/gateway.py:266-285 | counters summed over buckets never exceed the ledger's success tokens, and are equal if and only if no request failed between its answer and the command that counts its tokens, and none is between the two; for days and for months |
| UserCache.UserCacheManager.ClearByRoleId | backend/app/admin/utils/cache.py:25-37 | exactly the users linked to one of the roles lose their record |
| UserCache.UserCacheManager.ClearByMenuId | backend/app/admin/utils/cache.py:39-56 | a user loses the record if and only if one of their roles has one of the menus; every other record stays as it was |
| UserCache.UserCacheManager.ClearByDataScopeId | backend/app/admin/utils/cache.py:58-75 | a user loses the record if and only if one of their roles has one of the scopes; every other record stays as it was |
| UserCache.UserCacheManager.ClearByDataRuleId | backend/app/admin/utils/cache.py:77-95 | a user loses the record if and only if one of their roles has a scope with one of the rules; every other record stays as it was |
| UserCache.UserCacheManager.GetJwtUser | backend/common/security/jwt.py:195-241 | a cached record is returned as it stands; otherwise one is returned and stored exactly if the user exists, is active, has no department or an open one, and no roles or an enabled one, and it holds exactly the rows the links of the tables lead to, down to the data rules |
| UserCache.ViewRecords | backend/app/admin/crud/crud_user.py:345-372 | the record read for a user holds a role, menu, scope or rule exactly if its row and the links to it exist, each with its table's row |
| UserCache.AdmitsExactly | backend/common/security/jwt.py:195-217 | a user is let in unless inactive, in a department that is locked, deleted or missing, or with roles all of which are disabled |
| UserCache.MutationShows | backend/app/admin/crud/crud_user.py:158-185 | every mutation of users, roles, menus, scopes, rules and departments shows in the records read after it |
| UserCache.RoleRowKeeps | backend/app/admin/service/role_service.py:130-131 | creating, updating or deleting roles leaves every surviving user's view as it was |
| UserCache.RoleLinksKeep | backend/app/admin/service/role_service.py:152-175 | relinking a role's menus or scopes leaves every surviving user's view as it was |
| UserCache.MenuKeeps | backend/app/admin/service/menu_service.py:113-114 | creating or updating a menu leaves every surviving user's view as it was |
| UserCache.ScopeKeeps | backend/app/admin/service/data_scope_service.py:107-142 | the scope mutations leave every surviving user's view as it was |
| UserCache.RuleKeeps | backend/app/admin/service/data_rule_service.py:120-134 | the rule mutations leave every surviving user's view as it was |
| UserCache.SurvivorsExactly | backend/app/admin/crud/crud_user.py:349-375 | whoever a mutation does not clear has the same five-way join view afterwards if and only if it is not their own login, a new row of their department, or the deletion of a menu of theirs |
| UserCache.CoherentExactly | backend/app/admin/utils/cache.py:25-95 | over runs of reads, expiries and all mutations, every cached record equals the current view throughout if and only if no step is one of those three for a cached user |
| UserCache.RolesAgree | backend/common/security/jwt.py:220-241 | over every run, unclearing mutations included, a cached record can differ from the database only in login time and avatar, the department's row, and menus deleted since |
| UserCache.MenuDeleteView | backend/app/admin/service/menu_service.py:130-132 | deleting a menu keeps a user's view if and only if the user has no such menu; the service then clears nobody |
| UserCache.DeptView | backend/app/admin/service/dept_service.py:75-96 | a department mutation keeps a user's roles, and the view if and only if the row is unchanged or the user is in another department |
| UserCache.LoginView | backend/app/admin/service/auth_service.py:74-115 | a login keeps everybody's roles and every view but the user's own, whose login time it moves |
| CachedRights.RbacVerify | backend/common/security/rbac.py:33-69 | merging the roles' menus by id in any order and collecting the marks of enabled ones grants exactly a superuser, or staff with some menu and an enabled menu carrying the mark |
| CachedRights.RecordsReadOnce | backend/common/security/rbac.py:55-59 | on every run each record reads a menu the same under all its roles, so the merge loses nothing |
| CachedRights.DeleteGrants | backend/app/admin/service/menu_service.py:117-133 | deleting a menu changes what the database grants a user if and only if the user is staff, not a superuser, and it was their last menu or the last with some mark |
| CachedRights.RightsExactly | backend/common/security/jwt.py:188-217 | an admitted user whom a mutation does not clear keeps admission and all grants in the database if and only if it is neither such a deletion nor a row that shuts their department |
| CachedRights.RightsExactlyThroughout | backend/common/security/rbac.py:38-69 | over runs of reads, expiries and all mutations, every cached record grants, and its user is admitted, as the database says throughout, if and only if no step wrongs a cached user in one of those two ways |
| CachedRights.DeletedMenuGrants | backend/app/admin/service/menu_service.py:117-133 | from any state with right records, deleting a cached staff user's only menu with a mark leaves a record that grants the mark while the database does not |
| CachedRights.ShutDeptAdmits | backend/common/security/jwt.py:202-207 | after a department is locked or deleted its cached users keep their record unchanged, while the database would not admit them |
| CachedRights.NeverGrantsLess | backend/common/security/rbac.py:38-69 | on every run a cached record grants at least what the database grants |
| DataPermission.CollectRules | backend/common/security/permission.py:76-80 | the rules are exactly those of the enabled scopes of all roles |
| DataPermission.ConditionMeans | backend/common/security/permission.py:108-137 | for codes 0 to 5 the condition holds of a value that equals, differs from, exceeds, reaches, is below or is at most the rule's cast text, for 6 and 7 of one that is, or is not, the cast of a stripped part between its commas; NULL is unknown, other codes give none |
| DataPermission.SplitExact | backend/common/security/permission.py:132-137 | splitting gives exactly the stretches of text between commas |
| DataPermission.CompileRules | backend/common/security/permission.py:90-145 | whatever order the set gives, the two lists hold exactly the conditions of the applicable AND and OR rules |
| DataPermission.FilterDataPermission | backend/common/security/permission.py:66-154 | for every user, rule set and row the produced condition evaluates, in three-valued logic, to the order-free meaning of the user's rules, told from their codes and texts |
| DataPermission.KeptRows | backend/common/security/permission.py:147-154 | a filtered row is kept exactly when all AND rules hold of it, there being some, or some OR rule does |
| DataPermission.NullsAreHidden | backend/common/security/permission.py:119-137 | a row whose ruled columns are all NULL is never kept, even by `!=` and `not in` |
| DataPermission.SplitJoins | backend/common/security/permission.py:132-137 | splitting a value list at commas loses nothing and leaves no comma |
| TokenSessions.PrefixReaches | backend/database/redis.py:65-86 | deleting under a user's key prefix reaches another's sessions exactly when the user's number is the other's with last digits removed |
| TokenSessions.TokenStore.DeletePrefix | backend/database/redis.py:65-86 | scanning and deleting in batches removes exactly the keys under the prefix, the excluded one spared |
| TokenSessions.TokenStore.CreateAccessToken | backend/common/security/jwt.py:67-101 | a single-login user's keys are cleared first, then the entry is stored with its token and lifetime |
| TokenSessions.TokenStore.CreateNewToken | backend/common/security/jwt.py:131-164 | a live, matching refresh token closes its session and opens a new one; any other changes nothing |
| TokenSessions.TokenStore.RevokeToken | backend/common/security/jwt.py:167-176 | no access token of the session is accepted any more; every other token is accepted, and every refresh token exchangeable, as before |
| TokenSessions.TokenStore.JwtAuthentication | backend/common/security/jwt.py:258-274 | a token is accepted iff unexpired and equal to the live entry under its own key |
| TokenSessions.SingleLogin | backend/common/security/jwt.py:84-127 | a user who never has multi-login holds at most one access and one refresh entry on every run |
| TokenSessions.ExchangedOnce | backend/common/security/jwt.py:149-157 | an exchanged refresh token is never accepted again, whatever happens in between |
| TokenSessions.AcceptedSinceIssued | backend/common/security/jwt.py:258-274 | an accepted access token was issued in the run and was in force after every event since |
| TokenSessions.EndsExactly | backend/common/security/jwt.py:84-176 | for every operation, a stored entry of another session is either untouched, or gone because the operation names its session or the user's number begins with that of a single-login or reset user, in the areas the operation clears |
| TokenSessions.CollateralLogout | backend/common/security/jwt.py:84-85 | user 1 logging in logs user 12 out |
| TokenSessions.RevokedForGood | backend/common/security/jwt.py:167-176 | on runs with fresh sessions a revoked session's access token is never accepted again |
| TokenSessions.RevokedCanRotate | backend/common/security/jwt.py:167-176 | a revoked session's refresh token can be exchanged if and only if it is live and unexpired and the user may have several sessions or has no other live access entry |
| LoginLockout.PasswordSecurity.CheckStatus | backend/app/admin/service/user_password_history_service.py:20-41 | an attempt passes iff the user is enabled and not locked; a lock past its end takes the counter with it |
| LoginLockout.PasswordSecurity.HandleLoginFailure | backend/app/admin/service/user_password_history_service.py:44-73 | a failure renews the counter and locks at the threshold, threshold 0 disabling all of it |
| LoginLockout.PasswordSecurity.UserVerify | backend/app/admin/service/auth_service.py:47-63 | undisturbed, check, verify and record make the attempt as a whole |
| LoginLockout.AloneIsVerified | backend/app/admin/service/auth_service.py:47-63 | the commands of an attempt, with nothing in between, are the attempt as a whole |
| LoginLockout.LockoutExactly | backend/app/admin/service/user_password_history_service.py:31-73 | on all runs with at most k attempts open at once, whatever passes between their commands, any interval of at most the lock's length less one second without a login has at most threshold failed checks, if and only if k is at most one |
| LoginLockout.OverlapEscapes | backend/app/admin/service/user_password_history_service.py:57-62 | two attempts that overlap admit one failed check more, all at one instant, for every threshold and length |
| LoginLockout.BoundIsSharp | backend/app/admin/service/user_password_history_service.py:67-72 | one millisecond more admits one failure more, one attempt at a time, for every threshold and length |
| LoginLockout.LockEndsAtZero | backend/app/admin/service/user_password_history_service.py:31-41 | attempts are refused exactly until the truncated second, and the first failure after it counts one |
| BeatSync.DatabaseScheduler.Reserve | backend/app/task/utils/schedulers.py:312-317 | a run makes the entry's state differ from its row, and keeps it from being forgotten: a scheduled state that is not in its row, but for a time filled in at loading, is still always dirty, or was dropped by an error since the last reload |
| BeatSync.DatabaseScheduler.ScheduleChanged | backend/app/task/utils/schedulers.py:383-396 | changed iff a stored stamp is later than the last look, which then becomes now |
| BeatSync.DatabaseScheduler.ReadSchedule | backend/app/task/utils/schedulers.py:410-436 | the first look, and each that finds a stamp later than the last look, flushes and, unless the load raises, leaves a schedule of exactly the enabled rows, invalidating the heap if not the first; any other look changes only the time of the last look; every name is accounted for and no state forgotten |
| BeatSync.DatabaseScheduler.Sync | backend/app/task/utils/schedulers.py:326-347 | the re-entrant flush terminates; nothing new is dirty, every dirty name is saved, dirty again or dropped, one an error; rows change only to a dirty name's state or, after a reload, get the time they lacked; without errors a reload costs at most one name its state, all other scheduled names are clean and written, and with nothing lost before every scheduled state ends up in its row, but for such a time |
| BeatSync.LoadedExactly | backend/app/task/utils/schedulers.py:93-100 | the loaded entries are those of enabled rows, with their run counts, with the row's time or, lacking one, the time of loading or 365 days before the start; an entry's state differs from its row's if and only if the row has no last time |
| BeatSync.ReloadLoads | backend/app/task/utils/schedulers.py:398-408 | a load schedules exactly the enabled rows, each under its name |
| BeatSync.DatabaseScheduler.SaveOne | backend/app/task/utils/schedulers.py:331-340 | one popped name is looked up and saved, missing or lost to an error, with that same condition for its state to arrive |
| BeatSync.Round | backend/app/task/utils/schedulers.py:331-340 | one popped name, its look and its save or failure keep the flush's invariant |
| BeatSync.SavedExactly | backend/app/task/utils/schedulers.py:334-335 | when a popped name is saved, the unsaved state it had reaches its row if and only if the look did not reload, or the row is gone; with nothing unsaved, the row keeps that state, and at most a filled-in time is replaced |

## Left out

- Flat mode of `select_join_serialize` (no relation list), the namedtuple output, and splitting the relation strings: representation only.
- Relation lists whose graph has a cycle: the model asks for an acyclic graph, as the recursion theorem does.
- `get_vben5_tree_data`: a comprehension that renames fields.
- TreeBuild.RecursiveToTree: Python's recursion limit is a parameter, and failing means exceeding it.
- JoinSerializer.SelectJoinSerialize: the memory address used for objects without an id is a field of the object, not Python's `id`.
- JoinRoundTrip.SerializeInvertsJoin: speaks of roots keyed 0 whose address is no entity's key; with such a coincidence the root would be given another's children.
- Snowflake.Generator.Generate: threads are modelled by the order in which they hold the lock; a call that never sees a later millisecond waits in it for ever. The formatted date `parse` adds is left out.
- LeaseRuns.HandoverExactly: processes with a node fixed in the settings are not among those that share the leases.
- NodeLease.ExclusionExactly: a key is gone at its expiry second; scanning sees each key at its own moment, and foreign keys under the prefix are ignored.
- Gateway.Manager.GetFallbackModels: breakers are values in the manager's map, so that two callers hold the same breaker object is not captured; HTTP, LiteLLM and streaming are outcomes.
- Breaker.CircuitBreaker.AllowRequest: the status dictionary and the display of the remaining time are left out.
- TokenQuota.OvershootBounded: days begin every 86400 seconds and months have at most 31 of them; one API key, fixed limits. `calculate_cost` and the request timer are arithmetic only.
- TokenQuota.CountersMatchLedger: a ledger row is one step; whether the database later rolls it back is not modelled.
- UserCache.CoherentExactly: a service call is one step, so the gap between clearing and commit is not modelled; a mutation whose checks fail does not happen, and created rows have new ids.
- CachedRights.RbacVerify: the casbin plugin's mode, path whitelists and the token's own check are left out; marks are a set, split beforehand.
- DataPermission.FilterDataPermission: values are integers once cast, the cast being a parameter; database collation is not modelled, and stripping removes spaces only.
- TokenSessions.SingleLogin: each token operation is one step, for users that exist and are enabled; signing is an injective pairing of user, session and expiry, the extra-info entries are not read by anything here.
- LoginLockout.LockoutExactly: threshold and length are fixed; an attempt that dies half-way counts as open from then on; hashing is not modelled.
- BeatSync.DatabaseScheduler.Sync: a task's saved state is its run count and last time; a Redis error in the changed-stamp look, which leaves the flush uncaught and drops the popped name, is not modelled; the extra save of a one-off task, crontab arithmetic, `is_due` and Celery's own loop are not part of this model.
- Middleware, schemas, routes, plugins, OAuth, email and pagination: plumbing or easy members only.
