# GoodFood back end: a verified model

A Dafny model of the parts of the GoodFood web back end that carry invariants, with proofs
over every input, every interleaving or every run. `dafny verify dfyconfig.toml` checks all of it.

Code that changes things step by step is imperative here as well: classes whose methods assign
the fields the source assigns, and loops over the lists the source ranges over. Each such
method is proved equal to a function of the old state; the theorems are lemmas about those
functions, and about runs and schedules built from them.

| file | subject |
|---|---|
| `RefreshTokens.dfy`, `SessionRuns.dfy` | access and refresh tokens in Redis: save, verify, rotate, revoke, revoke all; then whole runs with a clock, expiry and store faults |
| `EagerLoad.dfy`, `EagerLoadAccounts.dfy` | the two directions of the account/address eager load, as loops that link heap objects both ways |
| `CacheKeys.dfy`, `UpsertQuery.dfy`, `StatementCache.dfy` | keys of the prepared-statement caches, the upsert statement printer and a parser for it, and the caches under any interleaving of threads |
| `ReviewFetch.dfy` | three goroutines, a WaitGroup and a bounded error channel, as a step system |
| `Paging.dfy`, `InvoicePages.dfy` | the floating-point page count, 64-bit offsets, and the pages of the admin invoice list |
| `SignedFields.dfy` | the payment gateway's canonical string |
| `OrderLifecycle.dfy` | order statuses: what is offered next, what an update does, whole runs |
| `CacheTags.dfy` | cached responses and their tag sets |
| `DefaultAddress.dfy` | the default delivery address under quick changes, edits and deletions |
| `Sentiment.dfy` | the four sentiment filters over analysed reviews |
| `Text.dfy`, `Sets.dfy`, `Wrappers.dfy` | strings, finite sets of IDs, Option and Result |

## Where the code differs from what it seems to promise

Each of these is a theorem.

- A refresh token is accepted a second time exactly when the delete of its old record failed
  at its first use (`SessionRuns.SecondUseIffDeleteFailed`), and a run in which this happens exists
  (`SessionRuns.AcceptedTwice`). Over a whole run the acceptances of a jti are bounded by its failed
  deletes and one more (`SessionRuns.AcceptancesAreCounted`). The branch that reports reuse does not report reuse: it is taken
  exactly when a live session's claims come under a text with another hash than the issued one
  (`SessionRuns.ReuseDetectedIff`).
- The per-user index can lose a live session, but only by the failing commands that
  `SessionRuns.KeepsIndex` lists, and by each of them (`SessionRuns.LiveSessionsAreListedIff`); `SessionRuns.UnlistedSession` is such
  a run.
- `ClearCache` deletes a tag's set before it reads it, so clearing a tag removes a value stored
  under it exactly when the value's own name is cleared too (`CacheTags.TagDoesNotClear`,
  `CacheTags.TaggedValueSurvives`). It does work for
  values that are cleared by their own name (`CacheTags.OwnNameClears`).
  A program that reads each set before deleting it clears every value stored under a tag
  (`CacheTags.ReadThenDeleteClears`), as long as no name is used both for a value and as the tag of
  another; without that it fails as well (`CacheTags.NestedTagEscapes`).
- The upsert cache key leaves out the options, so of two calls that differ in options only one
  can execute the other's statement; this happens exactly when they share a slot and build
  different statements (`StatementCache.InterferenceIffSlotShared`), as any two upserts do that differ only
  in their conflict targets (`StatementCache.TargetsInterfere`).
- The cache key has no separator between names. Over a set of names it tells all calls apart
  exactly when the names pass the dangling-suffix test (`CacheKeys.KeyInjectiveIff`); the account and
  address columns pass it, and other names need not (`CacheKeys.KeyAmbiguousOutsideColumns`).
- The upsert's SET list begins with a stray comma exactly when its first name is empty and a
  later one is not (`UpsertQuery.CommasWellPlaced`).
- Page offsets are computed in 64 bits, and a huge page number wraps around to an early offset: a
  page past the last one is empty exactly when its wrapped offset lies past the matches
  (`InvoicePages.PagesPartitionTheMatches`), and one that is not empty is given
  (`InvoicePages.WrappingPageIsNotEmpty`).
- The page count is exact up to 2^53 records, for all page sizes up to 2^53
  (`Paging.PageCountIsExact`). With one record a page it is right exactly for the totals that are
  doubles (`Paging.OneARecordIff`), which beyond 2^53 are the multiples of the spacing of their binade
  (`Paging.OneARecordIffMultiple`). Other page sizes are settled only up to 2^53.
- A date range of one day restricts nothing: the invoice list requires its first day to be before its
  last (`InvoicePages.SearchByDate`), although the dates are accepted when they are equal.
- The signed string ends in a stray "&" exactly when its last key is empty-valued and some field is
  not (`SignedFields.WrittenForm`).
- An invoice update adds one to the status whatever the target is, so it lands on the target only
  for the targets named in `OrderLifecycle.LandsOnTargetIff`; on the targets the detail page
  offers it always does (`OrderLifecycle.LegalStep`).
- Editing or deleting the default address can leave an account without one
  (`DefaultAddress.EditKeepsADefaultIff`, `DefaultAddress.DeleteKeepsADefaultIff`); a quick change cannot,
  even if it fails between its two writes (`DefaultAddress.NoRunLosesADefault`).
- With repeated IDs in a slice, the 1-M eager load gives all rows to the first account with the
  ID; loading a slice k times gives k copies of each list, while the singular form replaces the list
  (`EagerLoad.LoadAddresses`, `EagerLoad.LoadRepeatedly`, `EagerLoad.LoadAddressesOf`).

## Assumptions

- A jti (section 4.1.7 of RFC 7519) is fresh when issued, and claims under a good signature were
  issued; both are conditions on the steps of a run (`SessionRuns.Possible`). Encoding, decoding,
  signing and hashing of tokens are arbitrary functions, except that a text just signed decodes to
  what was signed (`RefreshTokens.ReadsItsOwn`); other texts may decode to the same. `exp`
  (section 4.1.4 of RFC 7519) keeps whole seconds.
- Each exported session operation is one atomic step. Any Redis command in it may fail without
  effect; every theorem names the faults it rules out, and several rule out none.
- A hardware quotient of two doubles is some nearest double (section 4.3.1 of IEEE 754-2008);
  `Paging.NearestDoubleExists` shows that there always is one.
- SQLBoiler's column-set, mapping and SQL-fragment functions, ILIKE and the HMAC are arbitrary
  functions. LIKE is arbitrary too, except that it compares the six status names literally. Where a
  theorem says so, BindMapping names one field for each column (`StatementCache.BindsEach`).
- Eager loading starts from objects that do not share an `R`, as freshly bound objects do not.

## Model

| member | source | states |
|---|---|---|
| `RefreshTokens.NewTokensVerify` | GoodFood-BE/internal/auth/auth.go:35-85 | the tokens of a login: the access token verifies to the user for 15 minutes, the refresh token to the user and its jti for 7 days, but for a cut-off part of a second, and neither a moment longer |
| `RefreshTokens.RotationTokens` | GoodFood-BE/internal/auth/auth.go:190-197 | an accepted rotation returns such tokens in the name of the user the presented token verifies to, the second one with the new jti |
| `RefreshTokens.ForgedIsRefused` | GoodFood-BE/internal/auth/auth.go:71-85 | a text without a good signature is refused in any store and under any faults, and changes nothing |
| `RefreshTokens.FaultsAnswer` | GoodFood-BE/internal/auth/auth.go:178-193 | what a failing read and a failing signature answer, with the store unchanged |
| `RefreshTokens.AccessTokenIsRefused` | GoodFood-BE/internal/auth/auth.go:37-49 | an access token is never good for a rotation, in any store and under any faults: it lacks a jti, or it has expired; the store stays as it is |
| `RefreshTokens.SessionStore.SaveRefreshToken` | GoodFood-BE/internal/auth/auth.go:90-120 | the record with the token's hash, its time to live (at least one second), its listing in the user's set and the set's 8 days, under every combination of failing commands: a failed listing takes the record back |
| `RefreshTokens.SavedUntilExpiry` | GoodFood-BE/internal/auth/auth.go:90-120 | a session saved without faults is in the store, with all its data, at exactly the times before its token expires, and the set that lists it for exactly 8 days |
| `RefreshTokens.SaveReports` | GoodFood-BE/internal/auth/auth.go:106-119 | a save reports success exactly if the session is stored and listed, and a failed one leaves the store as it was unless its undoing fails as well |
| `RefreshTokens.SessionStore.RevokeRefreshToken` | GoodFood-BE/internal/auth/auth.go:140-150 | removes the record, and its listing under the user the record names, as far as the commands succeed |
| `RefreshTokens.RevokeReports` | GoodFood-BE/internal/auth/auth.go:140-150 | a revocation reports success exactly if the record is gone |
| `RefreshTokens.RevokeAllReports` | GoodFood-BE/internal/auth/auth.go:153-166 | revoking all reports success exactly if it removed every listed record and the list, and otherwise changed nothing |
| `RefreshTokens.PipelineEffect` | GoodFood-BE/internal/auth/auth.go:159-164 | any queue of deletes and unlistings removes exactly the queued records and members, in whatever order, and touches no other user's set |
| `RefreshTokens.PipelineRevokesAll` | GoodFood-BE/internal/auth/auth.go:153-166 | queueing one delete and one unlisting for each listed jti leaves none of those records and no set |
| `RefreshTokens.SessionStore.RevokeAllUserRefreshTokens` | GoodFood-BE/internal/auth/auth.go:153-166 | all or nothing: either a command failed and nothing changed, or exactly the listed records and the user's set are gone |
| `RefreshTokens.SessionStore.ValidateRefreshAndRotate` | GoodFood-BE/internal/auth/auth.go:169-198 | the outcome and the whole new store for every token and every fault: five ways to refuse, of which only a hash mismatch changes the store, and a rotation |
| `SessionRuns.RunKeepsInv` | GoodFood-BE/internal/auth/auth.go:51-67 | over every run, with any faults: every live record belongs to the token issued under its jti, sets list only jtis of their own user, and no record outlives 7 days |
| `SessionRuns.RecordsAreGenuine` | GoodFood-BE/internal/auth/auth.go:90-109 | in every reachable world a record's hash and user are those of the one token issued under its jti |
| `SessionRuns.ReuseDetectedIff` | GoodFood-BE/internal/auth/auth.go:185-188 | in any run, whatever fails, reuse is reported exactly when the claims of a live session come under a text with another hash than the issued one |
| `SessionRuns.ReuseNeverDetected` | GoodFood-BE/internal/auth/auth.go:185-188 | if tokens have one text each, the hash-mismatch branch is not reached in any run, whatever fails |
| `SessionRuns.SessionLivesAsLongAsItsToken` | GoodFood-BE/internal/auth/auth.go:90-198 | over any run with any faults elsewhere: a session saved without faults, at a login or in a rotation, and not rotated or revoked since, is live in every world before its token expires |
| `SessionRuns.LiveTokenRotates` | GoodFood-BE/internal/auth/auth.go:169-198 | and presenting its issued token to a healthy store is then accepted |
| `SessionRuns.SpentForever` | GoodFood-BE/internal/auth/auth.go:178-184 | a jti whose record is gone and which no login will still save never gets a record again |
| `SessionRuns.SpentIffDeleted` | GoodFood-BE/internal/auth/auth.go:195-196 | accepting a token spends its jti exactly when the final delete succeeds |
| `SessionRuns.AcceptedAtMostOnce` | GoodFood-BE/internal/auth/auth.go:123-198 | in any run, after a token was accepted and its record deleted, each later presentation of its jti, under any text, changes nothing and is refused, and with which answer |
| `SessionRuns.AcceptancesAreCounted` | GoodFood-BE/internal/auth/auth.go:169-198 | over any run and any faults, a jti is accepted at most once more than the final delete of its rotations failed, and no more often than that while it is not spent |
| `SessionRuns.SecondUseIffDeleteFailed` | GoodFood-BE/internal/auth/auth.go:195-197 | presented again at once to a healthy store, an accepted token is accepted again if and only if the delete failed |
| `SessionRuns.AcceptedTwice` | GoodFood-BE/internal/auth/auth.go:195-197 | a possible run from the empty store in which one token is accepted twice |
| `SessionRuns.SaveListsIff` | GoodFood-BE/internal/auth/auth.go:106-119 | exactly which failing commands let a save leave a record unlisted or listed in a set that expires too early |
| `SessionRuns.NextListsIff` | GoodFood-BE/internal/auth/auth.go:90-198 | exactly which faults let a step break the listing of live sessions |
| `SessionRuns.LiveSessionsAreListedIff` | GoodFood-BE/internal/auth/auth.go:90-166 | along any run, with ticks and expiry, all live records are in their user's set and the sets expire later, in every world so far, if and only if no step had one of these faults |
| `SessionRuns.LiveSessionsAreListed` | GoodFood-BE/internal/auth/auth.go:106-119 | in every run without store errors each live record is in its user's set and that set expires later than the record |
| `SessionRuns.UnlistedSession` | GoodFood-BE/internal/auth/auth.go:111-116 | a run of one login whose listing fails and is not undone: the session is live, unlisted, and outlives a revoke-all |
| `SessionRuns.RevokeAllIsComplete` | GoodFood-BE/internal/auth/auth.go:152-166 | in every run, with any faults, revoking all leaves other users' records and sets unchanged, and leaves the user no live record if and only if all of them were listed |
| `SessionRuns.ReplacementKeepsCounts` | GoodFood-BE/internal/auth/auth.go:195-196 | replacing one session by another of the same user keeps the number of live sessions of every user |
| `SessionRuns.RotationConserves` | GoodFood-BE/internal/auth/auth.go:169-198 | with a healthy store a rotation swaps exactly the old jti for the new one in records and index, with the new record's user, hash, expiry and client, and keeps all counts; a refusal changes nothing, but for a hash mismatch, which revokes the sessions of the record's user |
| `EagerLoad.LazyWithinEager` | GoodFood-BE/models/account.go:857-860 | what one account's lazy query selects from the table is what it would select from the result of the IN query |
| `EagerLoad.LengthsAddUp` | GoodFood-BE/models/account.go:706-717 | the lazy results of distinct accounts together are as long as the IN query's result |
| `EagerLoad.QueryAddresses` | GoodFood-BE/models/account.go:857-873 | binding gives fresh, distinct objects whose rows are the selected rows in table order |
| `EagerLoad.PrepareAccounts` | GoodFood-BE/models/account.go:837-844 | collects exactly the IDs of the slice, gives every account an R of its own, and loses no list |
| `EagerLoad.LinkAddress` | GoodFood-BE/models/account.go:901-910 | the inner loop stops at the first account with the ID and links the address to it both ways |
| `EagerLoad.LinkNext` | GoodFood-BE/models/account.go:900-911 | one round makes one list grow by one address and sets one back pointer; every other list and back pointer is unchanged |
| `EagerLoad.LinkAddresses` | GoodFood-BE/models/account.go:900-911 | all fetched addresses are handed out in order; lists and back pointers as functions of those before |
| `EagerLoad.PointedAtOwner` | GoodFood-BE/models/account.go:904-907 | after the loops every fetched address points back at its own owner |
| `EagerLoad.HandedToTheChosen` | GoodFood-BE/models/account.go:900-911 | the first account with an ID gains all addresses naming it, in order; a later one with that ID gains nothing |
| `EagerLoad.EagerIsLazy` | GoodFood-BE/models/account.go:706-717 | the addresses handed to an account are, row for row and in order, those of its own lazy query |
| `EagerLoad.LoadAddresses` | GoodFood-BE/models/account.go:831-914 | the slice form: on a failed query no list changes; otherwise each chosen account's list grows by its own lazy result, others by nothing, and every fetched address points back at its owner |
| `EagerLoad.LoadAddressesOf` | GoodFood-BE/models/account.go:832-898 | the singular form replaces the list by the account's lazy result, so it is idempotent, and points all rows back |
| `EagerLoad.OneToManyIsTwoWay` | GoodFood-BE/models/account.go:900-911 | an address is in what an account gained if and only if it points back at that account |
| `EagerLoad.GrowthIsTheRowCount` | GoodFood-BE/models/account.go:889-911 | for any slice, with repeated IDs and repeated objects, the growth of all lists adds up to the number of rows fetched |
| `EagerLoad.LoadRepeatedly` | GoodFood-BE/models/account.go:900-911 | loading a slice k times adds k copies of each account's lazy result |
| `EagerLoadAccounts.QueryAccounts` | GoodFood-BE/models/address.go:546-562 | fresh accounts with distinct IDs, exactly the selected ones |
| `EagerLoadAccounts.PrepareAddresses` | GoodFood-BE/models/address.go:524-533 | collects exactly the account IDs named in the slice and changes no back pointer |
| `EagerLoadAccounts.LinkPair` | GoodFood-BE/models/address.go:596-600 | one address and one account are linked both ways, and nothing else changes, though other objects are reachable from both |
| `EagerLoadAccounts.LinkAccount` | GoodFood-BE/models/address.go:594-603 | an address is linked to the first account with the ID it names, or nothing happens if there is none |
| `EagerLoadAccounts.LinkAccounts` | GoodFood-BE/models/address.go:593-604 | both families of links after the nested loops, as functions of those before |
| `EagerLoadAccounts.GatheredIsNaming` | GoodFood-BE/models/address.go:593-604 | each fetched account has gained exactly the addresses of the slice that name it, in slice order |
| `EagerLoadAccounts.AssignedByName` | GoodFood-BE/models/address.go:593-604 | each address points at the account it names if that was fetched, and where it pointed before if not |
| `EagerLoadAccounts.LoadAccounts` | GoodFood-BE/models/address.go:517-607 | the slice form, with the failed query and the empty result; which addresses find an account is decided by the account table alone |
| `EagerLoadAccounts.LoadAccountOf` | GoodFood-BE/models/address.go:518-591 | the singular form: the address and the one account it names are linked both ways, and a missing account leaves it as it was |
| `EagerLoadAccounts.ManyToOneIsTwoWay` | GoodFood-BE/models/address.go:593-604 | an address points at a fetched account if and only if that account lists it |
| `EagerLoadAccounts.OneToManyPairs` | GoodFood-BE/models/account.go:889-911 | the pairs in the lists after the 1-M loader are exactly the join of its slice with the address table |
| `EagerLoadAccounts.ManyToOnePairs` | GoodFood-BE/models/address.go:583-604 | the back pointers after the N-1 loader are exactly the join of the account table with its slice, if the addresses without account pointed nowhere |
| `EagerLoadAccounts.LoadersLinkTheSamePairs` | GoodFood-BE/models/address.go:583-604 | the loaders are inverse: over the same rows, the list entries one leaves and the back pointers the other leaves are the same set of pairs |
| `CacheKeys.UniquelyDecodable` | GoodFood-BE/models/boil_types.go:38-40 | the dangling-suffix theorem for any set of names: lists with the same concatenation are the same list |
| `CacheKeys.DanglingNeverCloses` | GoodFood-BE/models/boil_types.go:38-40 | a dangling suffix followed by names is never equal to names alone |
| `CacheKeys.MakeCacheKey` | GoodFood-BE/models/boil_types.go:34-52 | the two buffer loops write the kind, the columns and, after a dot only if there are any, the defaults |
| `CacheKeys.CacheKeyInjective` | GoodFood-BE/models/boil_types.go:34-52 | equal keys come from equal kinds, columns and defaults, whenever the names form a decodable code |
| `CacheKeys.MakeUpsertKey` | GoodFood-BE/models/account.go:2226-2252 | the five fields of the upsert key in order, with the four dots |
| `CacheKeys.UpsertKeyInjective` | GoodFood-BE/models/account.go:2226-2252 | equal upsert keys come from equal arguments in all five parts |
| `CacheKeys.AccountColumnsDecodable` | GoodFood-BE/models/account.go:393-396 | the account columns satisfy the condition, although "email" is a prefix of "emailVerified" |
| `CacheKeys.AddressColumnsDecodable` | GoodFood-BE/models/address.go:166-168 | the address columns satisfy the condition, although "address" is a prefix of "addressID" |
| `CacheKeys.GapsDangle` | GoodFood-BE/models/boil_types.go:38-40 | the converse of the dangling-suffix theorem: a decodable set of names has a closed collection of dangling suffixes, none empty |
| `CacheKeys.DecodableIff` | GoodFood-BE/models/boil_types.go:38-40 | for any set of names, different lists never run together if and only if such a collection exists |
| `CacheKeys.KeyInjectiveIff` | GoodFood-BE/models/boil_types.go:34-52 | over any non-empty names without a dot and without a leading digit or minus, the key tells all calls apart if and only if such a collection exists |
| `CacheKeys.KeyAmbiguousOutsideColumns` | GoodFood-BE/models/boil_types.go:38-40 | two different lists, one of them not of columns, with the same key |
| `UpsertQuery.WriteSetItems` | GoodFood-BE/models/psql_upsert.go:78-89 | the indexed loop writes the SET list: empty names skipped, a comma before each name but the one at index 0 |
| `UpsertQuery.WriteConflict` | GoodFood-BE/models/psql_upsert.go:61-67 | the custom conflict target if set, else the parenthesised columns, else nothing |
| `UpsertQuery.WriteAction` | GoodFood-BE/models/psql_upsert.go:70-91 | nothing to do, the custom SET text, or the SET list |
| `UpsertQuery.BuildUpsertQuery` | GoodFood-BE/models/psql_upsert.go:34-99 | the successive buffer writes produce the statement that `StatementUndone` reads back |
| `UpsertQuery.CommasWellPlaced` | GoodFood-BE/models/psql_upsert.go:78-89 | the SET list is the non-empty names separated by commas if and only if the first name is non-empty or no later one is |
| `UpsertQuery.PlaceholdersBind` | GoodFood-BE/models/psql_upsert.go:48-51 | read as numerals, the placeholders are n successive argument numbers from the first on |
| `UpsertQuery.StatementUndone` | GoodFood-BE/models/psql_upsert.go:34-99 | without custom options a parser recovers the table, columns, conflict columns, action and returning list from the text, gives the k-th column the k-th argument, and can read the text if and only if no empty name leads the update list |
| `UpsertQuery.CustomTextStands` | GoodFood-BE/models/psql_upsert.go:61-77 | a custom conflict target and a custom SET text stand in the statement as they are, each in its place |
| `UpsertQuery.InsertUndone` | GoodFood-BE/models/account.go:2042-2054 | the insert statement can be read back: table, columns, the k-th argument for the k-th column, and the returned columns |
| `StatementCache.InsertSays` | GoodFood-BE/models/account.go:2026-2055 | an insert names the chosen columns, gives each its own argument, which is the field the column is mapped to, and returns the other chosen columns |
| `StatementCache.InsertFailsIff` | GoodFood-BE/models/account.go:2034-2041 | an insert is refused exactly if its columns cannot be mapped |
| `StatementCache.UpdateSays` | GoodFood-BE/models/account.go:2098-2119 | an update sets the columns asked for, created_at only by name, then binds the key; refused exactly if there is no column or no mapping |
| `StatementCache.UpsertSays` | GoodFood-BE/models/account.go:2260-2300 | an upsert inserts the chosen columns, each with its own argument, conflicts on the given columns or the primary key, and returns the table columns not both inserted and updated |
| `StatementCache.UpsertFailsIff` | GoodFood-BE/models/account.go:2273-2299 | exactly when an upsert is refused |
| `StatementCache.SlotsAreInjective` | GoodFood-BE/models/account.go:2226-2252 | two calls over the table's columns share a slot if and only if they differ at most in their upsert options |
| `StatementCache.NextKeepsInv` | GoodFood-BE/models/account.go:2022-2080 | one step of one thread keeps every cached, pending and executed statement accounted for by some begun call with the same slot |
| `StatementCache.RunKeepsInv` | GoodFood-BE/models/account.go:2022-2080 | the same over any interleaving, and only calls that looked up have begun |
| `StatementCache.CachesStayCoherent` | GoodFood-BE/models/account.go:2019-2080 | under any interleaving of any number of threads that use one set of upsert options: every cached statement is what any call with that slot would build afresh, and every executed statement is the caller's own |
| `StatementCache.AccountCachesStayCoherent` | GoodFood-BE/models/account.go:2019-2330 | the same for the account table, for cached and for executed statements |
| `StatementCache.InsertsAndUpdatesExecuteTheirOwn` | GoodFood-BE/models/account.go:2093-2143 | with any mix of upsert options, inserts and updates still execute the statement they would build |
| `StatementCache.OneCallRuns` | GoodFood-BE/models/account.go:2019-2080 | in the thread model, a call on its own executes the cached or a fresh entry, and caches only a fresh one whose statement ran, in its own slot |
| `StatementCache.SecondIsServedTheFirst` | GoodFood-BE/models/account.go:2254-2330 | a call whose slot is taken executes the first call's statement |
| `StatementCache.InterferenceIffSlotShared` | GoodFood-BE/models/account.go:2224-2330 | of two calls with different statements, some run makes the second execute the first's statement if and only if they share a slot |
| `StatementCache.TargetsInterfere` | GoodFood-BE/models/account.go:2224-2330 | any two upserts that do nothing on a conflict and differ only in their non-empty conflict targets share a slot, build different statements and interfere |
| `StatementCache.Caches.Insert` | GoodFood-BE/models/account.go:2019-2080 | a hit executes the cached entry, a miss the freshly built one; only a miss that ran is stored, and under its own slot only |
| `StatementCache.Caches.Update` | GoodFood-BE/models/account.go:2093-2143 | the same for updates, with the empty column list refused |
| `StatementCache.Caches.Upsert` | GoodFood-BE/models/account.go:2224-2330 | the same for upserts, with the inferred conflict columns and the returned columns |
| `ReviewFetch.MoveKeepsInv` | GoodFood-BE/internal/utils/admin_reviews_helper.go:121-161 | every move of a goroutine or of the caller keeps the counter, the channel, the captured variables and the caller in step, and never panics |
| `ReviewFetch.SendsNeverBlock` | GoodFood-BE/internal/utils/admin_reviews_helper.go:122-158 | in every schedule a goroutine about to send finds room in a channel that is still open |
| `ReviewFetch.NoDeadlock` | GoodFood-BE/internal/utils/admin_reviews_helper.go:160-173 | nobody can move if and only if the caller has returned |
| `ReviewFetch.EveryScheduleReturns` | GoodFood-BE/internal/utils/admin_reviews_helper.go:114-174 | no schedule has more than fifteen moves, and it has returned if and only if it has made all fifteen |
| `ReviewFetch.ResultIsSequential` | GoodFood-BE/internal/utils/admin_reviews_helper.go:160-173 | whatever the order, success if and only if the review and image queries succeed and the reply query succeeds or finds no row; the result then holds the three answers, and otherwise the error is that of a query that failed |
| `Sentiment.AppendSortingResult` | GoodFood-BE/internal/utils/admin_reviews_helper.go:76-110 | the counting loops keep exactly the inputs the chosen filter admits, in order |
| `Sentiment.FilterSays` | GoodFood-BE/internal/utils/admin_reviews_helper.go:89-106 | for each sort, which keywords the summaries in the result contain and which they do not; any other sort gives an empty result |
| `Sentiment.ContainsIff` | GoodFood-BE/internal/utils/admin_reviews_helper.go:84 | a summary contains a keyword exactly if it is that keyword with text before and after it |
| `Sentiment.OneFilterEach` | GoodFood-BE/internal/utils/admin_reviews_helper.go:89-106 | a summary with a keyword passes exactly one of the four filters, one without passes none |
| `Sentiment.FiltersPartition` | GoodFood-BE/internal/utils/admin_reviews_helper.go:76-110 | as multisets, the four results together are the inputs with a keyword, each once |
| `Sentiment.FilterKeepsOrder` | GoodFood-BE/internal/utils/admin_reviews_helper.go:81-107 | each result is the input at an increasing choice of positions |
| `Paging.PageCountIsExact` | GoodFood-BE/internal/utils/utilities.go:37-41 | for all counts and sizes up to 2^53, the ceiling of any correctly rounded double quotient is the integer ceiling |
| `Paging.CloserThanTheIntegerBelow` | GoodFood-BE/internal/utils/utilities.go:40 | for a quotient just above an integer there is a double nearer to it than that integer |
| `Paging.GapExceedsHalfSpacing` | GoodFood-BE/internal/utils/utilities.go:40 | a quotient is farther above an integer than half the spacing of the doubles there |
| `Paging.NearestDoubleExists` | GoodFood-BE/internal/utils/utilities.go:40 | every real number has a nearest double |
| `Paging.OneARecordIff` | GoodFood-BE/internal/utils/utilities.go:37-41 | with one record a page, for every total, however the total and the quotient are rounded to nearest: the count is right if and only if the total is a double |
| `Paging.DoubleIffMultiple` | GoodFood-BE/internal/utils/utilities.go:40 | between 2^t and 2^(t+1) an integer is a double if and only if it is a multiple of 2^(t-52) |
| `Paging.OneARecordIffMultiple` | GoodFood-BE/internal/utils/utilities.go:37-41 | the same in terms of the total alone: it is right below 2^53 and for multiples of the spacing of the binade, and for no other total |
| `Paging.CeilDivBounds` | GoodFood-BE/internal/utils/utilities.go:37-41 | the page count is the one number of pages that covers all records with no page to spare |
| `Paging.Paginate` | GoodFood-BE/internal/utils/utilities.go:26-43 | the clamped, 64-bit offset for all arguments, and the page count: zero for no records, the integer ceiling up to 2^53, and the ceiling of the machine's quotient beyond |
| `Paging.OffsetIsGoProduct` | GoodFood-BE/internal/utils/utilities.go:27-35 | the offset is the true product up to a multiple of 2^64 and fits in 64 bits; a page below 1 counts as 1, a size below 1 as 6 |
| `InvoicePages.BuildInvoiceFilters` | GoodFood-BE/internal/utils/admin_invoices_helper.go:61-92 | the data list is loading and ordering followed by exactly the count list, and the error when no status matches |
| `InvoicePages.SameSelection` | GoodFood-BE/internal/server/handlers/admin_invoices.go:46-67 | the count query and the data query select the same rows |
| `InvoicePages.DataQuery` | GoodFood-BE/internal/server/handlers/admin_invoices.go:58-67 | the data query returns a window of the sorted matches |
| `InvoicePages.GetAdminInvoice` | GoodFood-BE/internal/server/handlers/admin_invoices.go:17-80 | the response is the asked-for window on the matches with their page count; or the error of the first step that fails, queries included |
| `InvoicePages.SearchById` | GoodFood-BE/internal/utils/admin_invoices_helper.go:70-72 | with sort "Invoice ID" the pages together show exactly the invoices whose ID, as text, is like the search |
| `InvoicePages.SearchByName` | GoodFood-BE/internal/utils/admin_invoices_helper.go:73-75 | with sort "Customer name", exactly those whose receiver is like the search |
| `InvoicePages.SearchByStatus` | GoodFood-BE/internal/utils/admin_invoices_helper.go:76-82 | with sort "Invoice status", exactly those in the first status whose name is like the search |
| `InvoicePages.SearchByNoStatus` | GoodFood-BE/internal/utils/admin_invoices_helper.go:77-80 | and if no status has such a name every page is answered with the error |
| `InvoicePages.SearchByDate` | GoodFood-BE/internal/utils/admin_invoices_helper.go:86-89 | without a search text, "Created at" shows exactly the invoices of a range of at least two days, and all invoices otherwise |
| `InvoicePages.BadDatesFail` | GoodFood-BE/internal/server/handlers/admin_invoices.go:36-41 | dates that cannot be understood fail every page of that sort |
| `InvoicePages.SearchOtherwise` | GoodFood-BE/internal/utils/admin_invoices_helper.go:68-91 | any other search shows all invoices |
| `InvoicePages.PageNumbers` | GoodFood-BE/internal/server/handlers/admin_invoices.go:28-31 | no page is an error, and a negative one is answered like page 1 |
| `InvoicePages.QueryErrorsShow` | GoodFood-BE/internal/server/handlers/admin_invoices.go:22-66 | the first failing query decides the error; the status is queried only for a search by it |
| `InvoicePages.SortSorts` | GoodFood-BE/internal/utils/admin_invoices_helper.go:62-65 | with distinct IDs the ordered rows strictly descend and are the same rows |
| `InvoicePages.SortKeepsRows` | GoodFood-BE/internal/utils/admin_invoices_helper.go:62-65 | ordering neither loses nor repeats a row |
| `InvoicePages.PagesPartitionTheMatches` | GoodFood-BE/internal/server/handlers/admin_invoices.go:46-67 | pages 1 to totalPage, one after the other, are exactly the matching invoices in descending ID order; below the wrap-around every answer is its block of six and later ones are empty; and a later page is answered empty if and only if its 64-bit offset lies past the matches |
| `InvoicePages.WrappingPageIsNotEmpty` | GoodFood-BE/internal/utils/utilities.go:35 | three invoices make one page, yet a page number that fits in an int is answered with the oldest of them again |
| `SignedFields.SignedString` | GoodFood-BE/config/vnpay_config.go:36-52 | collecting, sorting and the writing loop give the string that the keys in order determine |
| `SignedFields.HashAllFields` | GoodFood-BE/config/vnpay_config.go:36-55 | the signature is the HMAC of that string |
| `SignedFields.FirstDifferenceDecides` | GoodFood-BE/config/vnpay_config.go:41 | keys are compared by their first different character, in ascending order |
| `SignedFields.PrefixesAreBelow` | GoodFood-BE/config/vnpay_config.go:41 | and a key is below every longer key it begins |
| `SignedFields.OrderedUnique` | GoodFood-BE/config/vnpay_config.go:41 | a set of keys can be listed in increasing order in only one way |
| `SignedFields.OrderIrrelevant` | GoodFood-BE/config/vnpay_config.go:37-41 | the result does not depend on the order in which the map is ranged over |
| `SignedFields.WrittenForm` | GoodFood-BE/config/vnpay_config.go:43-52 | the non-empty fields joined by "&", and one more "&" exactly when the last key is empty-valued and some field is not |
| `SignedFields.SignedStringParses` | GoodFood-BE/config/vnpay_config.go:36-52 | for keys without "=" and "&" and values without "&", parsing gives back exactly the non-empty fields |
| `SignedFields.SameStringSameFields` | GoodFood-BE/config/vnpay_config.go:36-52 | field sets that sign the same string agree on all non-empty fields |
| `OrderLifecycle.InvoiceTable.UpdateInvoiceStatus` | GoodFood-BE/internal/utils/admin_invoices_helper.go:164-207 | the stored invoice after the business rules; a missing status or invoice, a failed email or a failed write leaves the whole table unchanged |
| `OrderLifecycle.OfferedIffFollows` | GoodFood-BE/internal/utils/admin_invoices_helper.go:120-140 | the detail page offers a status if and only if it is an arrow of the life cycle |
| `OrderLifecycle.NameFindsStatus` | GoodFood-BE/internal/utils/admin_invoices_helper.go:166 | a request that names one of the six statuses finds that one |
| `OrderLifecycle.LandsOnTargetIff` | GoodFood-BE/internal/utils/admin_invoices_helper.go:181-193 | for any target whatever: exactly when an update lands on it, and exactly when it stays within the six statuses |
| `OrderLifecycle.RequestFailsIff` | GoodFood-BE/internal/utils/admin_invoices_helper.go:166-204 | for any request: exactly when it fails, with the stored invoice then unchanged |
| `OrderLifecycle.RequestEffect` | GoodFood-BE/internal/utils/admin_invoices_helper.go:181-201 | for any successful request: a cancellation stores its reason and nothing else touches the reason; delivery marks the invoice paid and nothing else touches the flag; the status moves to 5, to 6, or on by one, or stays |
| `OrderLifecycle.LegalStep` | GoodFood-BE/internal/utils/admin_invoices_helper.go:164-207 | on an offered target the request fails exactly if the write, or the email of a cancellation, does; otherwise the invoice lands exactly on the target, with the paid flag set by delivery only and the reason by cancellation only |
| `OrderLifecycle.LegalRuns` | GoodFood-BE/internal/utils/admin_invoices_helper.go:119-207 | over every run of offered targets: at most four changes of status, Delivered and Cancelled final, paid never unset, delivered implies paid |
| `OrderLifecycle.ReasonOfRun` | GoodFood-BE/internal/utils/admin_invoices_helper.go:191-193 | over every legal run the stored reason is that of the last successful cancellation, or the one at the start if there is none |
| `CacheTags.Cache.SetCache` | GoodFood-BE/internal/utils/utilities.go:118-124 | the value with its expiry, and the key added to the tag's set if a tag is given |
| `CacheTags.StoredUntilExpiry` | GoodFood-BE/internal/utils/utilities.go:118-124 | a stored value is live, and the same, for exactly its time to live, or for good if that is zero; tag sets do not expire |
| `CacheTags.Cache.ClearCache` | GoodFood-BE/internal/utils/utilities.go:126-138 | the loop as written removes the named keys and nothing else |
| `CacheTags.ListedIff` | GoodFood-BE/internal/utils/utilities.go:118-124 | a key stored under a tag is in its set if and only if the tag is another name that holds no value |
| `CacheTags.StoredIsListed` | GoodFood-BE/internal/utils/utilities.go:118-138 | over every run of stores, ticks and clears, of the order as written and of the order intended, a key stored under such a tag stays in the tag's set until a step touches the tag itself |
| `CacheTags.TagDoesNotClear` | GoodFood-BE/internal/utils/utilities.go:131-137 | as written, after any run, clearing a tag removes a live key stored under it if and only if the key is itself among the names cleared |
| `CacheTags.TaggedValueSurvives` | GoodFood-BE/internal/utils/utilities.go:118-138 | the shortest run in which the clearing as written fails: a value stored under a tag outlives it |
| `CacheTags.OwnNameClears` | GoodFood-BE/internal/server/handlers/carts.go:54-90 | a value stored with its own name as tag, as the cart handlers do, is never listed, but clearing that name removes it and nothing else |
| `CacheTags.RoundsRemove` | GoodFood-BE/internal/utils/utilities.go:131-137 | in the read-then-delete order the rounds remove the tags and all their members as they were at the start, if no set is listed in a cleared set |
| `CacheTags.RoundsOnlyRemove` | GoodFood-BE/internal/utils/utilities.go:131-137 | and never anything but the names cleared and what was listed in their sets |
| `CacheTags.NamesComeFromSteps` | GoodFood-BE/internal/utils/utilities.go:118-138 | in every run of either order, every value and every member is a key the run stored, and every set is a tag the run used |
| `CacheTags.SeparateNamesStayListed` | GoodFood-BE/internal/utils/utilities.go:118-138 | in every run of either order in which no name is both a value and the tag of another, a stored key is in its tag's set until that tag is cleared by name |
| `CacheTags.NestedTagEscapes` | GoodFood-BE/internal/utils/utilities.go:131-137 | a run of the read-then-delete program, with a name used both ways, after which a value stored under a tag survives the clearing of that tag |
| `CacheTags.ReadThenDeleteClears` | GoodFood-BE/internal/utils/utilities.go:126-138 | for a program that always reads before it deletes: after any run in which no name is used both ways, clearing any names leaves no value stored under one of them and keeps every name that is neither cleared nor listed under a cleared one |
| `DefaultAddress.AddressTable.QuickChange` | GoodFood-BE/internal/server/handlers/address.go:232-293 | the table and the response code in every branch and after each prefix of the two writes |
| `DefaultAddress.QuickChangeCodes` | GoodFood-BE/internal/server/handlers/address.go:234-284 | exactly which requests are answered with which code; success exactly between two different addresses of the account, if both writes succeed |
| `DefaultAddress.QuickChangeEffect` | GoodFood-BE/internal/server/handlers/address.go:274-281 | row by row, what a successful quick change leaves |
| `DefaultAddress.AddressTable.Update` | GoodFood-BE/internal/server/handlers/address.go:121-170 | only the account's own row can be edited, and its status comes from the form |
| `DefaultAddress.EditCodes` | GoodFood-BE/internal/server/handlers/address.go:124-161 | exactly which edits are answered with which code, and that all but success change nothing |
| `DefaultAddress.EditEffect` | GoodFood-BE/internal/server/handlers/address.go:150-158 | row by row, what a successful edit leaves |
| `DefaultAddress.AddressTable.Delete` | GoodFood-BE/internal/server/handlers/address.go:174-210 | only the account's own row can be deleted, and the order of the others stays |
| `DefaultAddress.DeleteCodes` | GoodFood-BE/internal/server/handlers/address.go:177-201 | exactly which deletions are answered with which code, and that all but success change nothing |
| `DefaultAddress.DeleteEffect` | GoodFood-BE/internal/server/handlers/address.go:198 | a successful deletion removes exactly the one row |
| `DefaultAddress.DefaultsAfterWrite` | GoodFood-BE/internal/server/handlers/address.go:275-281 | the number of an account's defaults after one row is written |
| `DefaultAddress.HasDefaultIffCounted` | GoodFood-BE/internal/server/handlers/address.go:214-228 | AddressFill finds a default if and only if there is one |
| `DefaultAddress.FillFindsADefault` | GoodFood-BE/internal/server/handlers/address.go:220-222 | what AddressFill finds is an address of the account that is marked as its default |
| `DefaultAddress.QuickChangeKeepsADefault` | GoodFood-BE/internal/server/handlers/address.go:274-284 | whichever write fails, every account that had a default still has one, and other accounts' rows are unchanged |
| `DefaultAddress.NoRunLosesADefault` | GoodFood-BE/internal/server/handlers/address.go:232-293 | the same over any run of quick changes by any accounts with any failing writes |
| `DefaultAddress.QuickChangeCount` | GoodFood-BE/internal/server/handlers/address.go:274-281 | on success the number of defaults grows by one if the new one was none and shrinks by one if the old one was |
| `DefaultAddress.ChangeMovesTheDefault` | GoodFood-BE/internal/server/handlers/address.go:214-293 | a change that disables the one default AddressFill finds makes the new address the one it finds next |
| `DefaultAddress.RunKeepsOneDefault` | GoodFood-BE/internal/server/handlers/address.go:214-293 | a run that always disables the current default keeps exactly one, which AddressFill finds, and changes no other account's rows |
| `DefaultAddress.EditKeepsADefaultIff` | GoodFood-BE/internal/server/handlers/address.go:150-161 | exactly when an edit leaves the account a default |
| `DefaultAddress.DeleteKeepsADefaultIff` | GoodFood-BE/internal/server/handlers/address.go:194-201 | exactly when a deletion leaves the account a default |

## Left out

- RefreshTokens.SessionStore.ValidateRefreshAndRotate: is one atomic step; the source holds no lock or transaction across its get, save and delete, and command-level interleavings of two rotations are not modelled. Its outcome lists the reason of a refusal, not the text of the error.
- RefreshTokens.SessionStore.CreateToken: leaves out the issued-at claim and takes the new jti as an argument; which of its two signatures fails makes no difference.
- A Redis command whose effect happened although its reply was lost: a failing command here has no effect.
- EagerLoad.LoadAddresses: no query modifiers and no after-select hooks, and the argument is a slice of accounts rather than an embedding struct; the reflection that handles such structs is not part of this model.
- EagerLoadAccounts.LoadAccounts: the same, and for addresses.
- UpsertQuery.StatementUndone: is about plain names and no custom options; a custom conflict target or SET text is arbitrary SQL that no parser can tell apart from the rest. Quoting of dotted or quoted names by IdentQuote is not part of this model.
- StatementCache.Caches.Insert: hooks, debug output, the values bound to the statement and scanning of returned columns; NonZeroDefaultSet is an argument. Names containing a percent sign, which the source passes through a format string, are not modelled.
- Paging.Paginate: for totals above 2^53 the quotient is whatever the machine divides, and its conversion back to an int is not checked for overflow; whether the count is right there is settled for one record a page only.
- InvoicePages.GetAdminInvoice: the contents of the summary cards and the mapping to the response type; the count and data queries see the same table, of at most 2^53 rows. ILIKE and the cast of an ID to text are arbitrary functions, and the parsing of the two dates is an argument.
- SignedFields.SignedString: sort.Strings is an insertion sort on the same order; the HMAC is an arbitrary function.
- OrderLifecycle.InvoiceTable.UpdateInvoiceStatus: the text of the email, and that it may already be sent when the write fails.
- CacheTags.Cache.ClearCache: failing Redis commands (other than adding to a name that holds a value) and a missing client; writes between its commands by other requests.
- DefaultAddress.AddressTable.Update: the fields of the form other than the status are one value.
- GetProductsUtil paging orders by price alone, which is no total order, so its pages need not partition anything.
- HandleOAuthLogin, bcrypt, e-mail, storage, asynq jobs, AI and social-login calls, websockets, routing, CORS and JSON: I/O without invariants of its own.
- The other generated models repeat the templates of account and address.
- Dashboard sums and money fields are computed in the database.
