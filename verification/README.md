# Kilhog in Dafny

Kilhog is an address-management service.  It keeps networks and a forest of IPv4 subnets,
hands out free address blocks, and authenticates users and machines.  This project models
the parts of it that carry state or arithmetic, and proves what they promise.

## The model

**Address arithmetic** (`Words`, `Blocks`, `IpUtil`, `Capacity`).  An address is a number below
2^32; the operators are those of a uint32, wrap-around included, and `Contains`, `Overlaps` and
`Masked` are the bit tests of `netip`.  `Blocks` proves that the bit tests agree with address sets.
`IpUtil` has the search loop twice: as a machine with a wrapping loop variable, for which its exact
behaviour is proved, endless runs included, and as a method proved against the lowest free block.
A block in CIDR notation is a prefix of an address and a length, as in section 3.1 of RFC 4632.

**Subnets, one call at a time** (`Tables`, `Service`, `Filling`, `IpamStore`).  `Tables` has the rows of
networks and subnets with the UNIQUE, FOREIGN KEY and ON DELETE CASCADE clauses of the migrations,
and the theorem about the forest they form.  `Service` has each service call as a function from
tables to tables and an outcome, and the invariant of all runs.  `IpamStore` is the store as an object:
methods that assign its tables, held to those functions.  `Filling` says what automatic addresses do
over runs of calls, and `SubnetLaws` what each call does, in terms of tables and request alone: when it
succeeds, exactly what it writes, and which error it gives otherwise.

**Subnets, many clients at once** (`Concurrent`, `Interleavings`, `WriteLock`).  Only what runs inside one
`WithWriteTx` is one step; every read before it is a step of its own.  A client may give up at any
point, which also covers the refusals of the calls scoped to a network.  The state carries the
history of all inserted rows for the invariant to speak about; no step reads it.  `WriteLock` adds the
write mutex of a SQLite store to these steps.

**Migrations** (`Migration`).  The runner with its version table, the tables the scripts create and drop,
and calls that fail before the first script or at any step of any script.

**Users** (`Users`, `UserLaws`, `ConcurrentUsers`).  Accounts, the last-admin guard, and case-insensitive usernames, with
the character tables of Go and of the database as parameters.  `UserLaws` says of each call when it succeeds
and what it leaves in the record.  `ConcurrentUsers` takes the calls apart:
reading the record, looking for the name, counting the admins and writing are steps that other clients can
come between.

**Machines** (`Claims`, `Machines`, `TokenLaws`, `MachineCalls`, `MachineLaws`, `MachineService`,
`ConcurrentKeys`).  Pools, providers and
machines, claim conditions, the JWK Set cache (JWK Set: section 5 of RFC 7517) and the decision which
machine a token belongs to.  What the network would answer at one moment is a parameter of each call.
`MachineCalls` has the calls as functions on tables and cache and the invariant of all runs;
`MachineService` is the service as an object, held to those functions.  `TokenLaws` says when a token is
accepted and for whom, in terms of its signature, its claims and the configuration alone, and `MachineLaws`
what the calls on providers and machines write.  `ConcurrentKeys` takes cache lookups
and provider updates apart, with the fetch outside the mutex; there, looking up a pool and its provider is one
step, and the look for a free provider name is left out, since it can only end the call.

`Common` holds result types and `strings.TrimSpace`.

## What was found

- `findFreeInRange` increments a uint32.  When the parent ends at 255.255.255.255 and has no free
  block, the loop variable wraps to 0 and the loop never ends.  The search returns if and only if there
  is a free block or the parent ends below 2^32 - 1 (`IpUtil.SearchLoopOutcome`, with a concrete parent in
  `IpUtil.FullTopBlockNeverReturns`).  It never returns a wrong block.  A create under such a
  parent never returns either (`Filling.CreateNeverReturnsIff`).  On SQLite it keeps the write mutex, and no
  table of the store ever changes again (`WriteLock.HeldForever`; `WriteLock.StoreStops` is a run that ends so).
- `SubnetService.Delete` looks for children and deletes in separate steps, and `parent_uuid` has no foreign
  key.  Two clients can leave an orphan, and then two unrelated subnets of one network can hold the
  same addresses (`Interleavings.OrphanOverlap`).  Exactly the deletes whose look for children is out of
  date do this (`Interleavings.OrphansComeFromStaleDeletes`).
- Once there is an orphan, the guard of `NetworkService.Delete` on direct children no longer protects a
  network: the cascade takes the orphans along, with a single client, and a subnet created after the guard
  is lost in the same way.  `Interleavings.NetworkDeleteRemovesIff` says exactly when rows go,
  `Interleavings.NetworkDeleteTakesOrphan` and `Interleavings.NetworkDeleteTakesLateRow` are runs of both kinds.
- The last-admin guard reads, counts and writes in separate steps.  A step loses the last enabled admin if
  and only if it removes or demotes the only one left (`ConcurrentUsers.LastAdminLostIff`).  Its client then
  either counted more admins, as when a delete races the disabling of the other admin
  (`ConcurrentUsers.DeleteRacesDisable`), or never counted: an update that read the record before a promotion
  writes the whole old record back (`ConcurrentUsers.OldCopyDemotes`).
- Keys fetched for an earlier provider row can be stored after the update that dropped the cached keys, and
  are then used for an hour (`ConcurrentKeys.OldKeysComeBack`).  Exactly such steps leave the cache wrong
  (`ConcurrentKeys.SettledBreaksIff`).
- Claim normalisation does not trim number literals.  It is idempotent exactly when no such literal has
  space around it, which JSON guarantees (`Claims.NormalizeAllTwice`).
- `UserService.Update` skips its name check when the new name folds to the old one; a clash is then left
  to the unique index and reported as a bare failure (`Users.FoldSkipsTheCheckIff`).  Renaming a user whose
  name begins with LATIN SMALL LETTER LONG S to the name with an s, when that is another user's, does it
  (`Users.LongSClashes`).
- `LoginLocal` looks up the trimmed text as typed, and lower() of SQLite leaves letters beyond ASCII alone.  The
  text a user was created with finds that user exactly when lower() and `strings.ToLower` agree on it
  (`Users.LoginFinds`); a name with a capital E WITH ACUTE does not (`Users.CapitalDoesNotLogIn`).
- On Postgres a failed statement aborts its transaction, so the tolerance of `revert` for a missing
  schema_migrations has no effect there: a downgrade of a blank database to a negative version fails
  (`Migration.Runner.Downgrade`).

## Model

| member | source | states |
|---|---|---|
| `Words.MaskClearsLowBits` | internal/iputil/ipv4.go:94-96 | `x & (^0 << k)` on a uint32 is x without its k low bits |
| `Words.XorComparesHighBits` | internal/iputil/ipv4.go:44 | the shifted exclusive or of two words is zero exactly when they agree above bit k |
| `Words.OctetsRoundTrip` | internal/iputil/ipv4.go:132-144 | `addrToUint32` and `uint32ToAddr`, with their shifts, ors and truncations, undo each other both ways |
| `Blocks.MaskedIsWellFormed` | internal/iputil/ipv4.go:31-36 | masking gives an aligned block around the address, changes exactly the unaligned ones, and is idempotent |
| `Blocks.ContainsIsMembership` | internal/iputil/ipv4.go:44 | for a masked prefix the bit test for an address is membership in its address set |
| `Blocks.ContainsMasked` | internal/iputil/ipv4.go:44 | for any prefix, /0 included, it is membership in the block the prefix lies in |
| `Blocks.PrefixContainsIsInclusion` | internal/iputil/ipv4.go:40-45 | for masked prefixes `PrefixContains` is inclusion of address sets |
| `Blocks.OverlapsIsIntersection` | internal/iputil/ipv4.go:62-66 | for masked prefixes overlap is a common address, and also nesting one way or the other |
| `Blocks.NestedOrDisjoint` | internal/iputil/ipv4.go:40-69 | any two masked blocks are nested or disjoint, never both |
| `Blocks.LastAddrOfAny` | internal/iputil/ipv4.go:123-130 | what `lastAddr` is for any prefix, and that it is the last address of the block exactly for masked ones and 255.255.255.255/0 |
| `Blocks.LastAddrIsLast` | internal/iputil/ipv4.go:123-130 | for a masked prefix `lastAddr` is start + 2^h - 1 over the integers although the uint32 sum may wrap |
| `Common.TrimCuts` | internal/service/subnet.go:79-102 | trimming cuts off space at both ends and nothing else |
| `IpUtil.ParseIPv4Prefix` | internal/iputil/ipv4.go:21-37 | accepts exactly an IPv4 address with a length of 1 to 32, giving the aligned block of that length around the address; a bad length is reported first |
| `IpUtil.ReparseIsIdentity` | internal/service/subnet.go:416-430 | a masked block written as address and length is read back as itself |
| `IpUtil.ValidateIPv4Subnet` | internal/iputil/ipv4.go:48-69 | for prefixes of any length, masked or not, the loop's verdict is the verdict on the address sets of the blocks they lie in, errors in the order of the checks |
| `IpUtil.VerdictOfMasked` | internal/service/subnet.go:155 | for masked prefixes, as the service passes them, those blocks are the prefixes themselves |
| `Blocks.PrefixContainsMasked` | internal/iputil/ipv4.go:40-45 | for any prefixes `PrefixContains` is inclusion of the blocks they lie in |
| `Blocks.OverlapsMasked` | internal/iputil/ipv4.go:62-66 | for any prefixes, /0 included, overlap is a common address of the blocks they lie in |
| `IpUtil.FindFreeInRange` | internal/iputil/ipv4.go:86-121 | returns the lowest aligned free block inside the space, or nothing exactly when there is none, and what it returns is what the uint32 loop returns |
| `IpUtil.FindFreeIPv4Block` | internal/iputil/ipv4.go:72-84 | bad length, too broad, lowest free block, or no free block, each exactly when it should be |
| `IpUtil.HitsAny` | internal/iputil/ipv4.go:108-114 | the inner loop finds out whether the block overlaps a sibling |
| `IpUtil.SearchLoopOutcome` | internal/iputil/ipv4.go:91-120 | the uint32 loop returns if and only if a free block exists or the space ends below 2^32 - 1; whatever it returns is right; otherwise its candidates repeat with period 2^p |
| `IpUtil.WrapsForever` | internal/iputil/ipv4.go:96-105 | in a full space ending at 2^32 - 1 the n-th candidate is start + n * step modulo 2^32, inside the guard |
| `IpUtil.WrapPeriod` | internal/iputil/ipv4.go:101 | after 2^p rounds the wrapped loop is in the same state |
| `IpUtil.FullTopBlockNeverReturns` | internal/iputil/ipv4.go:101 | a concrete parent for which the loop never ends |
| `IpUtil.LastSlot` | internal/iputil/ipv4.go:91-93 | the 2^(p-b) slots of a /b space end where the space ends |
| `IpUtil.BlockIsSlot` | internal/iputil/ipv4.go:96-107 | every aligned /p block inside the space is one of the candidates the loop steps through |
| `Capacity.ExactCapacity` | internal/iputil/ipv4.go:72-121 | with disjoint siblings no smaller than the request, no block is found if and only if their sizes sum to the parent's; the search then gives up exactly if the parent ends below 2^32 - 1 |
| `Capacity.RoomByCounting` | internal/iputil/ipv4.go:72-121 | for any siblings a /p block is found as long as the sum of 2^max(0,p-q) is below 2^(p-b) |
| `Capacity.CountingBoundIsTight` | internal/iputil/ipv4.go:72-121 | at equality there may be no free block |
| `Capacity.FullMeansCovered` | internal/iputil/ipv4.go:101-118 | without a free block the siblings, rounded up to whole slots, cover the space |
| `Capacity.NextSlot` | internal/iputil/ipv4.go:96-118 | with the first k slots taken the search yields slot k, and none when all are taken |
| `Tables.OverlapIffRelated` | internal/service/subnet.go:78-199 | in a forest with disjoint siblings, two rows of a network whose parent chains are intact share an address if and only if one is an ancestor of, or equal to, the other |
| `Tables.AncestorHolds` | internal/service/subnet.go:155-172 | an ancestor is a row of the same network and holds the descendant's block |
| `Tables.WalkEnds` | internal/service/subnet.go:400-414 | the walk reads each row below its start at most once, ends at the row's network_uuid, or breaks off at a missing parent |
| `Tables.WalkAgrees` | internal/service/subnet.go:400-414 | with all parents present the recursive walk ends, at the denormalised network_uuid |
| `Service.AllocationPassesValidation` | internal/service/subnet.go:139-155 | a block the search proposes always passes the validation that follows |
| `Service.TakenIsChild` | internal/service/subnet.go:111-119 | every block read for the sibling check is the stored block of a child |
| `Service.ChildBlockIsMasked` | internal/service/subnet.go:416-430 | every stored child block is read back for the sibling check unchanged |
| `Service.ContextIsRight` | internal/service/subnet.go:356-398 | resolving a parent ends, and gives the parent row's block and network |
| `Service.CreatedFits` | internal/service/subnet.go:104-189 | what a successful create inserts: one row, aligned, inside the parent, clear of every child, with a free name, under an existing parent |
| `Service.CommitCreateKeepsInv` | internal/repository/subnet_repository.go:55-143 | the locked part of a create keeps the invariant |
| `Service.UpdateKeepsInv` | internal/service/subnet.go:298-321 | an update of an existing subnet succeeds, changes its description only and keeps the invariant |
| `Service.RemoveKeepsInv` | internal/service/subnet.go:323-354 | a delete keeps the invariant, every parent's presence included |
| `Service.NetworkDeleteCascadesNothing` | internal/service/network.go:155-186 | the guard on direct children lets a network go exactly when it is empty, so the cascade removes no row |
| `Service.ChildlessNetworkIsEmpty` | internal/service/network.go:163-172 | a network without a direct child has no subnet at all |
| `Service.RunKeepsInv` | internal/service/subnet.go:78-354 | every sequence of calls keeps the invariant |
| `Service.Reachable` | internal/service/subnet.go:78-354 | the invariant holds after every run from an empty store |
| `Service.ReachableOverlap` | internal/service/subnet.go:78-199 | in every reachable state sharing an address and being related are the same |
| `Service.ReachableListing` | internal/service/subnet.go:201-285 | in every reachable state the walk ends at network_uuid, and the listing of a network is exactly what the scoped calls accept |
| `Service.ReachableNetworkDelete` | internal/service/network.go:155-186 | in every reachable state deleting a network removes no subnet, and succeeds exactly for an existing empty one |
| `Service.ReachableConservation` | internal/service/subnet.go:155-186 | after any run the children of a subnet sum to at most its size, those of a network to at most 2^32 |
| `Service.TagsAccepted` | internal/service/network.go:188-201 | `validateTags` accepts exactly lists of non-blank keys that differ after trimming |
| `Filling.ExplicitCreateSucceedsIff` | internal/service/subnet.go:121-189 | a create with an address succeeds exactly when the masked block is clear of its siblings and inside its parent, and creates that block |
| `Filling.AutoCreateFollowsSearch` | internal/service/subnet.go:139-186 | a create without an address makes the lowest free block, fails for want of one, or never returns |
| `Filling.CreateNeverReturnsIff` | internal/service/subnet.go:139-153 | a create never returns exactly for an automatic address under a free name in an existing subnet that is full and ends at 255.255.255.255 |
| `Filling.FillsInOrder` | internal/service/subnet.go:139-186 | automatic /p children of an empty subnet get the addresses start + k * 2^(32-p) in order, and nothing else changes |
| `Filling.FullAfterAllSlots` | internal/service/subnet.go:139-153 | after exactly 2^(p-b) of them the next request fails, or never returns at the top of the address space |
| `Filling.DeleteThenCreate` | internal/service/subnet.go:323-354 | after a childless /p child is deleted the next automatic /p succeeds at an address no higher |
| `SubnetLaws.NetworkAdded` | internal/service/network.go:60-91 | a network is added exactly for a non-blank free name, good tags and a new uuid, with trimmed name and description, and nothing else changes; else the named error |
| `SubnetLaws.NetworkChanged` | internal/service/network.go:112-153 | a network is changed exactly when it exists, the name is non-blank and free for it and the tags are good: to the trimmed name and description, and nothing else changes; else the named error |
| `SubnetLaws.FirstFaultIsReported` | internal/service/network.go:188-201 | the error is that of the first tag whose key is blank or repeated |
| `SubnetLaws.CreateRefused` | internal/service/subnet.go:78-109 | what a create fails for apart from its address, in order, and that it then writes nothing |
| `SubnetLaws.CreateWithAddress` | internal/service/subnet.go:78-199 | a create with an address succeeds exactly for an acceptable request and an admissible block, and writes exactly the row of the trimmed fields and that block |
| `SubnetLaws.AddressErrors` | internal/service/subnet.go:121-172 | which error an address or a block gives, in the order of the checks |
| `SubnetLaws.CreateAutomatically` | internal/service/subnet.go:135-189 | a create without an address succeeds exactly under a subnet with room, and writes exactly the row of the lowest admissible block |
| `SubnetLaws.AutomaticErrors` | internal/service/subnet.go:135-153 | which error a request for an automatic address gives |
| `SubnetLaws.ScopedCreate` | internal/service/subnet.go:231-247 | a scoped create is the plain create for the network itself or one of its subnets, and else changes nothing with the named error |
| `SubnetLaws.ScopedCreateWithAddress` | internal/service/subnet.go:231-247 | when a scoped create with an address succeeds, and what it writes |
| `SubnetLaws.ScopedCreateAutomatically` | internal/service/subnet.go:231-247 | when a scoped create without an address succeeds, and what it writes |
| `SubnetLaws.ScopedErrors` | internal/service/subnet.go:267-285 | the answer of the scoped lookup: the subnet, or which error |
| `IpamStore.SubnetsToPrefixes` | internal/service/subnet.go:416-430 | the loop yields exactly the blocks of the IPv4 subnets, or fails exactly for an unreadable one |
| `IpamStore.ValidateTags` | internal/service/network.go:188-201 | the loop with its seen map returns the first fault, and none exactly for good lists |
| `IpamStore.ListingGivesSiblings` | internal/repository/subnet_repository.go:307-348 | a listing of the children yields the sibling blocks the specification speaks of |
| `IpamStore.Store.Insert` | internal/repository/subnet_repository.go:81-112 | one look at the parent row for the network, then the row, or nothing |
| `IpamStore.Store.Overwrite` | internal/repository/subnet_repository.go:200-258 | the full-row update with its constraint failures |
| `IpamStore.Store.ListRows` | internal/repository/subnet_repository.go:318-348 | each selected row once |
| `IpamStore.Store.ResolveNetworkUuid` | internal/service/subnet.go:400-414 | the recursion returns what the walk reaches, or reports the missing parent |
| `IpamStore.Store.EnsureNetwork` | internal/service/subnet.go:267-285 | accepts a subnet exactly as the specification does |
| `IpamStore.Store.List` | internal/service/subnet.go:201-214 | lists exactly the subnets the scoped calls accept |
| `IpamStore.Store.ParentContext` | internal/service/subnet.go:356-398 | network and block of a parent, or the first fault |
| `IpamStore.Store.Choose` | internal/service/subnet.go:121-153 | the given block, the lowest free one, or the fault |
| `IpamStore.Store.CreateLocked` | internal/repository/subnet_repository.go:55-79 | new tables and result of the part under the write lock |
| `IpamStore.Store.Create` | internal/service/subnet.go:78-199 | new tables and result of the whole call, on a valid store that stays valid |
| `IpamStore.Store.CreateUnder` | internal/service/subnet.go:231-247 | a scoped create, whose row belongs to the named network |
| `IpamStore.Store.Update` | internal/service/subnet.go:298-321 | exactly the description of exactly that row changes |
| `IpamStore.Store.UpdateUnder` | internal/service/subnet.go:253-258 | succeeds exactly for a subnet of the named network |
| `IpamStore.Store.Delete` | internal/service/subnet.go:323-354 | removes exactly that row, exactly when it exists and has no children |
| `IpamStore.Store.DeleteUnder` | internal/service/subnet.go:260-265 | the same, and only inside the named network |
| `IpamStore.Store.CreateNetwork` | internal/service/network.go:60-91 | new tables and result, names staying unique |
| `IpamStore.Store.EditNetwork` | internal/service/network.go:112-153 | new tables and result, names staying unique |
| `IpamStore.Store.DropNetwork` | internal/service/network.go:155-186 | removes the network exactly when no row belongs to it, and never a subnet |
| `IpamStore.Drive` | internal/service/subnet.go:78-354 | a new store driven through any calls that return holds exactly what the run of the calls yields |
| `IpamStore.CreatedInNetwork` | internal/service/subnet.go:231-247 | what a scoped create makes is a row of that network |
| `IpamStore.ScopedLookup` | internal/service/subnet.go:267-285 | on a valid store the scoped lookup ends and accepts exactly the rows with that network_uuid |
| `Concurrent.StaleContextIsRight` | internal/service/subnet.go:96-104 | however old the reading of the parent, it is right whenever the locked step finds the parent row |
| `Concurrent.EditWritesDescription` | internal/repository/subnet_repository.go:200-258 | a full-row write of an old copy changes nothing but the description |
| `Concurrent.LockedCreateIsSafe` | internal/repository/subnet_repository.go:55-143 | the locked step of a create keeps the invariant of all interleavings |
| `Concurrent.InterleavingsAreSafe` | internal/repository/db/store.go:138-177 | every interleaving of any number of clients keeps that invariant |
| `Concurrent.InterleavedInvariants` | internal/repository/subnet_repository.go:55-143 | in every interleaving: siblings disjoint, children inside present parents, no cycles, names unique, networks present |
| `Concurrent.InterleavedConservation` | internal/service/subnet.go:155-186 | in every interleaving the children of a subnet that is there sum to at most its size, those of a network to at most 2^32 |
| `Concurrent.WalkIsShort` | internal/service/subnet.go:400-414 | however other clients interleave, the unlocked walk takes fewer steps than there were rows when it began |
| `Concurrent.RowsAreImmutable` | internal/repository/subnet_repository.go:200-258 | in every interleaving a row's name, prefix, address, parent and network stay as inserted |
| `Concurrent.InterleavedOverlap` | internal/service/subnet.go:78-199 | in every interleaving the overlap theorem holds for subnets whose parent chains are intact |
| `Concurrent.InterleavedListing` | internal/service/subnet.go:201-285 | in every interleaving a network's listing also shows orphans, and the scoped calls accept exactly the others |
| `Interleavings.CreateAloneIsAtomic` | internal/service/subnet.go:78-199 | in every interleaving, orphans or not, a create whose steps nobody interrupts is the atomic create, and its client is done exactly when that returns |
| `Interleavings.UpdateAloneIsAtomic` | internal/service/subnet.go:298-321 | so is an update, with the client done |
| `Interleavings.DeleteAloneIsAtomic` | internal/service/subnet.go:323-354 | so is a delete, with the client done |
| `Interleavings.AddNetworkAloneIsAtomic` | internal/service/network.go:60-91 | so is the creation of a network |
| `Interleavings.ChangeNetworkAloneIsAtomic` | internal/service/network.go:112-153 | so is its change |
| `Interleavings.RemoveNetworkAloneIsAtomic` | internal/service/network.go:155-186 | so is its deletion |
| `Interleavings.OrphansComeFromStaleDeletes` | internal/service/subnet.go:331-342 | a step leaves every parent present if and only if it is not a delete under children that came after its check |
| `Interleavings.OrphanOverlap` | internal/service/subnet.go:331-342 | two clients can reach a state with an orphan and with two unrelated subnets of one network on the same addresses |
| `Interleavings.ChildlessCascade` | internal/service/network.go:163-172 | in every interleaving a network without a direct child is empty if and only if it has no row with a broken chain of parents |
| `Interleavings.NetworkDeleteRemovesIff` | internal/service/network.go:163-174 | the locked step of a network delete removes subnets exactly if the network has a direct child by now or a row with a broken chain of parents |
| `Interleavings.NetworkDeleteTakesOrphan` | internal/service/network.go:155-186 | a run after which deleting a network without direct children removes a subnet, in steps and in one call |
| `Interleavings.NetworkDeleteTakesLateRow` | internal/service/network.go:163-174 | a run in which a subnet created after the check goes with its network |
| `WriteLock.HangsIff` | internal/service/subnet.go:104-153 | in every interleaving the locked step of a create hangs exactly for a present parent, a free name, and an automatic address in a full subnet ending at 255.255.255.255 |
| `WriteLock.HeldForever` | internal/repository/db/store.go:165-177 | once a client hangs under the write mutex no later event changes a table |
| `WriteLock.RunIsInterleaving` | internal/repository/db/store.go:165-177 | every run with the mutex is an interleaving, so it keeps what all interleavings keep |
| `WriteLock.StoreStops` | internal/repository/db/store.go:165-177 | a run of a few calls after which no table ever changes |
| `Migration.SortDesc` | internal/repository/migration/runner.go:190-198 | the exchange sort leaves a descending permutation in place |
| `Migration.SortedIsReversed` | internal/repository/migration/runner.go:78 | for scripts loaded in ascending order that permutation is the reverse |
| `Migration.StateAtMeans` | internal/repository/migration/runner.go:116-130 | the state with k scripts applied has exactly their versions and their tables |
| `Migration.FailsAtAnyStep` | internal/repository/migration/runner.go:116-148 | a script fails exactly for a fault at its begin, a statement, its version row or its commit |
| `Migration.LevelUp` | internal/repository/migration/runner.go:116-130 | applying script k turns the state with k scripts into the one with k + 1 |
| `Migration.LevelDown` | internal/repository/migration/runner.go:132-148 | reverting script i undoes it when it is the last one applied, and does nothing when it is not applied |
| `Migration.Runner.CurrentVersion` | internal/repository/migration/runner.go:93-106 | the highest applied version, 0 for none or a missing table |
| `Migration.Runner.Apply` | internal/repository/migration/runner.go:116-130 | the whole script and its version row, or, on a failure at any step, nothing |
| `Migration.Runner.Revert` | internal/repository/migration/runner.go:132-148 | version row and statements, or, on a failure at any step, nothing; a missing version table fails exactly where statements abort their transaction |
| `Migration.Runner.Upgrade` | internal/repository/migration/runner.go:21-53 | applies scripts up to the first failing one, and succeeds exactly when it reaches the end |
| `Migration.Runner.Downgrade` | internal/repository/migration/runner.go:55-91 | refuses a target that is not lower; else reverts down to the target or to the failing script, and fails on a blank database where statements abort their transaction |
| `Migration.RunAll` | internal/repository/migration/runner.go:21-91 | after any run of calls failing anywhere the state is the one the calls determine: exactly the scripts up to some version, tables included |
| `Migration.UpgradeIsIdempotent` | internal/repository/migration/runner.go:40-50 | success means every script; another upgrade changes nothing; a failed one is completed by the next |
| `Migration.DowngradeLeavesTarget` | internal/repository/migration/runner.go:69-88 | success leaves exactly the versions up to the target; a failure leaves a level in between |
| `Migration.DowngradeSucceedsIff` | internal/repository/migration/runner.go:80-88 | an accepted downgrade reaches its target exactly when no script above it fails |
| `Migration.AppliedUpTo` | internal/repository/migration/runner.go:40-88 | a number of applied scripts is all versions up to some version |
| `Migration.UpDownRoundTrip` | internal/repository/migration/runner.go:21-91 | up and then down to 0 gives back the blank database |
| `Migration.ShippedScriptsArePaired` | internal/repository/migration/scripts.go:22-58 | the three shipped script pairs meet the condition under which all this is proved |
| `Users.UserService.Create` | internal/service/user.go:114-163 | new table and result of the call |
| `Users.UserService.Update` | internal/service/user.go:165-231 | new table and result of the call, checks in order |
| `Users.UserService.Delete` | internal/service/user.go:233-250 | new table and result of the call |
| `Users.UserService.ChangeOwnPassword` | internal/service/user.go:252-275 | new table and result of the call |
| `Users.UserService.EnsureNotLastAdmin` | internal/service/user.go:277-286 | lets the caller go on exactly when an enabled admin remains whichever one user goes |
| `UserLaws.NamesNormalize` | internal/service/user.go:288-300 | a username is accepted exactly for 2 to 64 bytes of letters, digits, dots, underscores and hyphens after trimming, and stored in lower case |
| `UserLaws.CreateLaw` | internal/service/user.go:114-163 | when a create succeeds, the record it adds, and which error it gives |
| `UserLaws.UpdateLaw` | internal/service/user.go:165-231 | when an update succeeds, and that it leaves each given field, the old one where none is given, and all other users as they were |
| `UserLaws.UpdateErrors` | internal/service/user.go:165-225 | what an update fails for, in order |
| `UserLaws.DeleteLaw` | internal/service/user.go:233-250 | a delete succeeds exactly for a user who is not the only enabled admin, and removes that user |
| `UserLaws.PasswordLaw` | internal/service/user.go:252-275 | when a change of password succeeds, that it replaces the hash only, and which error it gives |
| `UserLaws.BootstrapLaw` | internal/service/auth.go:166-195 | bootstrap succeeds exactly for an empty table, the right token and a valid user, who becomes an enabled admin |
| `UserLaws.BytesAdd` | internal/service/user.go:288-307 | lengths are counted in bytes, which add up |
| `UserLaws.CharBytes` | internal/service/user.go:288-307 | each character takes the bytes UTF-8 takes for it |
| `Users.RunKeeps` | internal/service/user.go:114-286 | every run of calls keeps at least one enabled admin once there is one, and keeps stored usernames pairwise different |
| `Users.LoginFinds` | internal/service/auth.go:203-204 | in every reachable table a login text finds at most one user, the one whose stored name is lower() of the trimmed text; the text a user was created with finds that user exactly when lower() and `strings.ToLower` agree on it |
| `Users.CapitalDoesNotLogIn` | internal/service/auth.go:203-204 | a user whom the text of the create does not find |
| `Users.RunsNeverClash` | internal/service/user.go:176-231 | in a run whose names are all of a kind on which the fold is exact no call ends in the bare failure of the unique index |
| `Users.ExactWithoutLongS` | internal/service/user.go:181 | names without LONG S are such a kind where all names are not |
| `Users.BootstrappedRun` | internal/service/auth.go:166-195 | after a successful bootstrap an enabled admin remains for good and bootstrap stays closed |
| `Users.RefusedExactlyForOnlyAdmin` | internal/service/user.go:220-225 | a delete or demotion is refused as the last admin exactly for the only enabled admin |
| `Users.FoldSkipsTheCheckIff` | internal/service/user.go:176-231 | exactly which updates end in the bare failure of the unique index |
| `Users.LongSClashes` | internal/service/user.go:181-187 | two creates and a rename that end in it |
| `ConcurrentUsers.LastAdminLostIff` | internal/service/user.go:165-250 | a step loses the last enabled admin exactly when it removes or demotes the only one left, and its client has then counted more or has read a record that was no enabled admin |
| `ConcurrentUsers.ClientsRemember` | internal/service/user.go:165-250 | in every interleaving what a client read was the record in some earlier state, and what it counted the number of admins in one |
| `ConcurrentUsers.AdminRemains` | internal/service/user.go:165-250 | in every interleaving an enabled admin remains as long as no such step is taken |
| `ConcurrentUsers.InterleavedNamesDiffer` | internal/repository/user_repository.go:27-124 | in every interleaving stored usernames stay pairwise different |
| `ConcurrentUsers.DeleteAlone` | internal/service/user.go:233-250 | a delete whose steps nobody interrupts is the call in one step |
| `ConcurrentUsers.UpdateAlone` | internal/service/user.go:165-231 | so is an update |
| `ConcurrentUsers.CreateAlone` | internal/service/user.go:114-163 | so is a create |
| `ConcurrentUsers.PasswordAlone` | internal/service/user.go:252-275 | so is a change of password |
| `ConcurrentUsers.DeleteRacesDisable` | internal/service/user.go:220-246 | a run from bootstrap in which two clients count two admins and none is left |
| `ConcurrentUsers.OldCopyDemotes` | internal/service/user.go:165-231 | a run from bootstrap in which an old copy of a record demotes the last admin without a count |
| `Claims.ClaimValueStringList` | internal/service/machine.go:725-750 | the loops over typed and untyped lists agree on one meaning |
| `Claims.NormalizeClaimConditions` | internal/service/machine.go:683-712 | the loop yields the normalised conditions or the first fault |
| `Claims.NormalizeAllTwice` | internal/service/machine.go:683-723 | normalising again changes nothing exactly when no number literal has space around it |
| `Claims.NormalizeTwice` | internal/service/machine.go:688-709 | the same for one condition |
| `Claims.NormalizedMeaning` | internal/service/machine_auth.go:400-427 | an accepted condition matches exactly a present claim equal to, starting with, or among the trimmed values given |
| `Claims.ClaimConditionMatches` | internal/service/machine_auth.go:400-427 | the branches and the loop decide whether a condition matches |
| `Claims.StoredAllMatchAlike` | internal/repository/machine_repository.go:245-250 | conditions that come back from the store with untyped lists match the same claims |
| `Claims.NormalizeSucceedsIff` | internal/service/machine.go:688-709 | a condition is accepted exactly when it names a claim, has a known op and gives something to compare with |
| `Claims.AllSucceedIff` | internal/service/machine.go:683-712 | a list of conditions is accepted exactly when each is |
| `TokenLaws.KeysComeFrom` | internal/service/machine_auth.go:262-282 | a provider yields exactly the non-empty key set of its stored document, of the one at its URI, or of the one at the URI its issuer publishes |
| `TokenLaws.FindsChosen` | internal/service/machine_auth.go:234-249 | the key found is the first with the key id, or without one the only key |
| `TokenLaws.AudienceMeans` | internal/service/machine_auth.go:195-232 | the audience matches exactly when the token names an allowed one |
| `TokenLaws.VerifiedIsGenuine` | internal/service/machine_auth.go:128-163 | a token verifies exactly when it parses, the key for its id among the known or freshly fetched keys opens its signature, its issuer is the provider's, it is in time, and it names an audience of the provider |
| `TokenLaws.MatchesRecognises` | internal/service/machine_auth.go:381-427 | a machine matches exactly when subject, prefix and every condition agree with the claims |
| `TokenLaws.CandidateIsAccepted` | internal/service/machine_auth.go:73-107 | candidates are exactly the enabled machines whose enabled provider vouches for the token and which recognise its claims |
| `TokenLaws.OwnerIsOnlyAccepted` | internal/service/machine_auth.go:108-111 | a machine is returned exactly when it is the only one accepted |
| `TokenLaws.ForgeriesAreNobodys` | internal/service/machine_auth.go:152-155 | a token whose signature no key opens is nobody's |
| `MachineLaws.ProviderNormalizes` | internal/service/machine.go:395-442 | a provider's text is accepted exactly when valid, and its row has the trimmed name, normal URLs, clean audiences, and only what its mode needs |
| `MachineLaws.ProviderCreated` | internal/service/machine.go:260-297 | when a provider is created, and what its row is |
| `MachineLaws.ProviderUpdated` | internal/service/machine.go:299-350 | when a provider is updated, and that its row is made of each given field and the stored ones |
| `MachineLaws.MachineBuilds` | internal/service/machine.go:615-672 | when a machine is built, and each of its fields |
| `MachineLaws.BuiltRecognises` | internal/service/machine.go:652-671 | a stored machine matches exactly the claims whose subject, prefix and conditions are those asked for |
| `MachineLaws.MachineCreated` | internal/service/machine.go:535-550 | when a machine is created, and what its row is |
| `MachineLaws.MachineUpdated` | internal/service/machine.go:552-600 | when a machine is updated, and that its row is made of each given field and the stored ones |
| `Machines.VerifyIsLocal` | internal/service/machine_auth.go:128-163 | a verdict reads and writes its own provider's cache entry only, so providers may be tried in any order |
| `Machines.VerifyMeans` | internal/service/machine_auth.go:137-151 | the verdict in terms of the key set known and the one a refetch would yield |
| `Machines.Owner` | internal/service/machine_auth.go:108-111 | the answer is m if and only if m is the only candidate |
| `Machines.AddingNeverReattributes` | internal/service/machine_auth.go:86-111 | adding a machine never moves a token from one existing machine to another |
| `Machines.BystandersDoNotMatter` | internal/service/machine_auth.go:96-110 | removing a machine that is no candidate changes no answer |
| `Machines.CandidatesOfOnePool` | internal/repository/machine_provider_repository.go:167-181 | candidates from one pool share their provider |
| `Machines.NobodyMatchesNothing` | internal/service/machine.go:638-656 | no machine of a valid configuration is matched by a token without claims |
| `Machines.StaticEntryIsTheDocument` | internal/service/machine_auth.go:266-268 | in a coherent cache the keys of a static provider are the parse of its current document |
| `Machines.LookupKeepsCoherence` | internal/service/machine_auth.go:251-287 | a lookup keeps the cache coherent and hands out keys less than an hour old |
| `Machines.OneMore` | internal/service/machine_auth.go:88-95 | trying one more provider changes its own cache entry as `Verify` does and no other |
| `Machines.TriedCacheIsCoherent` | internal/service/machine_auth.go:88-95 | the cache an authentication leaves is coherent |
| `MachineCalls.RunIsValid` | internal/service/machine.go:114-613 | after any run of calls a machine with a provider has one of its own pool and something it must match, and every cached key set of a live provider was obtained under its current configuration |
| `MachineCalls.ReachableStaticKeys` | internal/service/machine_auth.go:266-268 | after any run the cached keys of a static provider are the parse of its current document |
| `MachineCalls.ReachableMachinesAreConstrained` | internal/service/machine.go:638-656 | after any run no machine is matched by a token without claims |
| `MachineCalls.DeletePoolUnbindsNobody` | internal/service/machine.go:177-185 | after any run deleting a pool unbinds no machine that stays |
| `ConcurrentKeys.SettledBreaksIff` | internal/service/machine_auth.go:251-293 | where no invalidation is pending, the cache becomes wrong exactly when a step stores keys for a live provider whose current row yields others than the row read earlier |
| `ConcurrentKeys.CoherenceBreaksIff` | internal/service/machine.go:344-347 | counting the moment between row write and invalidation too, exactly such stores and the row writes that cached keys do not suit |
| `ConcurrentKeys.RunsSettle` | internal/service/machine_auth.go:251-293 | an interleaving without such a store, and with no invalidation to come, leaves the cache coherent |
| `ConcurrentKeys.LookupAlone` | internal/service/machine_auth.go:251-287 | a lookup nobody interrupts is the lookup in one step |
| `ConcurrentKeys.ForcedLookupAlone` | internal/service/machine_auth.go:262-287 | so is a forced one, with the client done |
| `ConcurrentKeys.RefreshAlone` | internal/service/machine.go:366-379 | so is a refresh |
| `ConcurrentKeys.UpdateAlone` | internal/service/machine.go:299-350 | an update nobody interrupts writes the normalised row and leaves no cached keys |
| `ConcurrentKeys.DeleteAlone` | internal/service/machine.go:352-364 | so does a delete remove row and keys |
| `ConcurrentKeys.CreateAlone` | internal/service/machine.go:260-297 | and a create add its row |
| `ConcurrentKeys.OldKeysComeBack` | internal/service/machine_auth.go:266-286 | a run of two clients after which lookups use the keys of a replaced static document |
| `Machines.CleanAudiencesAre` | internal/service/machine.go:406-420 | normalised audiences are exactly the non-blank trimmed ones, each once |
| `Machines.ClaimsAreNonBlank` | internal/service/machine.go:683-712 | every accepted condition names a claim and has something to compare with |
| `MachineService.MachineIdentityService.KeysForProvider` | internal/service/machine_auth.go:251-287 | result and new cache; what is handed out was yielded by the current configuration within the hour |
| `MachineService.MachineIdentityService.VerifyMachineJwt` | internal/service/machine_auth.go:128-163 | verdict and new cache, with the second look at fresh keys; the verdict is that the token is genuine under the provider |
| `MachineService.MachineMatchesJwt` | internal/service/machine_auth.go:381-398 | subject, subject prefix and every condition match |
| `MachineService.MachineIdentityService.AuthenticateJwt` | internal/service/machine_auth.go:73-112 | succeeds exactly for the only enabled, bound, verified and matching machine, in whatever order rows are listed, counting none twice; leaves the entry of each provider it tries as verifying does and all others unchanged; stated once through its specification and once through signature, claims and configuration alone |
| `MachineService.NormalizeAudiences` | internal/service/machine.go:406-420 | the loop with its seen map yields exactly those audiences |
| `MachineService.MachineIdentityService.DeletePool` | internal/service/machine.go:177-185 | removes the pool's providers and machines and touches no other row |
| `MachineService.MachineIdentityService.CreateProvider` | internal/service/machine.go:260-297 | succeeds exactly for a valid text with a free name and issuer in an existing pool |
| `MachineService.MachineIdentityService.UpdateProvider` | internal/service/machine.go:299-350 | the merged and normalised row, and no cached keys of the earlier one |
| `MachineService.MachineIdentityService.DeleteProvider` | internal/service/machine.go:352-364 | removes row and cached keys; its machines stay without a provider |
| `MachineService.MachineIdentityService.RefreshProviderJwks` | internal/service/machine.go:366-379 | refuses static providers; else fresh keys in the cache, or none |
| `MachineCalls.Built` | internal/service/machine.go:615-672 | a built machine with a provider has one of its own pool and something it must match |
| `MachineService.MachineIdentityService.BuildMachine` | internal/service/machine.go:615-672 | builds that machine |
| `MachineService.MachineIdentityService.CreateMachine` | internal/service/machine.go:535-550 | succeeds exactly for a valid text with a free name; the row is the stored form |
| `MachineService.MachineIdentityService.UpdateMachine` | internal/service/machine.go:552-600 | succeeds exactly for a valid merged text with a free name; no other row changes |
| `MachineCalls.StoredMachineMatchesAlike` | internal/repository/machine_repository.go:245-250 | a machine and its stored row match the same tokens |
| `MachineService.RunAll` | internal/service/machine.go:114-613 | a new service driven through any calls has exactly the tables, the cache and the looks at the world that the run of the calls yields, and they are valid |

## Left out

- IpamStore.Store.Create: requires that the search for an automatic address ends; where the original runs forever there is no result to state, and `Filling.CreateNeverReturnsIff` says exactly when that is.
- IpUtil.FindFreeInRange: requires the same, and `IpUtil.SearchLoopOutcome` covers every other run of the loop; takes masked prefixes of length 1 to 32, which `ParseIPv4Prefix` makes and all callers pass.
- IpUtil.FindFreeIPv4Block: takes masked prefixes of length 1 to 32, for the same reason.
- IpamStore.Store.ListRows: does not model the order of a listing (`ORDER BY name`).
- Tags are checked but not stored: each belongs to one resource and no other rule reads it.
- Timestamps, metrics, logging, error wording, HTTP, the command line and the Go client.
- IPv6: creation refuses it.
- Text forms of addresses: an address text is an address or not one, and printing undoes parsing.
- Failures of the database other than its constraints, and the retry and shutdown code around it.
- Isolation levels: one `WithWriteTx` is one indivisible step, as under the SQLite write lock; for Postgres this supposes serialisable transactions.
- D1 mode, which has no transactions and no rollback.
- The read-write order inside one listing query, and readers that only list.
- Machine pools have an enabled flag only: their names and slugs are checked for uniqueness by one branch.
- API keys, sessions, OIDC logins and the order of authentication methods.
- Signatures, JSON, URLs, bcrypt, email addresses and random uuids: parameters of the model; a new uuid is one not in use.
- MachineService.MachineIdentityService.KeysForProvider: is one step; the fetch outside the mutex is a step of its own in `ConcurrentKeys`.
- Users.UserService.Update: is one step; `ConcurrentUsers` has its reads, its guard and its write apart.
- Users.UserService.Delete: is one step; `ConcurrentUsers` has its read, its guard and its write apart.
- Migration.Runner.Apply: does not model SQL other than creating and dropping tables; indexes follow their tables.
