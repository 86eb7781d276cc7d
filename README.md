# hexya record cache and flush, in Dafny

This project models the record cache of the hexya ORM and the flush that
writes the cache back to the database.

**The cache.** The cache (`hexya/models/cache.go`) holds:

- an identity map from record references (model, id) to field maps;
- the many-to-many link tables;
- the set of placeholders scheduled for insert (`scheduledInsert`);
- the dirty field names of stored records (`scheduledUpdate`).

**Aliasing.** Two references can share one field map: `copyPointer` points the
database reference of a freshly inserted record at its placeholder's map. The
model keeps that sharing. `data` maps each reference to an index into an arena
`slots` of field maps. Two references alias exactly when they hold the same
index, and every write goes through the index.

**Record collections.** `createInCache` (`hexya/models/rc_cache.go`) creates
placeholders with ids -1, -2, …. The small reference constructors live in the
same file.

**Flush.** `flush` (`hexya/models/environment.go`) works in two phases. First it
runs `insertData` on every scheduled placeholder. `insertData` inserts pending
foreign-key targets first, rewrites each foreign key to the id its target was
assigned, INSERTs the record and promotes it. Then `flush` sends one UPDATE per
dirty record, carrying exactly its dirty fields. An UPDATE that affects no row
ends the flush.

**Files.**

| file | contents |
|---|---|
| `types.dfy` | values, references, field metadata, `strings.Compare`, link slots, path splitting and joining |
| `store.dfy` | the arena-based store as pure functions, with lemmas about aliasing, inverse writes, dirty marks and links |
| `reads.dfy` | what a read or a path walk yields, and why creating missing entries never changes it |
| `cache.dfy` | the `Cache` class: every operation of `cache.go` as a method |
| `rc_cache.dfy` | `createInCache` and the reference constructors |
| `environment.dfy` | `insertData` and `flush` as methods of an `Environment` class, over a logging `Database` |

**Specifications.** The methods work on the class fields in place. Each is
proved against pure specification functions and predicates over the store
(`Assign`, `SetInverse`, `Mark`, `Written`, `PathWritten`, `Progress`,
`InsertedRecord`, `UpdatesSent`, …). The relational facts are lemmas about
those functions. `addRecord` returns, as ghost results, the order of its
`updateEntry` calls and the cache states around them (`Calls`), so each call's
effect is stated.

**FK rewrite, as written.** The code rewrites a foreign key to
`scheduledInsert[fkRef].id` (`environment.go:93`). For a target that has its own
positive id and was never scheduled, that lookup yields the zero reference, so
the key becomes 0. The model follows the code here: `FkRewrite` and the lemma
`Environments.FkRewriteCases` state this case. The reading that the key
always becomes the dependency's real assigned id holds only for targets that
were placeholders.

## Model

| member | source | states |
|---|---|---|
| CacheTypes.Compare | hexya/models/cache.go:126 | `strings.Compare`: the result is -1, 0 or 1, and 0 exactly when the strings are equal |
| CacheTypes.CompareAntisymmetric | hexya/models/cache.go:126 | swapping the arguments of the comparison negates it |
| CacheTypes.OurIndex | hexya/models/cache.go:140 | the link slot of "our" side is 1 exactly when our field name compares greater than theirs, else 0 |
| CacheTypes.TheirIndex | hexya/models/cache.go:141 | the other side's slot is the other of the two slots |
| CacheTypes.SlotsSwapWithSides | hexya/models/cache.go:140-141 | seen from the other field of the relation, the two slots swap |
| CacheTypes.NewLink | hexya/models/cache.go:143-145 | a new link holds our id in our slot and the target in the other |
| CacheTypes.LinkSeenFromBothSides | hexya/models/cache.go:151-164 | b is linked to a through one field of a many-to-many relation exactly when a is linked to b through the other field |
| CacheTypes.Split | hexya/models/cache.go:173 | splitting a path never yields an empty list, and no segment contains the separator |
| CacheTypes.JoinSplit | hexya/models/cache.go:293-300 | joining the segments of a split path gives the path back |
| CacheTypes.SplitJoin | hexya/models/cache.go:300 | splitting the join of separator-free segments gives the segments back, so the recursive call sees exactly `exprs[1:]` |
| CacheTypes.SplitNoSep | hexya/models/cache.go:302 | a name without separator splits into itself alone |
| CacheTypes.SplitPrefix | hexya/models/cache.go:293-300 | a path `a.rest` splits into `a` followed by the split of `rest` |
| CacheTypes.PathModel | hexya/models/cache.go:292-303 | the model a valid path ends in registers the path's last segment |
| CacheTypes.SegmentCount | hexya/models/cache.go:173-174 | every path has at least one segment |
| CacheTypes.OneSegmentPath | hexya/models/cache.go:293-302 | a path that splits into one segment is that segment, so it names a field of the starting record |
| Store.WithEntry | hexya/models/cache.go:73-80 | getData's store effect: the record gets an entry, no pointer moves, and no existing record's field map changes |
| Store.Assign | hexya/models/cache.go:116 | a field write keeps every pointer and gives the record an entry |
| Store.AssignSeenThroughAliases | hexya/models/cache.go:116 | after a write through `r`, every reference sharing `r`'s map sees the new value, and every other reference sees its old map |
| Store.Delete | hexya/models/cache.go:206 | deleting a key keeps every pointer |
| Store.DeleteSeenThroughAliases | hexya/models/cache.go:206 | a deleted key disappears through every alias of the record and nowhere else |
| Store.SetReverse | hexya/models/cache.go:102-104 | writing the reverse key of each target adds exactly those targets' entries and moves no pointer |
| Store.SetReverseReachesTarget | hexya/models/cache.go:102-104 | each listed target ends up holding the given reverse key value |
| Store.SetInverse | hexya/models/cache.go:100-109 | an inverse write adds entries only for the record and its targets |
| Store.SetInverseVisible | hexya/models/cache.go:100-105 | after an inverse write, each target id shows up in the reverse scan for the record, and the field reads `true` |
| Store.SetInverseRead | hexya/models/cache.go:105 | after an inverse write, the field itself holds `true` |
| Store.Mark | hexya/models/cache.go:92-97 | the dirty set of `r` gains the field name exactly when `r.id > 0`; no other set changes |
| Store.MarkEachDirty | hexya/models/cache.go:102-104 | after the inverse writes, a record is dirty for the reverse key exactly when it is a target with a positive id |
| Store.RemoveLinksKeeps | hexya/models/cache.go:122-132 | removing the links of `id` deletes exactly the links holding `id` in our slot of that table |
| Store.ReplaceLinks | hexya/models/cache.go:110-114 | remove-then-add leaves `id` linked to exactly the given ids, keeps the other records' links, and leaves the other tables alone |
| Store.PartitionSplits | hexya/models/cache.go:60-70 | the two id lists together are a permutation of the input; the first holds exactly the cached ids, the second the uncached ones |
| Reads.ResolvesEnd | hexya/models/cache.go:292-303 | a successful walk ends in the model the path names, on its last segment |
| Reads.ReadsStable | hexya/models/cache.go:218-253 | what a field reads as is unchanged by getData creating missing entries |
| Reads.ResolvesStable | hexya/models/cache.go:292-303 | where a path walk ends is unchanged by created entries |
| Reads.MayFailStable | hexya/models/cache.go:296-299 | whether a walk can fail is unchanged by created entries |
| Reads.PresentStable | hexya/models/cache.go:268-284 | whether a path's key is present is unchanged by created entries |
| Reads.OneSegment | hexya/models/cache.go:302 | a one-segment path resolves to the record itself and the name, never fails, and is present exactly when the name is a key of the record's map |
| Reads.GrownEntry | hexya/models/cache.go:73-80 | creating entries never changes what an existing reference sees |
| Reads.GrownReverse | hexya/models/cache.go:225-236 | creating entries (which hold only "id") never changes a reverse scan |
| CacheStore.GroupedAdd | hexya/models/cache.go:172-178 | filing one more key under its segment count keeps every key once, under its count, below the maximum |
| CacheStore.GroupedBucket | hexya/models/cache.go:181 | the bucket of count n holds exactly the keys with n segments, once each |
| CacheStore.ListedAppend | hexya/models/cache.go:180-184 | appending the bucket of count n to the keys of counts below n lists all keys of counts up to n, once each, in order |
| CacheStore.WriteFailed | hexya/models/cache.go:52-55 | a walk that failed, having only created entries and added no dirty mark, is an updateEntry effect |
| CacheStore.WriteReached | hexya/models/cache.go:52-57 | a `Written` write on the record and field a walk reached is an updateEntry effect, and on a one-segment path it is the write of the starting record's own field |
| CacheStore.CallsSnoc | hexya/models/cache.go:181-183 | one more updateEntry call extends a run of calls by one step |
| CacheStore.OneSegmentStep | hexya/models/cache.go:51-58 | an updateEntry call on a bare field name is `FieldWritten`: the plain `Written` write of that field of the starting record |
| CacheStore.OneSegmentCalls | hexya/models/cache.go:180-184 | when every key is a bare field name, each step of the run is `FieldWritten`, the `Written` write of that field of the record, in call order |
| CacheStore.Cache.constructor | hexya/models/cache.go:310-318 | newCache: every table is empty and the counter is 0 |
| CacheStore.Cache.Inserted | hexya/models/cache.go:45 | an absent scheduled-insert key reads as the zero reference |
| CacheStore.Cache.IsNotInDb | hexya/models/cache.go:44-47 | not in the database exactly when the record's id is not positive and its assigned reference's id is not positive |
| CacheStore.Cache.IsInDb | hexya/models/cache.go:40-42 | in the database exactly when the id or the assigned reference's id is positive; the exact negation of IsNotInDb |
| CacheStore.Cache.GetCacheRef | hexya/models/cache.go:305-307 | the reference holds exactly the given model and id |
| CacheStore.Cache.GetData | hexya/models/cache.go:73-80 | returns the record's map; a missing record first gets a fresh map holding only its id; a present one changes nothing |
| CacheStore.Cache.InitWithData | hexya/models/cache.go:82-86 | the record's pointer moves to a new slot holding a copy of the given map with "id" overwritten; no other reference's view changes (the copy is a simplification, see Left out) |
| CacheStore.Cache.CopyPointer | hexya/models/cache.go:286-288 | `to` now shares `from`'s map, so both views agree; nobody else's view changes |
| CacheStore.Cache.PutField | hexya/models/cache.go:116 | a write into the record's (possibly shared) map |
| CacheStore.Cache.UpdateEntryByRef | hexya/models/cache.go:90-118 | the whole effect is `Written`: a dirty mark iff `id > 0`; an inverse field writes the reverse keys and stores `true`; a many-to-many field replaces the links and stores `true`; any other field stores the value |
| CacheStore.Cache.Touch | hexya/models/cache.go:91-97 | the record gets an entry and is marked dirty for the field iff its id is positive |
| CacheStore.Cache.WriteValue | hexya/models/cache.go:115-116 | a plain write stores the value, seen through every alias, and marks the field dirty iff `id > 0` |
| CacheStore.Cache.WriteLinks | hexya/models/cache.go:110-114 | the record is linked to exactly the given ids, and the field holds `true` |
| CacheStore.Cache.WriteInverse | hexya/models/cache.go:100-109 | each target's reverse key becomes the record's id; when the field is not itself the reverse key, each target shows up in the reverse scan; the field holds `true` |
| CacheStore.Cache.SetReverseFks | hexya/models/cache.go:102-104 | the loop of updateEntry calls on the targets' reverse key |
| CacheStore.Cache.RemoveM2MLinks | hexya/models/cache.go:122-132 | afterwards no link of that table holds `id` in our slot, and every other link stays |
| CacheStore.Cache.AddM2MLink | hexya/models/cache.go:136-148 | every given id is linked to `id`, in the slots the name comparison picks |
| CacheStore.Cache.GetM2MLinks | hexya/models/cache.go:151-164 | returns exactly the ids linked to `id`, without repetition |
| CacheStore.Cache.ScanReverse | hexya/models/cache.go:225-236 | returns exactly the ids of the related model's records whose reverse key holds the record's id, once each |
| CacheStore.Cache.ScanReverseFirst | hexya/models/cache.go:237-247 | nil exactly when no record points back; otherwise some record that does |
| CacheStore.Cache.Get | hexya/models/cache.go:218-253 | the value the path's walk reads at its end, or nil when an intermediate segment does not read as an int; only missing entries are created |
| CacheStore.Cache.ReadField | hexya/models/cache.go:223-252 | the value the field reads as, by kind: reverse scan, first reverse match, link table or stored value |
| CacheStore.Cache.GetRelatedRef | hexya/models/cache.go:292-303 | a multi-segment path is followed only when its first segment reads as an int; an error means the walk can fail; a one-segment path yields the record itself and changes nothing |
| CacheStore.Cache.UpdateEntry | hexya/models/cache.go:49-58 | `PathWritten`: on success some walk of the path reaches a record and field on a heap that only gained entries, and `Written` holds from there (`WrittenVia`); an error only creates entries and changes no dirty mark; a one-segment path is exactly updateEntryByRef on the record |
| CacheStore.Cache.HasKey | hexya/models/cache.go:274-280 | true means the path's key is present in the reached map; false means the walk can fail or the key is absent |
| CacheStore.Cache.HasKeys | hexya/models/cache.go:273-281 | true exactly when every path of the record is present |
| CacheStore.Cache.CheckIfInCache | hexya/models/cache.go:268-284 | true means every path is present for every id not below zero; false names such an id and path that is missing; negative ids are skipped |
| CacheStore.Cache.RemoveEntry | hexya/models/cache.go:202-211 | when the key is not cached, only entries are created; otherwise the key disappears through every alias, and a many-to-many field also loses its links |
| CacheStore.Cache.DeleteField | hexya/models/cache.go:206 | the key disappears from the record's map, for every alias and nobody else |
| CacheStore.Cache.DroppedByOneMore | hexya/models/cache.go:194-198 | one more field dropped means one more reason for a link to go |
| CacheStore.Cache.InvalidateRecord | hexya/models/cache.go:192-199 | the record's entry is gone, and exactly the links of its many-to-many fields that hold its id are dropped |
| CacheStore.Cache.DropFieldLinks | hexya/models/cache.go:195-197 | one field's turn of the loop: drops exactly its links for `id` |
| CacheStore.Cache.FilterIdInCache | hexya/models/cache.go:60-70 | the two lists partition the ids, in order, into cached and uncached ones |
| CacheStore.Cache.AddRecord | hexya/models/cache.go:168-185 | updateEntry is called on every key exactly once, in non-decreasing segment count; the ghost trace runs from the old cache to the new one and each step is `PathWritten` for that key and its value (`Calls`); when every key is a bare field name, each step is the `Written` of that field of the record |
| CacheStore.Cache.GroupBySegmentCount | hexya/models/cache.go:169-178 | every key is filed once, under its segment count, and maxLen bounds every count |
| CacheStore.Cache.UpdateEach | hexya/models/cache.go:181-183 | the calls on one bucket, in bucket order, extend the run of calls so far by one `PathWritten` step per path, ending in the new cache |
| RecordCollections.ToRef | hexya/models/rc_cache.go:26-28 | the reference holds exactly the given model and id |
| RecordCollections.GetCacheRef | hexya/models/rc_cache.go:13-15 | the reference holds the collection's model and the given id |
| RecordCollections.GetFirstCacheRef | hexya/models/rc_cache.go:17-19 | the reference of the collection's first id |
| RecordCollections.CreateInCache | hexya/models/rc_cache.go:5-11 | the counter goes down by one and is the returned negative id; the new entry is the given map with "id" overwritten; the reference is scheduled with the zero reference, so it is not in the database; nothing becomes dirty |
| RecordCollections.CountdownIds | hexya/models/rc_cache.go:6-10 | successive placeholder ids are start-1, start-2, …: all negative and pairwise distinct |
| Environments.Database.Insert | hexya/models/environment.go:96-98 | the INSERT is logged and returns a fresh positive id |
| Environments.Database.Update | hexya/models/environment.go:73-74 | the UPDATE is logged with its row count: 1 for a stored record, 0 otherwise |
| Environments.AssignKept | hexya/models/environment.go:93 | a write into a pending record's own map changes no other pending record's map |
| Environments.WithEntryReady | hexya/models/environment.go:86 | getData on the record being inserted keeps the pending records separated and ordered |
| Environments.Promote | hexya/models/environment.go:99-101 | promotion keeps every pending map separate, logs the INSERT and records the assigned reference |
| Environments.FkRewriteCases | hexya/models/environment.go:88-93 | a foreign key to an inserted placeholder becomes its positive assigned id; one to a never-scheduled stored record becomes 0 |
| Environments.DueFrom | hexya/models/environment.go:86-88 | a field of the record keeps its ordering obligation while the loop runs |
| Environments.RewriteStep | hexya/models/environment.go:89-93 | once the target is in the database, writing its assigned id resolves the field and changes no other pending record |
| Environments.ResolvingStep | hexya/models/environment.go:86-95 | one more field of the loop is resolved, and the resolved ones stay resolved |
| Environments.FieldStep | hexya/models/environment.go:86-95 | one turn of the field loop keeps progress and resolves one more field |
| Environments.ResolvedProgress | hexya/models/environment.go:85-95 | the field loop promotes only records ranked below the record being inserted |
| Environments.FinishInsert | hexya/models/environment.go:96-101 | after the loop, the INSERT and promotion establish `InsertedRecord` |
| Environments.ScheduledStep | hexya/models/environment.go:63-65 | one more scheduled record inserted: the inserted ones stay inserted |
| Environments.InsertsStay | hexya/models/environment.go:62-78 | the inserts of phase one stay in front of the updates in the log |
| Environments.SentOneMore | hexya/models/environment.go:66-73 | one more UPDATE of a not yet updated dirty record, with its dirty values, extends the UPDATE log |
| Environments.Environment.InsertData | hexya/models/environment.go:80-102 | a record already in the database is a no-op; a pending record ends up in the database, promoted to a positive reference sharing its map; its INSERT is the last statement and carries every foreign key rewritten; every pending target was INSERTed before it; only INSERTs are sent; nothing becomes dirty |
| Environments.Environment.InsertPending | hexya/models/environment.go:85-101 | insertData's effect on a pending record |
| Environments.Environment.ResolveAll | hexya/models/environment.go:85-95 | the field loop leaves every field of the record resolved |
| Environments.Environment.StartInsert | hexya/models/environment.go:86 | the loop starts from the record's current map, created if missing |
| Environments.Environment.ResolveDeps | hexya/models/environment.go:86-95 | each field of the map is visited once and resolved |
| Environments.Environment.ResolveDep | hexya/models/environment.go:87-94 | a non-nil foreign key is rewritten to its target's assigned id after the target is inserted; any other field is left as it is |
| Environments.Environment.RewriteForeignKey | hexya/models/environment.go:88-93 | the foreign-key branch: the target is inserted first when pending, then the key is rewritten |
| Environments.Environment.EnsureInserted | hexya/models/environment.go:90-92 | afterwards the target is in the database, and only INSERTs were sent |
| Environments.Environment.PromoteRecord | hexya/models/environment.go:96-101 | the INSERT carries the record's current map; the new reference shares that map and is recorded as the record's assigned reference |
| Environments.Environment.Flush | hexya/models/environment.go:58-78 | every scheduled record is in the database; all INSERTs come before any UPDATE; each UPDATE is for a dirty record, at most once, with exactly its dirty fields and their current values; the flush ends normally after updating every dirty record, or fatally at the first UPDATE that affects no row |
| Environments.Environment.InsertScheduled | hexya/models/environment.go:63-65 | every scheduled record ends up in the database, and only INSERTs are sent |
| Environments.Environment.SendUpdates | hexya/models/environment.go:66-77 | one UPDATE per dirty record, with its dirty values; it stops at the first UPDATE of no rows |
| Environments.Environment.DirtyFieldMap | hexya/models/environment.go:68-71 | the map holds exactly the dirty fields, each with its current value (nil when absent) |

## Left out

- The int64 width of `counterID` and of ids is not modelled. Ids are unbounded integers, so the wrap-around after 2^63 placeholders does not occur.
- The transaction wrappers are not part of this model: `ExecuteInNewEnvironment`, commit, rollback, the retry loop and `DBSerializationMaxRetries`, and `newEnvironment`. No retry bound is claimed.
- SQL generation (`insertQuery`, `updateQuery`) and the cursor are replaced by the `Database` class. It logs each statement with its field map and answers with a fresh positive id, or with a row count.
- The field registry is an immutable `Schema` map. `MustGet`, `getRelatedModelInfo` and Go type assertions panic on a bad name or a bad value type; the model makes these preconditions instead. `jsonizeExpr` is the identity.
- `env.Pool(...).withIds(...)` and the record collections it builds are left out. `filterIdInCache` returns the two id lists.
- `getRecord`'s output assembly is left out (it loops `get` over the keys).
- Logging is left out. The panic of a zero-row UPDATE is the `Fatal` outcome.
- Concurrency is left out; the cache is documented as not safe for concurrent use.
- Go's map iteration order is not fixed. Every loop over a map picks its next key by choice from a snapshot of the keys, so each proof holds for every order.
- In `flush`, keys that `insertData` adds to `scheduledInsert` during the range are not visited. Such a key is a pending foreign-key target that was never scheduled itself: `insertData` inserts it first (`environment.go:90-92`) and then records it as a key (`environment.go:101`). Its new reference is only a value of the map. Go may or may not visit such a key; if it does, `insertData` returns at once because the key is in the database.
- Environments.Environment.InsertData: the ghost `rank` requires that the foreign keys between pending records are acyclic and ranked. With a cycle the source recurses without end, so this termination witness is a precondition.
- Environments.Environment.Flush: it requires the acyclicity ranking of every pending record, as InsertData does.
- CacheStore.Cache.AddRecord: for keys of several segments, each step states which walk the write took only as a relation (`Resolves` on the heap before the write); the final contents are not given in closed form, because earlier writes change the reads of later path walks.
- CacheStore.Cache.InitWithData: the model stores a copy of the given map in a new slot. Go stores the caller's map object itself (`c.data[ref] = &data` holds a reference to the same hash map), so the `"id"` write and every later write through the record are seen by the caller, and two records initialised with the same map share it. The model does not capture that sharing with the caller's map or between such records; the separation of pending records that the insert proofs use relies on it.
- `value.([]int64)` and `value.(int64)` panic on a value of the wrong shape; `Fits` makes the right shape a precondition of the writes.
