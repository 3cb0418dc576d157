# rxstoredobject object store, modelled in Dafny

rxstoredobject keeps application objects in two SQLite tables of an Android
database. The *object table* holds one row per (type name, id) with the
object's json and a timestamp. The *tag table* holds the searchable
(tag, value) pairs of each object, one row per pair. `Database` saves,
deletes and clears objects, each in one transaction. It loads them in three
ways:

- by type, with optional inclusive timestamp bounds, an order and a limit;
- by an explicit list of ids;
- by a conjunction of tag predicates, whose per-predicate id sets are intersected.

A caller builds a `Request` field by field with fluent setters. It then
executes the request, optionally truncating everything else of the type, or
asks for its first element.

The model replaces the two SQLite tables with a map and a set
(`StoreTypes.Tables`). It keeps the source's imperative form:

- `ObjectStore.Database` is a class whose `*Sync` methods update the tables
  with the source's loops: the batch loop, the tag-pair loop, the
  `whereArgs` fill loops, the cursor loop and the selection loop.
- `ObjectStore.Request` is a class whose setters update its fields.
- Each method is proved against a specification function or predicate on the
  tables: `WriteSpec` for the writes, `QuerySpec` for the reads.
- The lemmas in those modules and in `ObjectStore` prove what the store
  promises about them.
- `Engine` stands in for the SQLite engine's queries. It may return any
  answer the query admits: any row order without ORDER BY, and any rows a
  LIMIT keeps.

The model keeps these behaviours of the code as written:

- The tag content values are reused across the whole batch (lines 140-141),
  and `setStringContentValue` skips nulls. So a pair with a null key or value
  inherits the previous pair's key or value, even from another object.
- The tag scan compares the type column with the type's `toString()`
  (line 326), while rows are written under `getTypeName()`.
- The limit is applied to each single-predicate tag scan (line 338), not to
  the final id set.
- A predicate that matches nothing stops the loop and returns the
  accumulator built so far (line 339). When it is the first predicate, that
  is null.
- A null id set makes the id loader return null (lines 269, 302-304).
- With truncate and a null result, the type is cleared and stays cleared:
  the re-save of null throws and rolls back (lines 629-631, 143).
- `deleteObjectsSync(types, ids)` with fewer types than ids throws an index
  error inside the transaction, so nothing is deleted.
- With truncate, the re-save stamps `now` on every returned object whose own
  ts is null or zero (lines 151-155, reached from line 631). So an object
  can get a new timestamp on a read.
- A tag row whose value is NULL is never found by "=" on TEXT. Every other
  operator hands NULL to the engine's comparison, which may accept it, as
  SQLite's `IS NOT` does.

## Model

| member | source | states |
|---|---|---|
| StoreTypes.SetStringContentValue | src/main/java/ht/highlig/storedobject/Database.java:489-494 | a non-null value is put under its column; a null value leaves the map unchanged, keeping whatever an earlier row put there; other columns are untouched |
| StoreTypes.EffectiveTs | src/main/java/ht/highlig/storedobject/Database.java:151-155 | the supplied ts is kept unless it is null or zero, in which case the row gets `now`; a stored ts is zero only if the clock read zero |
| QuerySpec.RangeKeys | src/main/java/ht/highlig/storedobject/Database.java:214-228 | the range loader's selection names stored rows only, and with neither bound every stored row of the type name |
| QuerySpec.IdKeys | src/main/java/ht/highlig/storedobject/Database.java:267-269 | the id loader's selection names stored rows only, and none for an empty id set |
| QuerySpec.ValueMatches | src/main/java/ht/highlig/storedobject/Database.java:571-572 | `CAST(value AS kind) op ?`: "=" on TEXT is text equality, which a NULL value never meets; every other operator and kind, NULL included, is left to the engine's comparison (definition; ExampleNullValue states its two cases) |
| QuerySpec.TagRowMatches | src/main/java/ht/highlig/storedobject/Database.java:326-333 | a tag row matches a predicate when its type column equals the type's `toString()`, its tag equals the predicate's tag (a NULL tag never does) and its value matches (definition; ExampleTypeTextMismatch and ExampleNullValue state its consequences) |
| QuerySpec.SelectFrom | src/main/java/ht/highlig/storedobject/Database.java:327-352 | the selection loop never grows a non-null accumulator, and yields null exactly when it starts from null and the first candidate set is missing or empty: both early exits (lines 329 and 339) return what was built so far |
| WriteSpec.DeletePairs | src/main/java/ht/highlig/storedobject/Database.java:400-431 | the tables after the pair delete: unchanged for null or empty arrays and for fewer types than ids (the loop's index error rolls back), otherwise the pairs' keys deleted from both tables (definition; WhereKeysOfPairs and DeleteKeysRows state its effect) |
| WriteSpec.ClearType | src/main/java/ht/highlig/storedobject/Database.java:471-474 | the tables after both deletes with `type = ?` (definition; ClearTypeRows and ClearTypeConsistent state its effect) |
| WriteSpec.PutTagPair | src/main/java/ht/highlig/storedobject/Database.java:173-176 | id and type columns get the object's id and type name; the tag and value columns get the pair's halves when non-null and keep the previous content values' entries when null |
| WriteSpec.InsertTagsKeys | src/main/java/ht/highlig/storedobject/Database.java:171-179 | inserting an object's tag rows keeps every earlier row and adds rows of that object's key only |
| WriteSpec.InsertTagsExact | src/main/java/ht/highlig/storedobject/Database.java:171-179 | when no tag half is null, the inserted rows are exactly one (type, id, tag, value) row per pair, whatever the reused content values held |
| WriteSpec.SaveStepTags | src/main/java/ht/highlig/storedobject/Database.java:158-179 | one save replaces the tag rows of the saved key (by exactly its pairs when none is null) and leaves every other key's tag rows as they were |
| WriteSpec.SaveRunKeepsOtherKeys | src/main/java/ht/highlig/storedobject/Database.java:143-180 | keys outside the batch keep their object row (present or absent) and their tag rows |
| WriteSpec.SaveRunLastWins | src/main/java/ht/highlig/storedobject/Database.java:143-180 | a saved key's row holds the batch's last object with that key, with the supplied ts unless it is null or zero, else `now`; its tag rows are exactly that object's pairs (none for a null or empty list) when no half is null |
| WriteSpec.SaveStepConsistent | src/main/java/ht/highlig/storedobject/Database.java:143-180 | one save keeps every tag row attached to an existing object row and every row under its object's own key, and adds exactly the saved key |
| WriteSpec.SaveRunConsistent | src/main/java/ht/highlig/storedobject/Database.java:143-180 | saving a batch keeps both invariants (no orphan tags, rows under their own key) and adds exactly the batch's keys |
| WriteSpec.SaveObjectsRows | src/main/java/ht/highlig/storedobject/Database.java:129-191 | a null batch changes nothing; keys outside the batch are untouched; each saved key holds its last object with the effective ts and exactly its tag pairs |
| WriteSpec.SaveObjectsConsistent | src/main/java/ht/highlig/storedobject/Database.java:129-191 | saveObjectsSync leaves no orphan tag row and keeps every row under its object's key |
| WriteSpec.NullTagValueIsInherited | src/main/java/ht/highlig/storedobject/Database.java:140-141 | saving a = {color: red} then b = {size: null} gives b a tag row (size, red): the null value inherits the previous pair's value |
| WriteSpec.DeleteKeysRows | src/main/java/ht/highlig/storedobject/Database.java:419-420 | deleting a key set removes exactly the object and tag rows of those keys and keeps every other row as it was |
| WriteSpec.DeleteKeysConsistent | src/main/java/ht/highlig/storedobject/Database.java:419-420 | deleting by keys leaves no orphan tag row |
| WriteSpec.ClearTypeRows | src/main/java/ht/highlig/storedobject/Database.java:471-474 | clearing a type removes every object and tag row of that type name and keeps every row of other types |
| WriteSpec.ClearTypeConsistent | src/main/java/ht/highlig/storedobject/Database.java:471-474 | clearing a type leaves no orphan tag row |
| WriteSpec.WhereKeysOfPairs | src/main/java/ht/highlig/storedobject/Database.java:411-418 | whereArgs holding (types[i] name, ids[i]) at 2i and 2i+1 selects exactly the keys (types[i], ids[i]) |
| WriteSpec.DeleteObjectsByPairs | src/main/java/ht/highlig/storedobject/Database.java:376-387 | deleting the arrays of the objects' types and ids deletes exactly the objects' keys |
| WriteSpec.TruncateLeavesExactly | src/main/java/ht/highlig/storedobject/Database.java:629-632 | clearing a type and saving a list of that type leaves exactly the list's keys of that type, no tag rows of any other key of it, stays consistent, and touches no other type |
| QuerySpec.MeetMembers | src/main/java/ht/highlig/storedobject/Database.java:343-351 | the accumulator is null before any scan, and afterwards holds exactly the ids found by every scan folded in |
| QuerySpec.SelectFromSplit | src/main/java/ht/highlig/storedobject/Database.java:328-351 | running the loop over earlier non-empty scans that never emptied the accumulator passes their intersection on to the rest |
| QuerySpec.TraceSelects | src/main/java/ht/highlig/storedobject/Database.java:328-351 | without a limit, the accumulator of the scans the loop performed equals the loop's result over the candidate sets |
| QuerySpec.SelectAllNonEmpty | src/main/java/ht/highlig/storedobject/Database.java:328-351 | when no candidate set is empty, the loop yields the accumulator of all of them, including when it stopped early on an empty accumulator |
| QuerySpec.SelectionUnlimited | src/main/java/ht/highlig/storedobject/Database.java:313-353 | with limit <= 0, getIdsFromSelection's result is IdsFromSelection: null for a null, empty or length-mismatched predicate list, otherwise the early-exit fold |
| QuerySpec.SelectFromAllNonEmpty | src/main/java/ht/highlig/storedobject/Database.java:328-351 | over non-empty candidate sets the loop result is non-null and contains exactly the ids in all of them |
| QuerySpec.SelectionIsIntersection | src/main/java/ht/highlig/storedobject/Database.java:313-353 | when every predicate matches some row, the selection is the intersection of the per-predicate id sets (both directions) |
| QuerySpec.SelectionSound | src/main/java/ht/highlig/storedobject/Database.java:328-351 | with any limit, when every predicate matches some row, the result is non-null and each of its ids matches every predicate |
| QuerySpec.ExampleBothMatch | src/main/java/ht/highlig/storedobject/Database.java:313-353 | with 1 = {color: red, size: 3} and 2 = {color: red, size: 4}, color=red AND size=3 yields {1} |
| QuerySpec.ExampleStopsOnEmptyScan | src/main/java/ht/highlig/storedobject/Database.java:339 | color=red AND size=5 yields {1, 2}, not the empty set, because the empty scan stops the loop |
| QuerySpec.ExampleFirstScanEmpty | src/main/java/ht/highlig/storedobject/Database.java:339 | color=blue AND size=3 yields null, because the first predicate matches nothing |
| QuerySpec.ExampleTypeTextMismatch | src/main/java/ht/highlig/storedobject/Database.java:326 | for a type whose toString differs from its type name, the same query finds nothing and yields null |
| QuerySpec.ExampleNullValue | src/main/java/ht/highlig/storedobject/Database.java:572-573 | a tag row with a NULL value is never found by "=" on TEXT, and is found by another operator whenever the engine's comparison accepts NULL for it |
| QuerySpec.LoadIsScan | src/main/java/ht/highlig/storedobject/Database.java:239-246 | in a well-keyed table a loaded list is a scan of its own objects' keys, each object being its row's payload |
| QuerySpec.LoadProperties | src/main/java/ht/highlig/storedobject/Database.java:229-246 | every load returns payloads of selected rows, each row once, at most limit of them when limit > 0, all selected rows otherwise, sorted by ts under ASC or DESC |
| QuerySpec.RangeLoadProperties | src/main/java/ht/highlig/storedobject/Database.java:214-237 | the range loader returns objects of the requested type whose ts is <= before and >= after when set, and all such objects when there is no limit |
| QuerySpec.IdLoadProperties | src/main/java/ht/highlig/storedobject/Database.java:263-292 | the id loader returns objects of the type whose id is in the set, and every stored one of them |
| QuerySpec.SaveThenLoadById | src/main/java/ht/highlig/storedobject/Database.java:129-180 | loading by id an object just saved yields exactly [that object] |
| QuerySpec.SaveThenLoadType | src/main/java/ht/highlig/storedobject/Database.java:200-246 | saving objects of one type with distinct ids into a store without that type, then loading the type unfiltered, yields exactly the saved objects |
| Engine.QueryObjects | src/main/java/ht/highlig/storedobject/Database.java:229-237 | the cursor holds distinct selected rows; all of them unless the limit was reached; with an order, sorted by ts and ahead of every row left out |
| Engine.ScanTags | src/main/java/ht/highlig/storedobject/Database.java:330-338 | a DISTINCT id scan returns matching ids only: all of them without a limit, otherwise limit of them or all |
| ObjectStore.PlanOf | src/main/java/ht/highlig/storedobject/Database.java:621-628 | the id loader when ids is non-empty, otherwise the tag path when tag predicates exist, otherwise the range loader |
| ObjectStore.First | src/main/java/ht/highlig/storedobject/Database.java:640-645 | null for a null or empty list, otherwise element 0 |
| ObjectStore.ResultHasType | src/main/java/ht/highlig/storedobject/Database.java:617-628 | every object an executed request returns has the request's type, except after a tag selection that found no id |
| ObjectStore.IdPathLoadsExactlyIds | src/main/java/ht/highlig/storedobject/Database.java:621-622 | with ids, the result is every stored object of the type whose id was added and only those, so limit, before and after are ignored |
| ObjectStore.TagPathUnlimited | src/main/java/ht/highlig/storedobject/Database.java:623-625 | on the tag path without limit the ids are IdsFromSelection; a null selection gives a null result; a non-empty one gives exactly the type's objects with those ids |
| ObjectStore.TagPathSound | src/main/java/ht/highlig/storedobject/Database.java:623-625 | on the tag path with any limit, when every predicate matches some row the selection is non-null and each loaded object matches every predicate |
| ObjectStore.TruncateOutcome | src/main/java/ht/highlig/storedobject/Database.java:629-632 | with truncate the type's keys afterwards are exactly the result's keys, each holding its last object in the result with ts re-stamped to `now` when null or zero and exactly its tag pairs; a null result leaves the type cleared; other types keep their rows; the invariants hold |
| ObjectStore.FirstLeadsOrder | src/main/java/ht/highlig/storedobject/Database.java:636-647 | on the range path getFirst is non-null exactly when a stored object of the type lies in the bounds, and it comes first in the order over all of them (newest under DESC) |
| ObjectStore.Database.constructor | src/main/java/ht/highlig/storedobject/Database.java:51-53 | opening the store keeps the persisted tables: it starts with the given consistent tables, whatever earlier runs saved |
| ObjectStore.Database.SaveObjectsSync | src/main/java/ht/highlig/storedobject/Database.java:129-191 | the new tables are SaveObjects of the old ones: the batch loop upserts each object and replaces its tag rows through the reused content values; the invariants are kept |
| ObjectStore.Database.SaveOne | src/main/java/ht/highlig/storedobject/Database.java:144-179 | one pass of the batch loop leaves the tables and content values that one save step describes |
| ObjectStore.Database.InsertTagRows | src/main/java/ht/highlig/storedobject/Database.java:171-179 | the pair loop leaves the tag rows and content values that InsertTags describes |
| ObjectStore.Database.DeletePairsSync | src/main/java/ht/highlig/storedobject/Database.java:400-431 | null or empty arrays change nothing; too few types roll back; otherwise exactly the pairs' rows go from both tables |
| ObjectStore.Database.DeleteObjectsSync | src/main/java/ht/highlig/storedobject/Database.java:376-387 | a null or empty collection changes nothing; otherwise exactly the objects' keys go from both tables |
| ObjectStore.Database.DeleteObjectSync | src/main/java/ht/highlig/storedobject/Database.java:444-448 | null changes nothing; otherwise exactly the object's key goes from both tables |
| ObjectStore.Database.ClearObjectsOfTypeSync | src/main/java/ht/highlig/storedobject/Database.java:461-487 | the new tables are the old ones without any row of the type name |
| ObjectStore.Database.ReadCursor | src/main/java/ht/highlig/storedobject/Database.java:239-246 | the list holds the payload of each cursor row in cursor order |
| ObjectStore.Database.LoadRange | src/main/java/ht/highlig/storedobject/Database.java:200-257 | the result is a load of the rows of the type within the ts bounds, in the order, with the limit |
| ObjectStore.Database.LoadByIds | src/main/java/ht/highlig/storedobject/Database.java:259-311 | null for a null id set; for a non-empty one, a load of the type's rows with those ids, in the order and without limit |
| ObjectStore.Database.GetIdsFromSelection | src/main/java/ht/highlig/storedobject/Database.java:313-363 | the result matches a trace of limited scans with the early exits; with limit <= 0 it is IdsFromSelection |
| ObjectStore.Request.constructor | src/main/java/ht/highlig/storedobject/Database.java:513-515 | a new request has its type and every other field unset (limit 0, no truncate) |
| ObjectStore.Request.AddIds | src/main/java/ht/highlig/storedobject/Database.java:517-522 | a null or empty list changes nothing; otherwise the ids are appended; tag predicates are not checked |
| ObjectStore.Request.AddId | src/main/java/ht/highlig/storedobject/Database.java:524-528 | appends the id; tag predicates are not checked |
| ObjectStore.Request.TagWithOperator | src/main/java/ht/highlig/storedobject/Database.java:563-575 | refused, with nothing changed, exactly when ids are non-empty; otherwise exactly one predicate and its argument are appended |
| ObjectStore.Request.TagEquals | src/main/java/ht/highlig/storedobject/Database.java:530-532 | as TagWithOperator with "=" and TEXT |
| ObjectStore.Request.TagEqualsAs | src/main/java/ht/highlig/storedobject/Database.java:534-536 | as TagWithOperator with "=" and the given kind |
| ObjectStore.Request.TagGt | src/main/java/ht/highlig/storedobject/Database.java:538-540 | as TagWithOperator with ">" |
| ObjectStore.Request.TagLt | src/main/java/ht/highlig/storedobject/Database.java:542-544 | as TagWithOperator with "<" |
| ObjectStore.Request.TsGtEq | src/main/java/ht/highlig/storedobject/Database.java:546-549 | sets the lower ts bound and nothing else |
| ObjectStore.Request.TsLtEq | src/main/java/ht/highlig/storedobject/Database.java:551-554 | sets the upper ts bound and nothing else |
| ObjectStore.Request.OrderByTs | src/main/java/ht/highlig/storedobject/Database.java:577-583 | sets the ts ordering and nothing else |
| ObjectStore.Request.TruncateRest | src/main/java/ht/highlig/storedobject/Database.java:586-589 | sets truncate and nothing else |
| ObjectStore.Request.Limit | src/main/java/ht/highlig/storedobject/Database.java:602-605 | sets the limit and nothing else |
| ObjectStore.Request.ExecuteSync | src/main/java/ht/highlig/storedobject/Database.java:617-634 | the result is a LoadResult of the request on the old tables; the new tables are the old ones, or with truncate the type cleared and the result re-saved |
| ObjectStore.Request.GetFirst | src/main/java/ht/highlig/storedobject/Database.java:636-648 | yields First of an executed result, with the same effect on the tables as ExecuteSync |

## Left out

- The Observable wrappers and their scheduling are not modelled. The `*Sync` methods are modelled directly.
- The read/write locking of the database handle is not modelled. Each `*Sync` call on `Database` is one atomic step.
- ObjectStore.Request.ExecuteSync: the source takes the lock once per step, and the model runs all the steps on one snapshot. On the tag path the selection (lines 318-361) and the id load (lines 263-309) lock separately, so a writer can run between them. With truncate the clear (lines 463-485) and the re-save (lines 131-190) lock separately too, which makes four locks on the tag path and three on the other paths. A writer's rows can then be wiped, or survive the clear. ObjectStore.TagPathSound and ObjectStore.TruncateOutcome are about the one-snapshot model.
- The store is always available. The paths where the database cannot be opened, which return null or throw, are not modelled.
- SQL strings, `StringUtil` and the schema are not modelled. Selections are key sets and tag predicates are (tag, operator, kind) values.
- `CAST(value AS kind)` with an operator other than "=" on TEXT is left to the comparison the database is constructed with, NULL values included. SQLite affinity and floating point are not modelled.
- Gson is not modelled. The json column holds the object itself, so a load returns the object that was saved.
- Logging is not modelled.
- The clock is a parameter `now`. It is read once per call, while the source reads it once per object.
- Object ids and types are never null here. The source's inheritance of a null id or type from the previous object is not modelled. Null tag keys and values are modelled.
- Null elements are not modelled. In the source, a null object in a saved batch throws at line 144 and the batch rolls back. A null object in the collection given to `deleteObjectsSync` throws at line 382, outside the transaction, and reaches the caller. A null pair in a tag list throws at line 175 and the batch rolls back.
- A null id added with `addId`, and a null predicate value, are not modelled.
- SQLite's limit on the number of bound parameters in one statement is not modelled. It was 999 before SQLite 3.32. Above it, `deleteObjectsSync` binds two arguments per object (lines 411-414) and deletes nothing: the exception is caught at line 422, and `endTransaction` at line 426 rolls back because `setTransactionSuccessful` was not reached. `loadObjects` with ids (lines 269-275) returns null (lines 302-304), and with truncate that null wipes the type (lines 630-631). ObjectStore.Database.DeletePairsSync, ObjectStore.Database.DeleteObjectsSync and ObjectStore.Database.LoadByIds therefore promise the full delete or load for any length.
- ObjectStore.Database.GetIdsFromSelection: tag scans never fail in the model. In the source, a scan whose SQL the engine refuses throws at line 330, and the catch at lines 354-356 returns null for the whole selection. The operator is pasted into the SQL as given (lines 571-572), so an operator such as "NOT" fails this way, and so does a quote in the type's `toString()` (line 326). With truncate, that null result wipes the type (lines 630-631). The model's selection is null only for a null, empty or mismatched predicate list, or when the first predicate matches nothing.
- A tag name containing a quote, which breaks the SQL the source builds, is not modelled.
- Java `int` and `long` overflow is not modelled. Limits and timestamps only take part in comparisons.
- ObjectStore.Database.LoadByIds: for an empty id set the result is left unconstrained, because the SQL it runs depends on `StringUtil.repeat`, which is not part of this model.
- The tag table's own uniqueness constraint comes from `DatabaseSchema`, which is not part of this model. Identical tag rows collapse in the set.
- `orderByTag` is commented out and `tagOrderBy` is never set, so the throw in `orderByTs` cannot happen and is not modelled.
- Not modelled: `recreateTablesSync`, which delegates to `onCreate`; the singleton `with`; `load`; `toString`.
