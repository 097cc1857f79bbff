# jopi-toolkit core, modelled in Dafny

This project models the core of the jopi-toolkit TypeScript library and proves
properties of it:

- **jk_memcache**: `JkMemCache`, an in-memory key/value cache with a count
  limit and a byte-size limit. It has expiry by TTL or by a fixed date and a
  periodic sweep of expired entries. `evictFor` is a four-step eviction:
  1. it sweeps expired entries;
  2. it evicts by importance level 1..10, least used and oldest first, aiming
     at a 90% low-water mark for levels up to 5;
  3. it evicts the three largest entries;
  4. it evicts in insertion order.
- **jk_data**: `simpleRowArrayFilter`, which filters rows by a text search,
  sorts them by the first sorting rule and cuts out one page.
- **jk_tools**: `sortByPriority`, the `DontCallBeforeElapsed` throttle,
  `applyDefaults`, `isUUIDv4` and the template that the fallback UUID
  generator fills.
- **jk_schemas**: `validateSchema` and the string, boolean and number
  validators. It also covers the `string()` field builder and the schema
  registry (`registerSchema`, `getSchema`, `requireSchema`).
- **jk_logs**: the log levels and their names, and the registry of levels by
  logger name with the dotted-prefix lookup. It also covers `getLogger`, the
  `JopiLogger` family (`doCall`, `doBegin`, `mergeData` and the per-level
  handlers) and the log writer that receives the entries.

The stateful parts are classes whose methods update fields:

- The cache, `MemCache.JkMemCache`. Its storage is a `map` and its key order is
  a `seq`, the order in which a JavaScript `Map` iterates.
- The schema registry, `Schemas.SchemaRegistry`; `RegisterSchema` updates its
  `entries`.
- The log-level registry, `Logs.LogRegistry`; `SetLogLevel` updates its
  `levels` and their key `order`.
- The throttle, `Tools.DontCallBeforeElapsed`; `Check` updates `lastTime`.
- A logger, `Logs.Logger`, whose handlers update `timeDif` and `extraData`.
  It points to a shared `Logs.LogWriter` object.
  The writer's `entries` are the log seen so far; `AddEntry` appends to them.

The rest are functions over datatypes. Two sorts work in place
on an array, so each is a `method` over an `array`:

- the priority sort;
- the row sort and the candidate sort, which share one insertion sort that
  takes a comparator.

The clock (`Date.now()`) is always passed as a `now` parameter.

Some facts that follow from the code as written are proved here.

Cache:

- When eviction gets past the importance phase, every entry whose importance
  is between 1 and 10 is gone. The "largest three" and "insertion order" steps
  only ever see entries with an importance outside that range.
- When `maxCount` is at least 1, `set` always stores an entry whose size is at
  most `maxSize`, whatever is already in the cache (`CacheEntries.EmptyStoreAdmits`,
  `MemCache.JkMemCache.Set`).

Schemas:

- A schema field that is optional, has string type and is absent from the data
  still fails, with `INVALID_TYPE`. The optional check only skips the
  "required" error; the type validator still runs on `undefined`
  (`Schemas.OptionalStringUndefinedRejected`).
- A field's normalizer cannot repair a missing required value. The value is
  read before the normalizer runs, and it is the value that is checked
  (`Schemas.NormalizerDoesNotChangeCheckedValue`).

Logs:

- The registry lookup takes the first registered prefix in insertion order,
  not the longest one (`Logs.LogRegistry.LevelOf`).

## Model

| member | source | states |
|---|---|---|
| CacheEntries.EntrySize | src/jk_memcache/index.ts:110-132 | the size estimate is the 100-byte overhead plus the payload estimate (bytes, or 2 per character of text or JSON) plus the metadata estimate, so it is never below 100 |
| CacheEntries.TtlRoundTrip | src/jk_memcache/index.ts:141-147 | with no `expiresAt` option and a ttl, an entry created at `now` is expired at `later` exactly when `later > now + ttl` |
| CacheEntries.ExpiresAtWins | src/jk_memcache/index.ts:141-147 | a truthy `expiresAt` option takes precedence over `ttl`: the entry expires exactly after that date |
| CacheEntries.NoExpiryOptionNeverExpires | src/jk_memcache/index.ts:141-147 | without a truthy `expiresAt` or `ttl`, an entry never expires |
| CacheEntries.NewEntryDefaults | src/jk_memcache/index.ts:149-159 | a new entry starts with access count 0, has importance 1 when none is given, and carries the computed size |
| CacheEntries.AdmitKeepsLimits | src/jk_memcache/index.ts:318-323 | when `needsEviction(size)` is false, storing the entry keeps the count and the total size within the limits |
| CacheEntries.EmptyStoreAdmits | src/jk_memcache/index.ts:162-173 | an empty cache admits an entry no larger than `maxSize` exactly when `maxCount` is absent or at least 1 |
| CacheEntries.RankCompareMeansRankLe | src/jk_memcache/index.ts:438-443 | the candidate comparator puts `a` first exactly when `a` has fewer accesses, or as many and is not newer |
| CacheEntries.RankCompareTotalPreorder | src/jk_memcache/index.ts:438-443 | the candidate comparator is a total preorder, so sorting with it gives a sorted list |
| CacheEntries.RemoveKeyDistinct | src/jk_memcache/index.ts:247-254 | deleting a key from the insertion order keeps the keys distinct, drops exactly one position when present and changes nothing otherwise |
| CacheEntries.SumSizesRemove | src/jk_memcache/index.ts:247-254 | after deleting a key, the running total of sizes drops by exactly that entry's size |
| CacheEntries.PermutationKeysDistinct | src/jk_memcache/index.ts:438-443 | a reordering of a list of entries with distinct keys still has distinct keys |
| MemCache.SelectKeys | src/jk_memcache/index.ts:291-313 | filtering the key order by a prefix, suffix or substring keeps exactly the matching keys, in order |
| MemCache.SelectIsKeep | src/jk_memcache/index.ts:291-313 | the matching keys in iteration order are the key order restricted to the set of matching keys |
| MemCache.TopThreeStep | src/jk_memcache/index.ts:465-476 | one step of the largest-three scan keeps b1 ≥ b2 ≥ b3 as the three largest entries seen, every other entry seen being no larger than b3; among entries of equal size the one met first in iteration order ranks higher, because the comparisons are strict |
| MemCache.PosSnoc | src/jk_memcache/index.ts:465 | the first position of a key in the iteration order does not move as later keys are scanned |
| MemCache.PicksFacts | src/jk_memcache/index.ts:461-480 | the picks number min(3, count), are stored, in decreasing size, ties in iteration order, and every unpicked entry is no larger than the third pick and, at equal size, comes after it |
| MemCache.PicksTies | src/jk_memcache/index.ts:466-478 | a survivor of step 3 of the same size as a deleted pick comes after it in iteration order |
| MemCache.LargestEvicted | src/jk_memcache/index.ts:461-480 | the entries deleted in step 3 are in decreasing size, equal sizes in iteration order, number min(3, count) when none stops the step; no survivor is larger than any of them, and a survivor of the same size as one of them comes later in iteration order |
| MemCache.LevelRanked | src/jk_memcache/index.ts:427-455 | the candidates deleted at one level are least-used-oldest first and rank before every surviving entry of that level; a level scanned to the end leaves none of it |
| MemCache.ImportanceStep | src/jk_memcache/index.ts:427-455 | moving from one level to the next keeps the eviction order: lower levels before higher ones, and no survivor of a cleared level |
| MemCache.StepsCompose | src/jk_memcache/index.ts:416-497 | steps 2, 3 and 4 in a row are one eviction trace; each step stopped at its first successful check; steps 3 and 4 ran only after step 2 failed and deleted no level 1..10 entry; step 2's importance order survives; step 4 deleted the front of the original iteration order |
| MemCache.StepsTrace | src/jk_memcache/index.ts:416-497 | the deletions of steps 2, 3 and 4 chain into one trace from the store before step 2, and the keys step 4 deleted are the front of that store's iteration order |
| MemCache.StepTwoOnly | src/jk_memcache/index.ts:445-453 | when step 2 alone makes the entry fit, steps 3 and 4 delete nothing and the promises of steps 2 to 4 hold |
| MemCache.LastResortCompose | src/jk_memcache/index.ts:458-496 | step 4 runs after three unsuccessful deletions of step 3, deletes no entry larger than a pick, and deletes the front of the iteration order |
| MemCache.ByLevelStep | src/jk_memcache/index.ts:427-455 | finishing one more level by its own stopping rule extends the stopping rule of step 2 across levels |
| MemCache.LevelStopsAtFirstSuccess | src/jk_memcache/index.ts:445-453 | with deletions in importance order, every check step 2 made before its last deletion failed, each with the target of the level then being evicted |
| MemCache.SweepThenSteps | src/jk_memcache/index.ts:364-497 | the sweep of expired entries followed by steps 2 to 4 meets the whole promise of `evictFor` |
| MemCache.SweepSufficed | src/jk_memcache/index.ts:373-378 | when the sweep reaches the low-water mark, `evictFor` deletes nothing more and keeps its promise |
| MemCache.CleanupThenEvict | src/jk_memcache/index.ts:373-378 | after the sweep and any evictions, no survivor is expired, each removed entry was expired or evicted, and each evicted entry was live |
| MemCache.DropTrace | src/jk_memcache/index.ts:484-496 | the fallback deletes keys in insertion order; deleting them all leaves an empty cache |
| MemCache.JkMemCache.constructor | src/jk_memcache/index.ts:64-78 | a new cache is empty; `maxSize` defaults to 50 MiB and the sweep interval to 60 s; the sweep timer is on exactly when the interval is positive |
| MemCache.JkMemCache.StartAutoCleanup | src/jk_memcache/index.ts:83-89 | the periodic sweep is on |
| MemCache.JkMemCache.StopAutoCleanup | src/jk_memcache/index.ts:94-99 | the periodic sweep is off |
| MemCache.JkMemCache.Set | src/jk_memcache/index.ts:104-177 | the old value is deleted first; the key is stored afterwards exactly when the new entry is admissible, and then it is the new entry and last in iteration order; an oversize entry changes nothing else; an entry that fits is added with no eviction; otherwise `evictFor` ran on the store without the old value, with every promise of `EvictFor` |
| MemCache.JkMemCache.Admit | src/jk_memcache/index.ts:161-176 | an entry larger than `maxSize` changes nothing; one that fits without eviction is stored and nothing is evicted; otherwise `evictFor` ran with every promise of `EvictFor`, and the entry is stored exactly when it is admissible |
| MemCache.JkMemCache.MakeRoom | src/jk_memcache/index.ts:166-173 | the entry fits afterwards exactly when it is admissible; nothing is evicted when it already fits; otherwise `evictFor` ran with every promise of `EvictFor`; survivors keep their values and order |
| MemCache.JkMemCache.Store | src/jk_memcache/index.ts:175-176 | the entry is added last in iteration order and its size is added to the total |
| MemCache.JkMemCache.Get | src/jk_memcache/index.ts:182-200 | a value is returned exactly when the key is present and not expired, and its access count goes up unless peeking; an expired key is deleted |
| MemCache.JkMemCache.Lookup | src/jk_memcache/index.ts:183-191 | the start shared by `get`, `getWithMeta` and `has` (also 206-214, 233-241): an entry is found exactly when its key is stored and not expired, and is then handed out unchanged with its access count raised unless peeking; otherwise an expired key is deleted and nothing else changes |
| MemCache.JkMemCache.GetWithMeta | src/jk_memcache/index.ts:205-226 | like `Get`, returning the stored value together with its metadata |
| MemCache.JkMemCache.Has | src/jk_memcache/index.ts:232-242 | true exactly when the key is present and not expired; an expired key is deleted; access counts are not touched |
| MemCache.JkMemCache.Delete | src/jk_memcache/index.ts:247-254 | the key is gone, the total size drops by its entry's size, and the rest of the iteration order is unchanged |
| MemCache.JkMemCache.Clear | src/jk_memcache/index.ts:259-262 | the cache is empty and its total size is 0 |
| MemCache.JkMemCache.GetStats | src/jk_memcache/index.ts:267-272 | the count and the size reported are the number of entries and the sum of their sizes, both within the limits |
| MemCache.JkMemCache.Keys | src/jk_memcache/index.ts:277-286 | the keys returned are exactly the live ones, in iteration order; expired ones are deleted |
| MemCache.JkMemCache.KeysMatching | src/jk_memcache/index.ts:277-313 | the keys returned are exactly the live keys matching the pattern, in iteration order |
| MemCache.JkMemCache.KeysStartingWith | src/jk_memcache/index.ts:291-295 | exactly the live keys with the prefix |
| MemCache.JkMemCache.KeysEndingWith | src/jk_memcache/index.ts:300-304 | exactly the live keys with the suffix |
| MemCache.JkMemCache.KeysContaining | src/jk_memcache/index.ts:309-313 | exactly the live keys containing the text |
| MemCache.JkMemCache.PerformCleanup | src/jk_memcache/index.ts:328-351 | exactly the expired entries are deleted, survivors keep value and order, and the count removed is the difference in size |
| MemCache.JkMemCache.CollectCandidates | src/jk_memcache/index.ts:428-434 | the candidates are exactly the stored entries of the level, in iteration order, with distinct keys |
| MemCache.JkMemCache.SortedCandidates | src/jk_memcache/index.ts:438-443 | the sorted candidates are a permutation of the level's entries, ordered by access count and then age |
| MemCache.JkMemCache.EvictPrefix | src/jk_memcache/index.ts:447-454 | deletes the sorted candidates from the front, stopping at the first deletion that reaches the target |
| MemCache.JkMemCache.EvictTracked | src/jk_memcache/index.ts:448-450 | one `delete` of a stored candidate followed by the target check: exactly that entry leaves the map and the order, the eviction trace grows by it, and the stopping rule (every earlier check failed) carries over with the check's answer |
| MemCache.JkMemCache.EvictLevel | src/jk_memcache/index.ts:428-454 | evicts only entries of the level, least used first and before every survivor of the level, and clears the level when the target is not reached |
| MemCache.JkMemCache.EvictByImportance | src/jk_memcache/index.ts:427-455 | evicts in order of importance level, least used first within a level; no check before its last deletion reached the target of the level it was at (90% low-water mark for levels 1..5, the limit above), and it reports success exactly when the last one did; on failure levels 1..10 are empty |
| MemCache.JkMemCache.LargestThree | src/jk_memcache/index.ts:461-476 | b1, b2 and b3 are the three largest entries in decreasing size, fewer only when the cache holds fewer; every other entry is no larger than b3, and among equal sizes the one met first in iteration order is picked first |
| MemCache.JkMemCache.EvictLargest | src/jk_memcache/index.ts:460-481 | deletes up to three picked entries in order, stopping at the first deletion that makes the entry fit; they come in decreasing size, ties in iteration order, and none is smaller than a survivor |
| MemCache.JkMemCache.EvictInOrder | src/jk_memcache/index.ts:484-496 | deletes keys from the front of the insertion order, stopping at the first deletion that makes the entry fit; when it does not succeed, the cache is empty |
| MemCache.JkMemCache.EvictLastResort | src/jk_memcache/index.ts:460-496 | step 3 then step 4: step 4 runs only when all three picks were deleted without success, deletes the front of the iteration order and no entry larger than a pick; each stops at its first success; the cache then fits the incoming size or is empty |
| MemCache.JkMemCache.EvictSteps | src/jk_memcache/index.ts:416-497 | steps 2 to 4 evict in importance order, then the largest entries, then the oldest; each step stops at its first success; steps 3 and 4 run only after step 2 failed and then delete no level 1..10 entry; the cache ends fitting or empty |
| MemCache.JkMemCache.EvictFor | src/jk_memcache/index.ts:364-497 | no entry is left expired; when the sweep reaches the low-water mark nothing more is evicted; otherwise steps 2 to 4 ran with their stopping rules, in importance order, then largest first, then oldest first; the cache fits the incoming size or is empty; survivors keep their values and relative order |
| RowFilter.FilterRows | src/jk_data/core.ts:11-28 | keeps exactly the rows the filter matches: a defined field value whose text contains the search text, or any defined value when no field is named |
| RowFilter.FilterIsSubsequence | src/jk_data/core.ts:14-27 | the kept rows are the matching rows at increasing positions of the input, so their order is preserved |
| RowFilter.DescendingSwaps | src/jk_data/core.ts:47-61 | descending order compares the two rows the other way round |
| RowFilter.MissingSortsAsEmpty | src/jk_data/core.ts:41-42 | a row without the sort field compares as if the field held the empty text |
| RowFilter.NumbersSorted | src/jk_data/core.ts:44-52 | when every sort value is a number, the sorted rows are in ascending (or, when `desc`, descending) numeric order |
| RowFilter.NumbersTotal | src/jk_data/core.ts:44-52 | when every row holds a number in the sort field, the numeric comparator (ascending, or reversed by `desc`) is a total preorder on the rows, so the in-place sort orders them |
| RowFilter.TextsTotal | src/jk_data/core.ts:53-61 | with a consistent collation and no numeric sort values, the comparator is a total preorder, so the sort yields ordered rows |
| RowFilter.PageSlice | src/jk_data/core.ts:69-72 | a page holds at most `pageSize` rows, starting at the offset, and none past the end |
| RowFilter.Paginate | src/jk_data/core.ts:66-74 | the total counts the rows before paging; without paging, all rows are returned at offset 0 |
| RowFilter.SimpleRowArrayFilter | src/jk_data/core.ts:8-75 | the rows are the matching rows, reordered (a permutation) and sorted by the first sorting rule when it is consistent, then paged; the total counts them before paging; without a filter the caller's array is sorted in place |
| Sorting.SortBy | src/jk_tools/common.ts:81-85 | in-place sort with a comparator: the array is a permutation of its old content, and it is sorted when the comparator is a total preorder on it |
| Tools.PriorityOrderTotal | src/jk_tools/common.ts:81-85 | the priority comparator is a total preorder; "at most 0" means "priority not greater" |
| Tools.SortByPriority | src/jk_tools/common.ts:78-88 | `undefined` gives `undefined`; otherwise the array is permuted into ascending priority and the values are returned in that order |
| Tools.ValuesOfMatches | src/jk_tools/common.ts:87 | the returned values match the sorted entries one for one |
| Tools.DontCallBeforeElapsed.constructor | src/jk_tools/common.ts:93-97 | a new throttle has last time 0 and the given delay |
| Tools.DontCallBeforeElapsed.WithDefault | src/jk_tools/common.ts:96 | the default delay is 1000 ms |
| Tools.DontCallBeforeElapsed.Check | src/jk_tools/common.ts:99-104 | a call is let through exactly when at least `requireMs` have passed since the last accepted one, which then becomes the last time; accepted calls are `requireMs` apart |
| Tools.AcceptedIncreasing | src/jk_tools/common.ts:99-104 | with a positive delay, any two accepted calls are at least `requireMs` apart |
| Tools.ApplyDefaults | src/jk_tools/common.ts:22-25 | each key of the defaults or the source is present, with the source's value winning; a missing source counts as empty |
| Tools.ApplyDefaultsIdempotent | src/jk_tools/common.ts:22-25 | applying the same defaults twice changes nothing |
| Tools.FillTemplate | src/jk_tools/common.ts:6-10 | each `x` becomes a lower-case hex digit, each `y` one of 8, 9, a, b, and every other character stays |
| Tools.GeneratedIsUuid | src/jk_tools/common.ts:1-15 | whatever the random digits, the fallback generator yields a string `isUUIDv4` accepts |
| Tools.UuidIsGenerated | src/jk_tools/common.ts:1-15 | every lower-case string `isUUIDv4` accepts can be produced by the fallback generator |
| Schemas.StringCheck | src/jk_schemas/index.ts:481-498 | passes exactly for a string within the min and max lengths; otherwise `INVALID_TYPE` for a non-string and `INVALID_LENGTH` for a bad length, each with a non-empty message |
| Schemas.BooleanCheck | src/jk_schemas/index.ts:516-532 | passes exactly for a boolean meeting `requireTrue` (or else `requireFalse`); otherwise `INVALID_TYPE` or `INVALID_VALUE` |
| Schemas.NumberCheck | src/jk_schemas/index.ts:592-608 | passes exactly for a number within min and max; otherwise `INVALID_TYPE` or `INVALID_LENGTH` |
| Schemas.StringField | src/jk_schemas/index.ts:472-479 | the field keeps title and optional; a required field with no `minLength` gets `minLength` 1, and any other is kept |
| Schemas.RequiredStringRejectsEmpty | src/jk_schemas/index.ts:472-498 | a required string field built without `minLength` rejects the empty string with `INVALID_LENGTH` |
| Schemas.FieldStep | src/jk_schemas/index.ts:73-117 | a field error is keyed by the field, with a non-empty message and code; with no callbacks the data is unchanged and an error arises exactly when the presence or type check fails (the message and code fallbacks of a declared error are the two lemmas below) |
| Schemas.RequiredFieldMissing | src/jk_schemas/index.ts:82-92 | a missing required field fails with `VALUE_REQUIRED` and the first truthy of `errorMessage_isRequired`, `errorMessage_theValueIsInvalid` and "Field <name> is required" |
| Schemas.OptionalStringUndefinedRejected | src/jk_schemas/index.ts:82-98 | an optional string field that is absent still fails, with `INVALID_TYPE` |
| Schemas.NormalizerDoesNotChangeCheckedValue | src/jk_schemas/index.ts:75-92 | a normalizer that fills in a missing required value does not prevent the `VALUE_REQUIRED` error |
| Schemas.ValidatorErrorFallback | src/jk_schemas/index.ts:101-114 | an error a field validator declares is recorded under the field with its own message, else `errorMessage_theValueIsInvalid`, else "Field <name> is invalid", and its own code, else `FIELD_VALIDATION_FAILED`; the data is what the validator left |
| Schemas.NormalizerErrorFallback | src/jk_schemas/index.ts:77-114 | an error a field normalizer declares is recorded with the same fallbacks, and the field's other checks do not run |
| Schemas.FieldsRunClean | src/jk_schemas/index.ts:70-118 | the field loop records no error exactly when every field passes |
| Schemas.FieldsRunKeyed | src/jk_schemas/index.ts:107-113 | every recorded field error is keyed by its own field name, which is one of the schema's fields |
| Schemas.CheckFields | src/jk_schemas/index.ts:70-118 | the loop over the fields computes the field errors and data of the fold from the first field to the last |
| Schemas.ValidateSchema | src/jk_schemas/index.ts:40-146 | the errors returned and the data left are those of the specified validation: normalize, the field loop, then the whole-schema check, whose verdicts `ValidationErrorsShape` and `SchemaValidatorVerdict` state |
| Schemas.ValidationPassesIff | src/jk_schemas/index.ts:40-146 | validation returns no error exactly when the normalizer passes, every field passes on the normalized data, and the whole-schema check passes |
| Schemas.ValidationErrorsShape | src/jk_schemas/index.ts:44-145 | a failing normalizer gives a global error only; field errors are keyed by field name; a global message comes with a code; without a global error the field errors are present |
| Schemas.SchemaValidatorVerdict | src/jk_schemas/index.ts:120-145 | once the normalizer passed, a failing schema validator gives its message else "Schema validation failed" and its code else `SCHEMA_VALIDATION_FAILED`, together with the field errors gathered; a passing one gives `undefined` when no field failed, and the field errors alone otherwise |
| Schemas.SchemaRegistry.GetSchema | src/jk_schemas/index.ts:185-189 | a schema is found exactly when the id is registered |
| Schemas.SchemaRegistry.RegisterSchema | src/jk_schemas/index.ts:171-177 | a falsy id fails with "jk_schemas - Schema id required" and changes nothing; otherwise the id maps to the schema and no other id changes |
| Schemas.SchemaRegistry.RequireSchema | src/jk_schemas/index.ts:191-199 | it fails exactly when the id is not registered, with "jk_schemas - Schema <id> not found", and otherwise returns the registered schema |
| Logs.LevelByName | src/jk_logs/index.ts:392-402 | a level is found exactly for the five names NONE, SPAM, INFO, WARN and ERROR |
| Logs.LevelNameRoundTrip | src/jk_logs/index.ts:377-402 | name and level translate into each other both ways |
| Logs.EnabledTable | src/jk_logs/index.ts:305-366 | a NONE logger writes nothing, a SPAM logger writes every level, WARN writes WARN and ERROR, ERROR writes only ERROR; enabling is monotone in the level |
| Logs.ConfiguredLevel | src/jk_logs/index.ts:419-423 | the configured level name gives its level, and a missing or unknown name gives NONE |
| Logs.FirstPrefix | src/jk_logs/index.ts:430-434 | finds the first registered name, in insertion order, that is a dotted prefix of the logger's name, or none |
| Logs.LogRegistry.SetLogLevel | src/jk_logs/index.ts:418-424 | the name maps to the configured level; a new name is appended to the insertion order |
| Logs.LogRegistry.LevelOf | src/jk_logs/index.ts:426-439 | the exact entry wins, then the first dotted prefix, and otherwise WARN |
| Logs.LogRegistry.LevelFor | src/jk_logs/index.ts:426-437 | the lookup loop returns the level of `LevelOf` |
| Logs.LogWriter.AddEntry | src/jk_logs/index.ts:204-206 | the entry is appended to the writer's log |
| Logs.MergedData | src/jk_logs/index.ts:240-249 | without pending extra data, the data is passed through; otherwise the result has the keys of both, the extra data winning |
| Logs.CallsOf | src/jk_logs/index.ts:289-302 | a non-empty title is one handler call with that title; a missing call or an empty title makes none |
| Logs.OnlyFirstEntryCarriesState | src/jk_logs/index.ts:199-237 | among the entries of one call, only the first carries the pending time difference and group data; all have the level, logger and titles of the calls |
| Logs.Logger.constructor | src/jk_logs/index.ts:190-196 | the full name is the parent's full name, a dot and the name; the writer is the parent's, or the default writer |
| Logs.Logger.SetLogWriter | src/jk_logs/index.ts:251-254 | a missing writer is replaced by the default writer |
| Logs.Logger.MergeData | src/jk_logs/index.ts:240-249 | returns the merged data and clears the pending extra data |
| Logs.Logger.Handle | src/jk_logs/index.ts:199-237 | one handler call appends one entry with the pending time difference and merged data, then clears both |
| Logs.Logger.DoCall | src/jk_logs/index.ts:289-302 | returns true; appends one entry per handler call, with only the first carrying the pending state; pending state is left set when nothing was logged |
| Logs.Logger.Log | src/jk_logs/index.ts:256-270 | a level method writes exactly when the logger's level enables it, and otherwise returns false and changes nothing |
| Logs.Logger.Begin | src/jk_logs/index.ts:272-287 | `beginSpam` and `beginInfo` give a real group callback exactly when the level is enabled, recording the start time |
| Logs.Logger.EndGroup | src/jk_logs/index.ts:283-286 | a void group does nothing; a real one logs with the elapsed time and the given data |
| Logs.GetLogger | src/jk_logs/index.ts:158-176 | a fresh logger whose full name includes the parent's, whose level is the registry's level for that full name, and whose writer is inherited |
| Text.NatToStringRoundTrip | src/jk_schemas/index.ts:490 | the decimal text of a natural number reads back as that number |

## Left out

- Time: `Date.now()` is a `now` parameter. `MemCache.JkMemCache.Set` and the `evictFor` it calls share one `now`, where the source reads the clock up to three times (src/jk_memcache/index.ts:146, 154, 365): for the `ttl` expiry, for `createdAt` and for the eviction's expiry checks. The cache's `setInterval` timer is only a flag, `autoCleanup`, which `StartAutoCleanup` and `StopAutoCleanup` set; the sweep itself is `PerformCleanup`.
- The `logMemCache.info` messages of the cache are left out; they only format text.
- The cache's JSON payloads and truthy metadata are kept as their JSON text (a falsy `meta` is described on the `MemCache.JkMemCache.Set` line below). `JSON.stringify` and `JSON.parse` are not modelled, and a JSON value read back is its text.
- Floating point: numbers are integers. The cache's 90% low-water mark `x * 0.9` is written as `10 * v <= 9 * x`. Row values and schema numbers are integers.
- `localeCompare` is the `collate` parameter of `RowFilter.SimpleRowArrayFilter`. Sortedness is proved when it is a consistent total order.
- String length counts `char`s; UTF-16 surrogate pairs are not modelled.
- `Array.prototype.sort` is an insertion sort (`Sorting.SortBy`). Its stability is not stated.
- `crypto.randomUUID` is left out. `Math.random` is the sequence of random digits, one per template position, given to `Tools.FillTemplate`.
- `getCallerFilePath` and `getErrorMessage` of jk_tools are left out; they read stack traces and error objects.
- jk_schemas aliasing and mutation:
  - A field `normalize`, a field `validator` and the schema-level callbacks are functions returning the new data and an optional declared error. Changes they make to other objects are not modelled.
  - `string()` writing `minLength` into the caller's `infos` object is left out; only the returned field is modelled.
- jk_schemas exceptions: an exception that is not a `SchemaError` propagates in the source. Here callbacks can only declare a `SchemaError`.
- The `boolean()` and `number()` builders, `getSchemaMeta` and the other field types are left out. `getSchemaMeta` repeats `getSchema`; the rest are plain builders.
- The `fieldFilters` member of `JRowArrayFilter` (src/jk_data/interfaces.ts:44) is left out: `simpleRowArrayFilter` never reads it (src/jk_data/core.ts:8-75), so `RowFilter.RowArrayFilter` has no such field.
- `Logs.LogRegistry.LevelOf` and `Logs.LogRegistry.LevelFor` treat every logger name as an ordinary key. In the source the registry is a plain object (src/jk_logs/index.ts:440), so a name inherited from `Object.prototype`, such as `toString` or `constructor`, finds a function in the exact lookup (src/jk_logs/index.ts:427-428). `getLogger` then matches no level and builds a silent logger, where the model gives `WARN`.
- `Schemas.FieldStep`, `RowFilter.FilterRows` and `RowFilter.SimpleRowArrayFilter` read a field of a data object or a row only when it is an own key, absent ones being `undefined`. The source reads `data[fieldName]` (src/jk_schemas/index.ts:75), `r[f.field]` (src/jk_data/core.ts:16) and `a[sortField]` (src/jk_data/core.ts:38-39) on plain objects, which also find names inherited from `Object.prototype`, such as `constructor` or `toString`. For such a name the source sees a function: an absent required `toString` field fails with `INVALID_TYPE` rather than `VALUE_REQUIRED`, a row `{}` is kept by a search in field `constructor` for `native`, and the sort compares the function's text. The model treats those names as absent.
- `Schemas.TypeCheck` treats every unknown field type as having no type validator. In the source the validator table is a plain object (src/jk_schemas/index.ts:148), so a type named after an `Object.prototype` member, such as `valueOf`, `hasOwnProperty` or `__proto__`, finds a value there (src/jk_schemas/index.ts:94-98): calling it throws a `TypeError`, where the model reports no type error. (`toString` and `constructor` return without error, as in the model.)
- Key order: the schema registry, a schema's fields and the log-level registry iterate JavaScript object keys in insertion order. JavaScript lists integer-like keys first; that is not modelled.
- `Logs.Logger.Log`: the subclasses `Logger_None` … `Logger_Error` are modelled as one `Logger` class with a constant `level`. A level method writes exactly when `Enabled(level, at)` holds.
- Log entries: a log call that passes a callback is the sequence of handler calls the callback makes. All entries of one public call share one `now`.
- `Logs.Logger.EndGroup`: the group callback `doBegin` returns is a value applied through `EndGroup`, not a closure.
- `mergeData` copies the extra data into the caller's own data object. Here it builds a new map; the caller's object is not changed.
- The log formatters, `ConsoleLogWriter`, `init` and the `writer` and `formater` configuration keys are left out; they only format output.
- The dates module and the number formatting helpers are left out.
- `MemCache.JkMemCache.Set`, `MemCache.JkMemCache.Get` and `MemCache.JkMemCache.GetWithMeta`: a buffer value is stored as a copy of its bytes taken at `set` (`CacheEntries.Payload.Buffer`). The source keeps the caller's `ArrayBuffer` or `Uint8Array` object itself (src/jk_memcache/index.ts:114, 118) and hands that same object back (src/jk_memcache/index.ts:194, 218), so a change the caller makes to it later is seen by every read while `entry.size` keeps the `byteLength` measured at `set`; that aliasing, and whether the value was an `ArrayBuffer` or a `Uint8Array`, are not captured. A falsy `meta` (`0`, `""`, `false`, `null`) is modelled as `NoMeta`: its size cost of 0 matches the source (src/jk_memcache/index.ts:111), but the source still stores it and `getWithMeta` returns it as given (src/jk_memcache/index.ts:158, 225), where `GetWithMeta` reports no metadata.
- `MemCache.JkMemCache.Keys`, `MemCache.JkMemCache.KeysMatching`, `MemCache.JkMemCache.KeysStartingWith`, `MemCache.JkMemCache.KeysEndingWith` and `MemCache.JkMemCache.KeysContaining` model the generators of src/jk_memcache/index.ts:277-313 as run to the end in one call, with no other cache call in between; the result is the sequence of live keys and every expired entry is deleted. The source walks a live `Map` iterator and deletes an expired entry only when the consumer pulls up to it. Two effects are not captured: a consumer that stops early leaves the later expired entries in place, and a key that is `set` while the consumer is between two pulls moves to the end of the map and is visited again.
- `MemCache.JkMemCache.EvictLargest`: the three deletions of step 3 are a loop over the picked entries; the behaviour is the same.
- `MemCache.JkMemCache.EvictInOrder`: step 4 runs over the keys left at its start, in insertion order. The live `Map` iterator of the source visits the same keys, since nothing is added during the loop.
- `MemCache.JkMemCache.EvictFor`: of step 3 it states that no survivor is larger than a deleted pick. The decreasing order of the picks and the tie rule (the first met is deleted first) are stated by `MemCache.JkMemCache.EvictLargest` and are not repeated up the chain of calls.
