# Token gateway: verified models

Dafny models of the parts of the gateway that hold real algorithms or state machines, with
proofs about every input, every run or every interleaving. `dafny verify dfyconfig.toml`
checks the project.

## What is modelled

- **Body accounting** (`BodyAccounting`, `BodyBounds`, `BodyLengths`): any number of requests create
  and close memory or disk bodies at once. Each atomic load, add, compare-and-swap, store, lock
  and unlock is one step of a transition system. Admission to disk is the unlocked
  check-then-act of the source.
- **Body lifecycle** (`BodyLifecycle`, `RequestBody`, `BodyChoice`): get, replace, read and cleanup on one
  request, as a state machine on values and as classes that refine it.
- **Multi-key channels** (`KeyText`, `MultiKey`, `KeyManager`, `KeyPages`, `KeyPolling`,
  `KeyAppend`, `AppendIndices`): one text column of keys and three sparse maps by key index, with
  all management actions, status reports, key appending, the paged listing and polling. JSON
  decoding of the array form is an arbitrary function.
- **Rate limiter** (`RateLimiter`): bounded queue per key and background sweep, against a full
  log with a sliding-window count.
- **Ogg scanner** (`OggScan`): the byte-level scan for Opus durations, against an encoder for
  pages of section 6 of RFC 3533.
- **Upstream model sync** (`ModelNames`, `UpstreamSync`, `UpstreamRuns`, `Batches`, `SyncAll`,
  `SyncTask`, `Redirects`): ordered-set algebra of model names, the detect/apply/auto-sync state
  machine of a channel, the keyset cursor loop and the three passes over all channels. Regular
  expression matching is an arbitrary predicate.
- **Price differences and price selection** (`Differences`, `ModelsDev`, `PriceOrder`): the
  table that is filled, marked and pruned, and the fold with a non-transitive comparison. Floats
  are reals.
- **Price export and import** (`PriceTransfer`, `PriceExport`, `PriceRejection`) and
  **model mapping** (`ModelMapping`).
- `Text` has the string operations behind stored lists, `Wrappers` option and result types.
- `KeyLaws`, `KeyListLaws`, `TextLaws`, `OggLaws`, `UpstreamRules`, `SyncLaws`, `DifferenceLaws`,
  `CandidateLaws`, `PriceReach` and `ImportReport` tell what the operations do on the plain data,
  without the functions the operations are built from.

## Where the code does not do what one would expect

- `delete_disabled_keys` on a channel whose keys are all automatically disabled hands an empty
  key text to the update, which keeps the stored text: no key is deleted and all are enabled
  again (`MultiKey.PurgeIsFilterExactly`, `MultiKey.PurgingEverythingEnables`). That a struct
  update leaves out empty fields is the documented behaviour of the database layer.
- An enabling status report removes the status of a key but not its time and reason, which
  come back with the next manual disabling (`MultiKey.TidyExactly`,
  `MultiKey.StaleReasonReturns`).
- Appending keys moves or drops existing keys when the column holds only newlines, when it is
  blank and an appended key is a JSON array, when it is an array with a key that spans lines or
  with a lone key that is an array, and when it starts with `[` but is not an array
  (`AppendIndices.JsonIndicesKeptExactly` and one input for each).
- A status report for a key that is not listed marks the first key
  (`MultiKey.ReportHitsItsKeyExactly`).
- The disk cache check goes by the Content-Length, which for compressed requests is not the
  length stored: even one body at a time can exceed the maximum, with the default sizes by
  118 MB (`BodyLengths.MaximumHoldsExactly`, `BodyLengths.DefaultsExceed`).
- On relay routes a body that was cleaned up and is asked for again reads as empty
  (`BodyLifecycle.GetGivesLatestExactly`).
- An automatically disabled channel is not enabled by a report that enables one of its keys
  (`MultiKey.DisabledForGood`).
- The passes over all channels do not load the model mapping: they find redirect targets as new
  and remove redirect sources, which the source says must not happen
  (`Redirects.PassAgreesExactly`, `Redirects.AliasVanishes`).
- A price that cannot be read is stored before it is rejected. The import fails again every time,
  and so does every import that writes the same option without replacing it
  (`PriceRejection.RetryFails`, `PriceRejection.LaterImportExactly`).
- Where exported channels share a name at the target and disagree, the result of an import depends
  on the random order of the export (`PriceExport.OrderIsIrrelevantExactly`).
- When the abilities of a channel cannot be rebuilt after automatic application, its new models
  are stored and the periodic check does not count them (`SyncTask.TaskCountsBalance`).
- The rule that rate limit durations must not exceed the expiration is off by one second: the
  exact condition is expiration plus one (`RateLimiter.SlidingWindowExactly`).
- An upstream model name with a comma is detected again after every application
  (`UpstreamSync.ApplyAllSettles`), and adding it can make a name local that is still pending
  (`UpstreamRuns.ChooseKeepsExactly`, `UpstreamRuns.PendingAndLocal`).
- The price kept from the models.dev feed can exceed the cheapest by more than the epsilon,
  exactly when some official id comes behind two greater ones (`PriceOrder.OrderMatters`,
  `PriceOrder.FeedWithinEpsilonExactly`).

## Model

| member | source | states |
|---|---|---|
| `BodyAccounting.AccountingIsExact` | common/body_storage.go:37-196 | in every state of every interleaving of atomic steps (any number of creations and repeated closes) each of the four counters equals the count or bytes of storages counted in and not yet counted out, and no close stands at a clamping store |
| `BodyAccounting.StepKeepsInv` | common/disk_cache_config.go:109-134 | each atomic add, compare-and-swap, lock and unlock keeps exact counters, exclusive mutex ownership and the progress of every open close call |
| `BodyAccounting.NeverClamps` | common/disk_cache_config.go:115-122 | a subtraction in a close never finds the counter negative, so the clamp-to-zero branch is not taken |
| `BodyAccounting.QuiescentCountersAreOpenStorages` | common/body_storage.go:65-72 | when no creation or close is under way the counters are exactly the number and bytes of the storages that are open, however often each was closed |
| `BodyAccounting.DiskUsageIsBounded` | common/disk_cache_config.go:170-177 | with at most k creations between the unlocked usage check and the usage increment, each declaring at most S and writing no more, usage plus in-flight bytes never exceeds the maximum plus (k-1)*S, in any reachable state |
| `BodyAccounting.SoleCreatorRespectsCap` | common/body_storage.go:241-303 | one creation at a time never takes the disk usage above the configured maximum |
| `BodyBounds.BoundIsAttained` | common/body_storage.go:241-303 | the bound is tight: for every k, every S up to the maximum and every threshold up to S there is a legal run within the same limits that ends exactly (k-1)*S above the maximum |
| `BodyLengths.MaximumHoldsExactly` | middleware/gzip.go:42-67 | a decompressed body keeps its compressed Content-Length: every run with at most k bodies in flight and requests up to M bytes keeps the maximum, if and only if the maximum is not negative and the cache is disabled, the maximum is below the shortest length that can be streamed to disk, or k*M is at most that length |
| `BodyLengths.CeilingIsReached` | common/body_storage.go:132-167 | a run within the request limit ends exactly at the maximum minus that length plus k*M |
| `BodyLengths.DefaultsExceed` | common/disk_cache_config.go:21-26 | with the cache enabled and the default sizes one body at a time leads to 118 MB above the maximum |
| `BodyLengths.UsageIsBoundedByLength` | common/body_storage.go:132-167 | whatever bodies declare, with at most k in flight and none longer than M, usage plus what bodies in flight can still add never exceeds that value; and usage plus M for each in flight never exceeds the maximum plus k*M |
| `BodyLifecycle.RunKeepsSound` | common/gin.go:36-134 | over every run of get, replace, read and cleanup: an open storage and a cached body hold the current body (the last replaced or original one, or none once a lost body was got), and the counters are those at arrival plus the open storage |
| `BodyLifecycle.GetGivesLatestExactly` | common/gin.go:36-83 | a get that succeeds at any point of any run yields the last replaced body or the original one, from its start, if and only if that is empty or no lost body was got since: one whose wrapped reader was read to its end, that was cleaned up and is cached nowhere |
| `BodyLifecycle.GetGivesLatest` | common/gin.go:36-83 | so it is without cleanups, for cached bodies and on routes that do not wrap the body |
| `BodyLifecycle.CleanedUpReadsEmpty` | middleware/gzip.go:36-38 | on what it fails: whatever the request of a relay route contains, got, cleaned up and got again from memory it is empty |
| `BodyLifecycle.ReplacedStaysAvailable` | common/gin.go:103-124 | once a body was replaced every later get succeeds, cleanups or not |
| `BodyLifecycle.StaysAvailable` | common/gin.go:36-124 | a body that was got or replaced stays readable through every run without a cleanup |
| `BodyLifecycle.NoNetUse` | common/gin.go:127-134 | cleanup at the end of any run leaves all four usage counters as they were when the request arrived |
| `BodyLifecycle.DiskIsInvisible` | common/body_storage.go:241-303 | two runs of the same operations under different disk settings and disk failures stay indistinguishable to readers, unless a body is lost while it is streamed to disk |
| `BodyChoice.ReplacedOnDiskExactly` | common/body_storage.go:241-259 | a body put in place goes to disk if and only if the cache is on, it is not below the threshold, the disk works and it fits below the maximum beside what is used without the old body |
| `BodyChoice.CachedOnDiskExactly` | common/body_storage.go:241-259 | the same for a body got from the cached bytes |
| `BodyChoice.MaximumIsKept` | common/disk_cache_config.go:170-177 | over every run a storage made on disk from bytes in hand leaves the usage within the maximum |
| `BodyChoice.StreamedExactly` | common/body_storage.go:262-303 | a body read from the request is streamed to disk if and only if its declared length is positive and passes the same test, and is chosen by its own length otherwise |
| `BodyChoice.AccountingAgrees` | common/body_storage.go:241-259 | with the same counters the lifecycle of one request and the accounting of all requests admit the same bytes to disk |
| `BodyChoice.StreamingAgrees` | common/body_storage.go:262-303 | and stream the same declared lengths |
| `BodyChoice.ChargingAgrees` | common/disk_cache_config.go:109-134 | and charge the counters alike |
| `RequestBody.BodyStorage.Close` | common/body_storage.go:187-196 | closing releases the storage's share of the counters once; closing again changes nothing |
| `RequestBody.BodyStorage.Read` | common/body_storage.go:169-176 | reads the next bytes and advances the position, or fails when closed |
| `RequestBody.BodyStorage.All` | common/body_storage.go:198-230 | returns the whole body and leaves the reading position where it was, on disk and in memory |
| `RequestBody.CreateBodyStorage` | common/body_storage.go:241-259 | picks disk only when enabled, large enough and within the maximum, falls back to memory when the disk fails, and charges the counters for what it made |
| `RequestBody.CreateFromReader` | common/body_storage.go:262-303 | the stored body or the error agree with the value-level description although only one byte more than the limit is ever read; errors leave the counters alone |
| `RequestBody.RequestContext.GetRequestBody` | common/gin.go:36-83 | does on the objects what the value-level get does, and of all storages ever made for the request only the one in the context is open |
| `RequestBody.RequestContext.ReplaceRequestBody` | common/gin.go:103-124 | closes the old storage, installs a new one and the cached bytes; again exactly one storage is open |
| `RequestBody.RequestContext.CleanupBodyStorage` | common/gin.go:127-134 | closes the open storage; afterwards none made for the request is open |
| `RequestBody.RequestContext.PerformAll` | common/gin.go:36-134 | every run on the objects is the run on values, with at most one open storage throughout |
| `KeyText.KeysRoundTrip` | model/channel.go:96-118 | plain keys stored one per line are read back unchanged and in order, whatever the JSON decoder does |
| `TextLaws.KeysLaw` | model/channel.go:96-118 | a column that starts with a bracket and decodes holds the elements, any other its lines without newlines at the ends, an empty one nothing |
| `TextLaws.CountedLaw` | model/channel.go:950-975 | an update counts those keys, and the lines of an array without elements |
| `TextLaws.AppendLaw` | controller/channel.go:1626-1699 | the text handed to the update, on column and input |
| `TextLaws.TrimLaw` | model/channel.go:96-118 | trimming leaves the part between the first and the last character outside the cut set |
| `TextLaws.SplitLaw` | model/channel.go:96-118 | the parts of a split have no separator and join to the text |
| `TextLaws.JoinLaw` | controller/channel.go:2346-2354 | joining puts one separator between two parts |
| `TextLaws.StoredLaw` | model/channel.go:950-975 | an update without a key text keeps the stored one |
| `MultiKey.Renumber` | controller/channel.go:2313-2344 | the rebuild loop of delete_key: the remaining keys with renumbered maps are the records without the deleted one, and every index is in range |
| `MultiKey.Purge` | controller/channel.go:2375-2412 | the rebuild loop of delete_disabled_keys: the remaining keys with renumbered maps are the filtered records, with the exact number deleted |
| `MultiKey.MarkAll` | controller/channel.go:2259-2271 | disable_all_keys marks exactly the enabled keys and counts them; other entries stay |
| `MultiKey.FindKey` | model/channel.go:1098-1104 | finds the first record with the reported key, and index 0 when there is none |
| `MultiKey.MarksAreDetermined` | model/channel.go:75-83 | the sparse maps are determined by the records: different maps always show as different records |
| `MultiKey.EntriesAreDisabled` | controller/channel.go:2225-2228 | the size of the status map is the number of keys that are not enabled, which makes the reported counts right |
| `KeyManager.MultiKeyChannel.Update` | model/channel.go:950-998 | stores text and marks, recounts the keys, drops status entries beyond the count, and keeps the stored key text when the new one is empty |
| `KeyManager.MultiKeyChannel.DisableKey` | controller/channel.go:2138-2179 | refines setting one record's status, with the missing-index and out-of-range errors |
| `KeyManager.MultiKeyChannel.EnableKey` | controller/channel.go:2181-2221 | refines resetting one record to enabled without time and reason, with both errors |
| `KeyManager.MultiKeyChannel.EnableAll` | controller/channel.go:2223-2245 | refines resetting every record, and returns the number that were not enabled |
| `KeyManager.MultiKeyChannel.DisableAll` | controller/channel.go:2247-2292 | refines disabling the enabled records, or fails unchanged when there are none |
| `KeyManager.MultiKeyChannel.DeleteKey` | controller/channel.go:2294-2372 | refines removal of one record through text, split, renumbering and join, or fails unchanged for a bad index or the last key |
| `KeyManager.MultiKeyChannel.DeleteDisabled` | controller/channel.go:2374-2441 | refines the purge of automatically disabled records, including the case in which all are and the key text stays |
| `KeyManager.MultiKeyChannel.Report` | model/channel.go:1093-1129 | refines marking one record from a status report, and disables the channel when no key is left enabled |
| `KeyManager.MultiKeyChannel.Append` | controller/channel.go:1626-1699 | the stored text is the appended one; for plain keys it refines adding enabled records behind the old ones, which keep index, status, time and reason |
| `KeyManager.MultiKeyChannel.PerformAll` | controller/channel.go:2023-2441 | over every run of actions the text and the three sparse maps refine the plain list of records, with all indices in range after every action |
| `MultiKey.TidyExactly` | controller/channel.go:2138-2441 | an action keeps time and reason entries on non-enabled keys only, if and only if it is not an enabling report for a key that still carries them |
| `MultiKey.TidyOverRuns` | controller/channel.go:2138-2441 | over every run of management actions time and reason entries stay on non-enabled keys only |
| `MultiKey.StaleReasonReturns` | model/channel.go:1108-1120 | the enabling report leaves time and reason behind, and the next manual disabling shows them as its own |
| `MultiKey.PurgeIsFilterExactly` | controller/channel.go:2374-2441 | delete_disabled_keys is the filter on the records if and only if there is no key, or some key is not automatically disabled and either one is or no enabled key carries an old time or reason |
| `MultiKey.PurgingEverythingEnables` | controller/channel.go:2422-2433 | for every channel whose keys are all automatically disabled, deleting them keeps them all, enables them and reports them as deleted |
| `MultiKey.KeptInOrder` | controller/channel.go:2383-2412 | keys that survive the purge keep their relative order and their own marks |
| `MultiKey.KeysRemain` | controller/channel.go:2346-2352 | no run of actions takes the last key away |
| `KeyLaws.DisableAllLaw` | controller/channel.go:2247-2292 | disable_all_keys turns every status 1 into 2 and changes nothing else; the reported count is the growth of the keys with status 2, those with status 3 stay as many |
| `KeyLaws.DisableKeyLaw` | controller/channel.go:2138-2179 | disable_key sets one status to 2 and changes nothing else, or refuses and changes nothing |
| `KeyLaws.EnableKeyLaw` | controller/channel.go:2181-2221 | enable_key sets one status to 1, drops time and reason and changes nothing else, or refuses |
| `KeyLaws.EnableAllLaw` | controller/channel.go:2223-2245 | enable_all_keys does so for every key and reports how many did not have status 1 |
| `KeyLaws.EnableUndoesDisable` | controller/channel.go:2138-2221 | enabling a key that was just disabled restores the channel |
| `KeyLaws.DeleteKeyLaw` | controller/channel.go:2294-2372 | delete_key moves later records down by one place, and refuses a bad index and the last key |
| `KeyLaws.DeleteDisabledLaw` | controller/channel.go:2374-2441 | delete_disabled_keys keeps exactly the records without status 3, in order, with its three cases |
| `KeyLaws.DisabledByHandSurvive` | controller/channel.go:2247-2441 | keys disabled by disable_all_keys survive delete_disabled_keys |
| `KeyLaws.ReportLaw` | model/channel.go:1093-1129 | a status report changes the first record with its key, or the first of all, as the source does, and the channel status follows |
| `KeyLaws.AppendLaw` | controller/channel.go:1626-1699 | appending puts one enabled record behind the others for each added key |
| `MultiKey.LastReportDisables` | model/channel.go:1121-1127 | a report sets the channel to automatically disabled exactly when it leaves no key enabled |
| `MultiKey.ReportHitsItsKeyExactly` | model/channel.go:1098-1120 | a report changes only records with the reported key if and only if the key is listed or the report changes nothing; otherwise the first record changes |
| `MultiKey.UnnamedReportDisablesFirst` | relay/mjproxy_handler.go:588-590 | for every channel the report with an empty key and status 2 disables the first key |
| `MultiKey.DisabledForGood` | model/channel.go:1093-1129 | over every run of actions and reports an automatically disabled channel with keys stays so |
| `MultiKey.EnabledKeyInDisabledChannel` | model/channel.go:1108-1110 | a report that enables one of its keys enables the key and leaves the channel disabled for every later run |
| `KeyPages.GetKeyStatus` | controller/channel.go:2024-2136 | total, page count, clamped page number, page contents with previews and the three status counts are those of the records |
| `KeyPages.PagesPartition` | controller/channel.go:2098-2120 | the pages one after the other are the filtered list: nothing repeated, nothing left out |
| `KeyPages.PagesAreDetermined` | controller/channel.go:2098-2107 | only one number of pages holds everything without an empty page |
| `KeyPages.FilterMatchesCount` | controller/channel.go:2087-2096 | filtering by a status lists as many keys as the statistics count for it |
| `KeyPages.CountsAddUp` | controller/channel.go:2056-2063 | the three counts add up to all keys when every status is one of the three |
| `KeyListLaws.ListingLaw` | controller/channel.go:2044-2085 | every key has its line in order: place, status, time and reason unless enabled, and the key cut behind ten characters |
| `KeyListLaws.FilterLaw` | controller/channel.go:2087-2096 | the filtered lines are exactly those with the status, in order |
| `KeyListLaws.SliceLaw` | controller/channel.go:2109-2120 | page p holds the lines from (p-1)*size up to p*size |
| `KeyListLaws.DefaultPage` | controller/channel.go:2026-2036 | without page number and size it is the first page of fifty lines |
| `KeyPolling.ChooseKey` | model/channel.go:120-205 | an enabled key is chosen in every mode and none exactly when no key is enabled; at random it is one of the enabled list, in turn the next one, otherwise the first; only polling moves the stored index |
| `KeyPolling.NextKey` | model/channel.go:174-199 | polling answers the first enabled key at or after the stored index round the end, and stores the index behind it |
| `KeyPolling.PollingIsFair` | model/channel.go:186-199 | from any stored index, as many calls as there are enabled keys use each enabled key exactly once |
| `KeyListLaws.PickLaw` | model/channel.go:174-199 | polling takes the first key with status 1 from the stored place on, round the end; a stored place that is no place counts as the first |
| `KeyListLaws.RunFromTheFront` | controller/channel.go:2023-2441 | a run of actions is its first action and then the rest |
| `KeyAppend.InputKeys` | controller/channel.go:1668-1674 | the input lines trimmed, blank ones dropped, in order |
| `KeyAppend.AppendKeys` | controller/channel.go:1677-1699 | the loops with the seen set produce the existing keys followed by the new ones |
| `KeyAppend.AppendToText` | controller/channel.go:1626-1699 | the text handed to the update, including the empty column that takes the input as it is |
| `KeyAppend.AddedFacts` | controller/channel.go:1677-1697 | added keys are trimmed, not blank, pairwise different, and exactly the offered keys that were not listed |
| `KeyAppend.CoversInput` | controller/channel.go:1677-1699 | every non-blank input key is in the list afterwards |
| `KeyAppend.AppendTwice` | controller/channel.go:1677-1699 | appending the same input again adds nothing |
| `AppendIndices.IndicesKeptExactly` | controller/channel.go:1626-1699 | for any decoder: read back by the channel, existing keys keep their index if and only if the new column is empty, or spells an array that starts with them, or replaces a broken array by keys that start with them, or has no key with a newline and no empty end |
| `AppendIndices.JsonIndicesKeptExactly` | controller/channel.go:1626-1699 | for a decoder of JSON the condition is one on column and input: lines lose keys exactly when the column is only newlines or only blanks before an appended array, an array exactly when a key spans lines or a lone key is an array again, a broken array exactly when the added keys (the elements, if they spell an array) do not start with the old ones |
| `AppendIndices.NewlineColumnLosesKey` | controller/channel.go:1645-1699 | a column of newlines loses its empty key to any appended key |
| `AppendIndices.OneNewline` | controller/channel.go:1645-1699 | the input for it: a column of one newline and the key k |
| `AppendIndices.BlankLineLosesKey` | model/channel.go:103-113 | a blank column loses its key to any appended key that is an array |
| `AppendIndices.OneSpace` | model/channel.go:103-113 | the input for it: a column of one space and the key [1] |
| `AppendIndices.BrokenColumnIsReplaced` | controller/channel.go:1634-1644 | a column that starts like an array and is none is replaced by the appended keys alone |
| `AppendIndices.BrokenColumnLosesKeys` | controller/channel.go:1634-1644 | the input for it: the column [a and the key b |
| `AppendIndices.LongKeyIsSplit` | controller/channel.go:1699 | a key of an array that spans lines becomes several keys even when nothing is appended |
| `AppendIndices.LoneArrayIsOpened` | controller/channel.go:1699 | a lone key that is an array is replaced by its elements even when nothing is appended |
| `KeyAppend.AppendKeepsKeys` | controller/channel.go:1626-1699 | for plain keys, in line or array form, the column read back is the old keys at their indices and then the added ones |
| `RateLimiter.InMemoryRateLimiter.Request` | common/rate-limit.go:45-70 | the queue update and verdict of one request |
| `RateLimiter.InMemoryRateLimiter.ClearExpiredItems` | common/rate-limit.go:28-42 | one sweep keeps exactly the queues used within the expiration |
| `RateLimiter.VerdictIsSlidingWindow` | common/rate-limit.go:45-70 | with a nondecreasing clock, a request is accepted exactly when fewer than the limit of earlier accepted requests of its key lie within the last duration seconds, with sweeps anywhere in between |
| `RateLimiter.RateIsBounded` | common/rate-limit.go:45-70 | any limit + 1 accepted requests in a row span at least the duration, so no window ever holds more than the limit |
| `RateLimiter.SweepsAreInvisible` | common/rate-limit.go:28-42 | removing every sweep from a run changes no verdict and no log |
| `RateLimiter.WithoutSweepsLaw` | common/rate-limit.go:28-42 | what is compared with there: all requests of the run, in order, and nothing else |
| `RateLimiter.LogLaw` | common/rate-limit.go:45-70 | the log of a key is the times of its accepted requests, all of them and in order |
| `RateLimiter.SlidingWindowExactly` | common/constants.go:191-192 | the limiter is a sliding window on every run if and only if no duration exceeds the expiration plus one second |
| `RateLimiter.LateSweepBreaksWindow` | common/rate-limit.go:28-42 | with a longer duration a burst, a sweep and one more request are accepted although the window is full |
| `OggScan.ReadPage` | common/audio.go:207-249 | one turn of the loop moves the position forward, and scanning on from there gives the same result |
| `OggScan.OpusDuration` | common/audio.go:196-254 | ends on every byte string and returns the largest of 0 and the granule positions at the recognised headers, over 48000 |
| `OggScan.NoHeaderMissed` | common/audio.go:207-249 | on every byte string a capture pattern with room for a header is passed over only inside a page that was recognised |
| `OggScan.ScanIsMaxGranule` | common/audio.go:207-252 | the running maximum is the maximum over the recognised headers |
| `OggScan.GranuleRoundTrip` | common/audio.go:228-232 | the eight little-endian bytes of any signed 64-bit granule position decode to it |
| `OggScan.StopsAtPages` | common/audio.go:207-249 | at a page boundary the scan stops at exactly the remaining page boundaries, whatever the payloads contain and wherever the file is cut |
| `OggScan.SkipsPrefix` | common/audio.go:219-226 | bytes before the first capture pattern do not change what is found |
| `OggScan.ScanFindsExactlyThePages` | common/audio.go:196-254 | any prefix without a capture pattern followed by any initial part of a concatenation of pages in the format of section 6 of RFC 3533: the scan stops at exactly the complete headers and yields the largest granule position, or 0 |
| `OggScan.CompleteStream` | common/audio.go:196-254 | for an uncut stream that is 0 or a granule position of some page, and not below that of any page |
| `OggLaws.PageLayout` | common/audio.go:207-249 | a page byte by byte: OggS, version, type, granule position, twelve bytes, segment count, segment table, payload as long as the table says (section 6 of RFC 3533) |
| `OggLaws.UnsignedLaw` | common/audio.go:228-232 | eight bytes make a number, least significant first |
| `OggLaws.GranuleLaw` | common/audio.go:228-232 | the granule position is that number from bytes 6 to 13, in two's complement |
| `OggLaws.MagicLaw` | common/audio.go:213-226 | a header is recognised by exactly four bytes |
| `OggLaws.SumLaw` | common/audio.go:240-246 | lacing values are added up |
| `OggLaws.PageEndLaw` | common/audio.go:235-249 | the page behind a header ends behind the payload its segment table announces |
| `ModelNames.MergeModelNames` | controller/channel_upstream_update.go:86-100 | the loop with the seen set yields the normalised base followed by the normalised names that are new |
| `ModelNames.NormalizeIsNormal` | controller/channel_upstream_update.go:79-84 | normalised lists are trimmed, without blanks and without repeats |
| `ModelNames.NormalizeMembers` | controller/channel_upstream_update.go:79-84 | a name survives exactly when some listed text trims to it and it is not blank |
| `ModelNames.NormalizeGrowsAtTheEnd` | controller/channel_upstream_update.go:79-84 | names keep the place of their first occurrence |
| `ModelNames.SubtractFacts` | controller/channel_upstream_update.go:102-111 | difference of ordered sets, both directions |
| `ModelNames.IntersectFacts` | controller/channel_upstream_update.go:113-122 | intersection of ordered sets, both directions |
| `ModelNames.AddWins` | controller/channel_upstream_update.go:124-129 | the new list is the added names and the old ones not removed; a name both added and removed is present |
| `UpstreamSync.DetectFacts` | controller/channel_upstream_update.go:158-217 | detection finds exactly the upstream names that are neither local nor redirect targets nor ignored, and exactly the local names gone upstream that are not redirect sources, in order and without repeats |
| `UpstreamRules.FoundExactly` | controller/channel_upstream_update.go:158-217 | a name is found to be added if and only if the upstream lists it, it is not local, no redirect leads to it, no rule is the name and no rule with the prefix regex: matches it; likewise for removals |
| `UpstreamRules.FoundInOrder` | controller/channel_upstream_update.go:190-216 | both lists keep the order of the list they come from |
| `UpstreamRules.IgnoredForGood` | controller/channel_upstream_update.go:158-217 | a pending name that is ignored and not added is never found, pending or added again, over every later run and for any upstream |
| `UpstreamRules.RuleKeepsOut` | controller/channel_upstream_update.go:188-200 | for example the rule m keeps the upstream's m out of a channel without models |
| `UpstreamRules.CheckLaw` | controller/channel_upstream_update.go:360-407 | what every check stores and reports: not due, refused, unreadable, applied automatically, or plain |
| `UpstreamRules.SelectionLaw` | controller/channel_upstream_update.go:780-828 | name by name what a selection adds, removes, ignores and leaves pending, and which names the channel lists afterwards |
| `UpstreamRules.SelectionFaultLaw` | controller/channel_upstream_update.go:780-828 | the same with refused writes and failing abilities |
| `UpstreamSync.UpstreamChannel.Check` | controller/channel_upstream_update.go:360-407 | the interval test, the failed fetch, automatic application and plain detection, each with the whole stored state, also when the write is refused or the abilities fail |
| `UpstreamSync.UpstreamChannel.Apply` | controller/channel_upstream_update.go:780-828 | the whole stored state and all results of applying a selection, also when the write is refused or the abilities fail |
| `UpstreamSync.ApplySplitsPending` | controller/channel_upstream_update.go:780-828 | every pending addition is added, or ignored without being added, or still pending, and only one of these, with order kept |
| `UpstreamSync.AddingWins` | controller/channel_upstream_update.go:780-828 | an added name is in the stored model list exactly when it has no comma, is not removed and is no ignore rule even if the selection also ignores or removes it; other ignored names become rules |
| `UpstreamRuns.RunsStayConsistentExactly` | controller/channel_upstream_update.go:360-407 | over every run of checks, failed checks, automatic and partial applications, with any upstream names and with refused and half-done writes: pending additions are without repeats and not local and pending removals are local at every point, if and only if no selection leaves a name pending that is a part, between commas, of a name it adds |
| `UpstreamRuns.ChooseKeepsExactly` | controller/channel_upstream_update.go:780-828 | the same for one selection: the condition can be read off the selection before it is applied |
| `UpstreamRuns.RunsStayConsistent` | controller/channel_upstream_update.go:360-407 | as long as no upstream lists a name with a comma, every run stays consistent |
| `UpstreamRuns.PendingAndLocal` | controller/channel_upstream_update.go:780-828 | the input on which it fails: a,b and a are pending and only the first is chosen |
| `UpstreamSync.AutoSyncSettles` | controller/channel_upstream_update.go:382-395 | after automatic application the reported count is the number of pending additions; detecting again finds nothing to add and the same removals if and only if no addition contains a comma |
| `UpstreamSync.ApplyAllSettles` | controller/channel_upstream_update.go:158-217 | detect, apply all that is pending, detect again finds nothing, if and only if no name added contains a comma or takes an ignore rule away that is still needed |
| `UpstreamSync.RuleSpelledLikeModel` | controller/channel_upstream_update.go:780-828 | the input for the second part: an upstream that lists q and a model spelled like the rule regex:^q$ |
| `UpstreamSync.CommaForever` | controller/channel_upstream_update.go:382-395 | the input for it: a new channel whose upstream lists the one name a,b finds it again after adding it |
| `UpstreamSync.LocalOfJoin` | model/channel.go:211-216 | a normalised list without commas survives storing in the comma-separated column |
| `UpstreamSync.PartsAreStored` | model/channel.go:211-216 | any stored list is read back as the parts of its names between commas |
| `Batches.Table.Walk` | controller/channel_upstream_update.go:847-916 | the keyset cursor with batches handles every enabled row exactly once, in id order, as it was before the walk, for every batch size, and ends; a failing query ends it behind the rows handled so far |
| `Batches.WholeWalk` | controller/channel_upstream_update.go:847-916 | a walk that no failing query cuts short leaves every enabled row handled, which is the table the theorems about passes speak of |
| `Batches.QueryContinues` | controller/channel_upstream_update.go:834-845 | the query behind the last id continues with the next row of the original table although earlier rows have changed |
| `SyncAll.ApplyAll` | controller/channel_upstream_update.go:847-926 | table, results, failed ids and both counts of a pass over all channels, with refused writes, failing abilities and failing queries |
| `SyncAll.DetectAll` | controller/channel_upstream_update.go:928-999 | table, results and both counts of a detection pass over all channels, which knows no model mapping, with refused writes and failing queries |
| `SyncAll.EachEligibleOnce` | controller/channel_upstream_update.go:862-909 | there is exactly one result or failure for each enabled, participating channel with something pending, in ascending order of ids |
| `SyncAll.ApplyAllTwice` | controller/channel_upstream_update.go:847-926 | one pass in which no write is refused leaves nothing pending, even where abilities fail; a second pass changes and reports nothing |
| `SyncAll.CountsBalance` | controller/channel_upstream_update.go:880-909 | over a pass, whatever the database does, with pending names without commas, models afterwards plus removed ones equal models before plus added ones, where channels whose abilities failed count although the report leaves them out |
| `SyncTask.RunTask` | controller/channel_upstream_update.go:522-613 | table, totals, failed ids and refresh flag of the periodic check over all channels, which knows no model mapping, with failing upstreams, refused writes, failing abilities and failing queries |
| `SyncTask.TaskGrowth` | controller/channel_upstream_update.go:568-598 | over a periodic check, with upstream names without commas, the models listed grow by the reported number plus what was added in channels whose abilities failed |
| `SyncTask.TaskCountsBalance` | controller/channel_upstream_update.go:568-598 | with upstream names without commas, the reported number of automatically added models is the growth if and only if no channel that grew failed to rebuild its abilities |
| `SyncTask.GrowthIsHidden` | controller/channel_upstream_update.go:398-404 | the input for it: one new channel, one upstream name and failing abilities add a model that is not reported |
| `SyncTask.PassesStayConsistent` | controller/channel_upstream_update.go:522-999 | over every sequence of detection, application and periodic passes, with any upstream names, failing upstreams, failing queries, refused writes and failing abilities, every channel's pending additions are not local and its pending removals are |
| `SyncLaws.ApplyRowLaw` | controller/channel_upstream_update.go:862-909 | one row of an application pass: left alone, failed, or reported with all results |
| `SyncLaws.DetectRowLaw` | controller/channel_upstream_update.go:943-980 | one row of a detection pass: a forced check without mapping and without automatic application |
| `SyncLaws.TaskRowLaw` | controller/channel_upstream_update.go:556-598 | one row of the periodic check: due by the interval, with automatic application and without mapping |
| `SyncLaws.CountsLaw` | controller/channel_upstream_update.go:894-909 | the counts of an application pass add up over its entries |
| `SyncLaws.ListsLaw` | controller/channel_upstream_update.go:894-909 | and so do its lists of results and failures |
| `SyncLaws.OneEntryLaw` | controller/channel_upstream_update.go:890-909 | what one channel adds to them |
| `SyncLaws.FindingsLaw` | controller/channel_upstream_update.go:960-980 | the same for a detection pass |
| `SyncLaws.HandledLaw` | controller/channel_upstream_update.go:847-916 | a pass changes only the stored channel of enabled rows |
| `SyncLaws.TotalsLaw` | controller/channel_upstream_update.go:568-598 | the totals of the periodic check add up over its entries |
| `SyncLaws.OneTotalLaw` | controller/channel_upstream_update.go:568-598 | what one channel adds to them |
| `SyncAll.DetectApplyDetectExactly` | controller/channel_upstream_update.go:847-999 | detecting, applying and detecting for all channels leaves nothing pending in a channel whose upstream gives the same answer twice and whose writes are not refused, if and only if the names a pass finds have no comma and take no ignore rule away that is still needed |
| `Redirects.PassAgreesExactly` | controller/channel_upstream_update.go:833-845 | a pass, whose query leaves the model mapping out, finds what the detection of a single channel finds, if and only if no redirect target is new upstream and every listed redirect source is served upstream |
| `Redirects.PassStoresTheSameExactly` | controller/channel_upstream_update.go:928-999 | the same for the stored channel, with failing upstreams and refused writes |
| `Redirects.SourceStaysExactly` | controller/channel_upstream_update.go:847-999 | a listed redirect source survives detecting for all and applying for all if and only if the upstream serves it or a new name has it as a part between commas |
| `Redirects.AliasVanishes` | controller/channel_upstream_update.go:202-207 | the input: a channel lists a for the upstream's x; a single detection finds nothing and the two passes remove a |
| `Differences.CheckTrust` | controller/ratio_sync.go:862-897 | a source is distrusted for a model exactly when it reports both the ratio 37.5 and the completion ratio 1 |
| `Differences.AddColumn` | controller/ratio_sync.go:913-941 | the column of one source: its price, or nil for a listed model without one, and the old value and trust flag beside it |
| `Differences.CollectModels` | controller/ratio_sync.go:830-860 | all names mentioned by local prices, sources and local lists, owned ones only for a supplier |
| `Differences.Fill` | controller/ratio_sync.go:899-957 | the filled table before marking and pruning |
| `Differences.Mark` | controller/ratio_sync.go:959-972 | the set of sources with a column that differs anywhere in the table |
| `Differences.Sweep` | controller/ratio_sync.go:975-1007 | visiting every cell of a row and replacing or deleting it in place keeps exactly what the rule keeps |
| `Differences.PruneRows` | controller/ratio_sync.go:974-1012 | the loop over models with the loop over kinds keeps exactly the cells the rule keeps, and drops rows left empty |
| `Differences.NoEmptyRows` | controller/ratio_sync.go:1009-1011 | no model is left with an empty row |
| `Differences.BuildDifferences` | controller/ratio_sync.go:822-1015 | the composition of filling, marking and pruning, also for repeated source names |
| `Differences.WithAligned` | controller/ratio_sync.go:822-1015 | with distinct source names and aligned columns shown, a cell exists exactly when some source reports a price or lists the model (owned models only for suppliers), and its columns are exactly those sources with their values |
| `Differences.WithoutAligned` | controller/ratio_sync.go:822-1015 | without aligned columns a cell exists exactly when some source reports a non-nil price that differs from its old effective price |
| `Differences.WithoutAlignedColumns` | controller/ratio_sync.go:974-990 | such a cell lists exactly the providing sources that differ somewhere in the table, with their values, old values and trust flags |
| `Differences.NoOtherColumns` | controller/ratio_sync.go:974-990 | no cell has a column that is not one of the sources |
| `Differences.MarkedExactly` | controller/ratio_sync.go:959-972 | a source is marked exactly when it differs for some visible model and some kind of price |
| `DifferenceLaws.PlainCellExactly` | controller/ratio_sync.go:822-1015 | on the prices: without aligned columns a cell exists if and only if some source reports a price for a model that takes part that is not nil and unlike the old one, numbers at least a billionth apart or values that are not the same |
| `DifferenceLaws.AlignedCellExactly` | controller/ratio_sync.go:822-1015 | with aligned columns if and only if some source reports a price or lists the model |
| `DifferenceLaws.MarkedOnPrices` | controller/ratio_sync.go:959-972 | a source is marked if and only if it reports such a price for some model and kind |
| `DifferenceLaws.PlainEntries` | controller/ratio_sync.go:974-1007 | the entry of each shown source: its price or nil, the old price, and the warning for 37.5 with 1 |
| `DifferenceLaws.AlignedEntries` | controller/ratio_sync.go:913-941 | the same with aligned columns |
| `DifferenceLaws.OwnPrice` | controller/ratio_sync.go:903-911 | every cell shows this site's own price or nil |
| `ModelsDev.BuiltCandidatesAreValid` | controller/ratio_sync.go:1220-1254 | a candidate is built exactly when the costs are usable, and built candidates satisfy the validity rules |
| `ModelsDev.SelectCandidates` | controller/ratio_sync.go:1290-1326 | the nested loops keep for every model the fold of the replacement rule over its candidates |
| `ModelsDev.NonZeroWins` | controller/ratio_sync.go:1256-1268 | a non-zero input price is kept exactly when some valid candidate has one |
| `ModelsDev.FeedKeepsCheapest` | controller/ratio_sync.go:1290-1326 | with provider ids in order the kept input is below every valid non-zero input plus the epsilon, although the comparison is not transitive |
| `ModelsDev.CheapestUpToEpsilon` | controller/ratio_sync.go:1256-1268 | the same for any list of candidates with providers in order |
| `ModelsDev.DriftIsBounded` | controller/ratio_sync.go:1256-1268 | without any order each later candidate can raise the kept price by less than one epsilon |
| `PriceOrder.WithinEpsilonExactly` | controller/ratio_sync.go:1256-1268 | for a sequence of providers the kept input is below every non-zero input plus the epsilon for all prices if and only if no provider comes behind two greater ones |
| `PriceOrder.FeedWithinEpsilonExactly` | controller/ratio_sync.go:1290-1326 | the same for whole feeds: it depends only on the order in which the official ids are walked |
| `PriceOrder.TwoAboveBreak` | controller/ratio_sync.go:1256-1268 | behind two greater providers there are prices for which the bound fails |
| `PriceOrder.OrderMatters` | controller/ratio_sync.go:1173-1203 | a feed that lists the official ids openai, google, anthropic in this order for which the kept price is too high |
| `ModelsDev.CheapestWhenSeparated` | controller/ratio_sync.go:47-52 | when prices are equal or an epsilon apart, the cheapest non-zero price is kept in any order |
| `CandidateLaws.OfferLaw` | controller/ratio_sync.go:1220-1254 | an official provider on the expected host offers exactly its usable costs, with the prices as they are and a negative cache price left out |
| `CandidateLaws.ReplaceLaw` | controller/ratio_sync.go:1256-1268 | a price beats none, of two prices a billionth apart the lower wins, otherwise the provider that comes first |
| `CandidateLaws.LessLaw` | controller/ratio_sync.go:1256-1268 | the order of provider ids: the first difference decides, a prefix comes first |
| `CandidateLaws.RoundLaw` | controller/ratio_sync.go:1017-1019 | rounding gives the nearest millionth, halves away from zero |
| `CandidateLaws.RatioLaw` | controller/ratio_sync.go:1332-1366 | the model ratio is half the input price, the others are shares of it, all rounded; free input gives 0 and no other ratio |
| `ModelsDev.Convert` | controller/ratio_sync.go:1332-1366 | every selected model, and no other, gets its ratios |
| `ModelsDev.RoundingError` | controller/ratio_sync.go:1017-1019 | rounding to six places is off by at most half a step |
| `ModelsDev.OutputPriceSurvives` | controller/ratio_sync.go:1336-1348 | the rounded model ratio times the rounded completion ratio differs from half the output price by at most 5e-7*(i/2 + o/i + 5e-7) |
| `PriceTransfer.MergeCounting` | controller/price_export_import.go:117-129 | merging overrides and adds, and the counts are the growth and the rest |
| `PriceTransfer.GrowthCountsNewKeys` | controller/price_export_import.go:228-239 | the added count is the number of keys that were new, the updated count the number that were there |
| `PriceTransfer.Site.SyncPrices` | controller/price_export_import.go:477-510 | field by field, the options after the merge and both totals; it succeeds if and only if every option it writes can be read afterwards, and otherwise ends behind the first that cannot |
| `PriceTransfer.Site.ImportEntries` | controller/price_export_import.go:421-464 | options, statistics and skipped names of the loop over channel entries; a rejected write is stored and ends it |
| `PriceTransfer.Site.ImportPrices` | controller/price_export_import.go:381-471 | a payload without content is refused and changes nothing; any other succeeds if and only if every write leaves a readable option, with options and the whole report those of the payload, and otherwise leaves the writes up to and including the rejected one |
| `PriceRejection.FailureLeaves` | controller/price_export_import.go:381-471 | an import that fails has carried out its writes up to and including the first one that leaves an unreadable option, which stays stored |
| `PriceRejection.StopsThere` | controller/price_export_import.go:381-471 | conversely an import stops at every accepted prefix followed by such a write |
| `PriceRejection.RetryFails` | model/option.go:289-308 | a failed import removes no price, and importing the same payload again fails every time |
| `PriceRejection.AcceptedExactly` | setting/ratio_setting/request_tier_pricing.go:171-211 | for options read price by price: from any site an import succeeds if and only if every incoming price is valid and every invalid stored price of an option it writes is replaced by the time that option is written |
| `PriceRejection.LaterImportExactly` | model/option.go:289-308 | after an import failed at a site without invalid prices, another one succeeds if and only if its prices are valid and it replaces what the rejected write left before it writes that option |
| `PriceRejection.BadTierStays` | setting/ratio_setting/request_tier_pricing.go:192-211 | the input: the tier 5 for one model fails, fails again, makes a good tier for another model fail, and is mended by a good tier for the same model |
| `PriceExport.ExportPrices` | controller/price_export_import.go:263-375 | the payload lists the global prices and one entry per channel that has prices, in some order without repeats |
| `PriceTransfer.ApplyKeepsKeys` | controller/price_export_import.go:117-129 | no import removes a price |
| `PriceTransfer.ApplyTwice` | controller/price_export_import.go:477-556 | carrying out the same writes again changes nothing, even when they overlap |
| `PriceTransfer.SecondImportChangesNothing` | controller/price_export_import.go:381-471 | for every payload, also with duplicate channel names, a second import leaves the options unchanged and reports zero added for the global prices and for every channel name |
| `PriceTransfer.EntryCounts` | controller/price_export_import.go:514-556 | added plus updated is the number of incoming prices times the number of channels with that name |
| `PriceTransfer.StatsAddUp` | controller/price_export_import.go:421-464 | the reported statistics add up to the effect of the whole import |
| `PriceReach.NamedRows` | model/channel.go:1661-1667 | the channels of a name are those whose row carries it, in the order of the rows and each once |
| `PriceReach.NameOfExactly` | controller/price_export_import.go:263-375 | the name of a channel is that of its row, and a channel without a row has none |
| `PriceReach.ImportTouchesExactly` | controller/price_export_import.go:421-556 | an import writes a field of a channel if and only if the channel's row carries the trimmed name of an entry with prices for it |
| `PriceReach.OnlyMeantChannelsChange` | controller/price_export_import.go:421-556 | whether the import succeeds or fails, no other channel's prices change |
| `PriceReach.EveryMeantChannelGetsThem` | controller/price_export_import.go:438-458 | after an accepted import every such channel has the entry's prices unless a later entry for it has its own |
| `PriceReach.GlobalPricesHold` | controller/price_export_import.go:477-510 | and every global price of the payload holds |
| `PriceReach.OneOfTwo` | model/channel.go:1661-1667 | for example an entry for a goes to the channel named a and not to b |
| `ImportReport.RefusedExactly` | controller/price_export_import.go:393-402 | a payload is refused if and only if it has no global price and no channel entry |
| `ImportReport.SkippedLaw` | controller/price_export_import.go:421-446 | the skipped names are those of entries marked as deleted or with prices and no channel, all of them and in order |
| `ImportReport.StatsLaw` | controller/price_export_import.go:421-464 | there is a line of statistics for every other entry with a name and a price, in order |
| `PriceExport.ExportThenImport` | controller/price_export_import.go:263-471 | for any two sites: after export and an accepted import every slot of the target is what it was, overridden by what arrives for it under the id-name-id translation, entry after entry |
| `PriceExport.OthersUnaffected` | controller/price_export_import.go:421-446 | an exported channel that is blank, deleted or unknown at the target delivers nothing and changes nothing for the others |
| `PriceExport.DeletedArrivesNowhere` | controller/price_export_import.go:428-432 | a channel deleted at the source arrives nowhere |
| `PriceReach.ExportedExactly` | controller/price_export_import.go:263-375 | exactly the channels with stored prices for some field are exported |
| `PriceReach.TargetsExactly` | controller/price_export_import.go:263-471 | an exported channel arrives at exactly the channels of the target whose row carries its trimmed name, if that is neither blank nor the mark of a deleted channel |
| `PriceExport.EveryPriceHoldsExactly` | controller/price_export_import.go:263-471 | every exported price holds at every channel it arrives at, if and only if exported channels that arrive at the same channel agree wherever both have a price |
| `PriceExport.OrderIsIrrelevantExactly` | controller/price_export_import.go:263-375 | the order of the export, which is that of a Go map, makes no difference at the target, if and only if those channels agree |
| `PriceExport.FieldTable` | controller/price_export_import.go:154-215 | the field table has no repeats and leaves no price field out |
| `ModelMapping.ResolveModel` | controller/channel-test.go:731-749 | the walk with its visited set ends on every map, cyclic ones included, with the last name of the longest chain of distinct names |
| `ModelMapping.ResolveArrives` | controller/channel-test.go:731-749 | the result is reached from the start, and it is terminal exactly when the redirects from the start end |
| `ModelMapping.ResolveLaw` | controller/channel-test.go:731-749 | the walk on the entries of the map: a path of different names, each leading to the next, whose last name leads nowhere or back into the path |
| `ModelMapping.ResolveIsTheEnd` | controller/channel-test.go:731-749 | where the redirects end, they end at the result, however far they are followed |
| `ModelMapping.ResolveAgain` | controller/channel-test.go:731-749 | resolving again changes nothing if and only if the redirects end |
| `Text.RoundTripExactly` | model/channel.go:96-118 | a list stored in one text column is read back unchanged if and only if neither end of it is empty |

## Left out

- BodyAccounting.AccountingIsExact: runs in which the old-file sweep, the usage reset or the statistics sync write the disk counters are not covered; a swept file that is closed later is subtracted twice.
- RequestBody.CreateBodyStorage: the byte slice of a memory body is a value, so a caller that changes its slice afterwards is not modelled; hit counters are left out.
- RequestBody.BodyStorage.Read: reads are full reads; short reads and file errors after creation are left out.
- KeyText.KeysRoundTrip: keys are taken to be non-empty, on one line and not starting with `[`; a key such as `[1]` left alone in the column would be read as an array.
- KeyManager.MultiKeyChannel.Append: the JSON service account keys of Vertex channels are left out; for an empty column the input is stored as it is and nothing more is claimed; keys that look like arrays are covered by AppendIndices alone.
- AppendIndices.JsonIndicesKeptExactly: of JSON it takes that elements are trimmed values shorter than their array, that an element that looks like an array is one, and that an array with more behind it is none.
- KeyManager.MultiKeyChannel.PerformAll: actions are sequential, since the channel is read before the lock is taken; the in-memory copy of a channel and its refresh are left out.
- KeyPages.GetKeyStatus: previews count characters where the source counts bytes; 64-bit overflow of page times page size is left out.
- KeyPolling.ChooseKey: the polling index is one value; the split between the cached and the stored one is left out.
- OggScan.OpusDuration: the pre-skip of section 4 of RFC 7845 is not subtracted, as in the source; reads are full reads.
- SyncAll.CountsBalance: a name with a comma is counted once and stored as several, so counts are compared for names without commas only.
- SyncTask.TaskGrowth: counts are compared for upstream names without commas only, for the same reason.
- SyncTask.TaskCountsBalance: counts are compared for upstream names without commas only, for the same reason.
- Batches.Table.Walk: nobody else writes the table during the walk.
- SyncTask.RunTask: the name samples of the notification, its text, the pauses and the 24-hour throttle are left out.
- Differences.Sweep: the columns of one cell are dropped by a map difference and compared by a quantifier, where the source has two inner loops.
- Differences.WithAligned: the price in force before a synchronisation is a parameter; the channel and supplier tables it is read from are left out.
- ModelsDev.OutputPriceSurvives: stated over reals; floating-point rounding of the single operations is left out.
- PriceTransfer.Site.ImportPrices: options are the ones in memory, since the source drops database errors; a failing lookup of a channel name is left out; JSON keeps maps and numbers unchanged.
- PriceOrder.OrderMatters: provider ids are taken as the source leaves them, trimmed and in lower case.
- HTTP handlers, sessions, Redis, payment, mail, OAuth and passkey code: plumbing over libraries.
- Other audio formats, resolution helpers, constant tables, masking, URL filters and code normalisation: finite or thin wrappers that would only add easy members.
