# Pluto client core in Dafny

This project models the core of `pluto.py`, a client for a free streaming
service. It covers:

- **The stream-session pool.** Ten virtual devices, each with its own client
  id and a per-region cache of start (authentication) answers that is reused
  for four hours. `_next_slot` hands the devices out in turn, and
  `get_stream_token` returns the token of the next device.
- **The metadata cache.** `resp_data` keeps the client's own four-hour cache
  of start answers in front of device 0.
- **Region catalogs.** `channels` fetches a region's channel and category
  listings. The last category that lists a channel gives its group. A
  clashing channel number is bumped to the next free one, the
  `colorLogoPNG` image becomes the logo, and the stations are sorted by
  number and stored per region.
- **The merged catalog.** `channels_all` keeps the first record of each
  channel id over all stored regions, in the order the regions were first
  stored. It raises the numbers of `ca`/`uk`/`fr`/`de` channels by
  6000/7000/8000/9000 if they are below that offset, resolves collisions
  with one set of used numbers, and writes each changed number back into
  the stored record.
- **Guide harvesting.** `update_epg` splits a catalog's ids into batches of
  100 and asks for `range_count` consecutive windows. Each window starts at
  the end time of the previous window's last answer. The pages are stored
  only when every request succeeded. `get_all_epg_data` runs this over
  several regions and keeps at most three entries per channel over the
  whole run, removing the rest from the stored pages.
- **Programme fields that follow rules.** The genre-class lookup
  (`find_tuples_by_value`), category deduplication, the sub-title rule and
  the removal of characters XML 1.0 forbids.

Modules:

- `Wrappers`: `Option`, `Result` and map lookup.
- `Text`: ASCII lower-casing.
- `Backend`: wire shapes, one request's outcome, and the service's answers as
  a `Network` value.
- `Numbering`: "bump until free" and the collision pass.
- `Session`: the `StreamSession` class and its boot step.
- `Catalog`: one region's catalog.
- `Merge`: `channels_all`.
- `Epg`: batches, windows and per-channel suppression.
- `Guide`: programme fields.
- `Flow`: the client's request-backed operations as steps over a snapshot
  of its state.
- `Pluto`: the `Client` class.

State the source updates in place is modelled by classes:

- `StreamSession` has the fields `responseList` and `sessionAt`.
- `Client` has `poolIndex`, `responseList`, `sessionAt`, `allChannels`,
  `channelOrder` and `epgData`.

Each loop is a method proved equal to a specification function, and the
properties are proved as lemmas about those functions.

The dictionaries of `all_channels` remember the order in which regions were
first stored. `channelOrder` models that order. `channels_all` rewrites the
numbers in the very dictionaries stored in `all_channels`; the model
addresses each record as (region, position) and writes the new numbers
back into `allChannels`.

Metadata requests share the stream pool: `resp_data` boots slot 0 of the
pool (pluto.py:178-180), and `_next_slot` hands out every slot in turn,
slot 0 included (pluto.py:140-145). `Client.RespData` boots `pool[0]`, and
`NextSlot` cycles over all ten slots.

The request-backed operations of the client (`resp_data`, `channels`,
`update_epg` and one region of `get_all_epg_data`) are also written as
functions in the module `Flow`. Each function takes a `Snapshot` of the
state it reads and returns its result with the `Snapshot` it leaves. Each
`Client` method is proved to be exactly its step, and the lemmas of `Flow`
say when each step succeeds and what it stores.

## Model

| member | source | states |
|---|---|---|
| Backend.Authenticate | pluto.py:83-95 | a start answer is accepted exactly when the status is 200 or 201, and then its body is the answer; a raised exception gives "Error Exception type" with the exception's name, any other status the HTTP failure with that status and text |
| Backend.Accept | pluto.py:218-238 | a listing or guide answer is accepted exactly when the status is 200, with the same two failure reports otherwise |
| Session.BootStep | pluto.py:34-101 | a cached answer younger than four hours is returned without a request; otherwise exactly one request is made, and only an accepted answer is cached, under that region alone and stamped with the current time; a failure leaves both caches as they were |
| Session.ReusedWithinFourHours | pluto.py:40-42 | after a successful request at time t, every boot of the same region before t + 4 h returns that answer, makes no request and changes nothing |
| Session.RefreshedAfterFourHours | pluto.py:40-42 | once four hours have passed since the answer was cached, the next boot for that region makes a request |
| Session.OtherRegionsUntouched | pluto.py:97-98 | a boot for one region neither adds, drops nor re-dates another region's cached answer, nor changes whether it is fresh |
| Session.StreamSession.constructor | pluto.py:26-32 | a new device has the given client id and credentials and empty caches |
| Session.StreamSession.Boot | pluto.py:34-101 | the device's result, whether it made a request, and its new caches are exactly those of the boot step |
| Pluto.SlotIndex | pluto.py:140-145 | the slot chosen for any counter value lies inside the pool |
| Pluto.RoundRobinCoversPool | pluto.py:140-145 | any ten consecutive calls of the round robin hand out ten different slots, covering the whole pool |
| Pluto.Client.constructor | pluto.py:105-123 | the pool holds ten distinct fresh devices with the given ids and empty caches; the counter is 0 and every client-level cache is empty |
| Pluto.Client.NextSlot | pluto.py:140-145 | returns the slot at the counter modulo the pool size and advances the counter by one, changing nothing else |
| Pluto.Client.GetStreamToken | pluto.py:147-158 | the next slot is booted for the region; on failure no token or slot and the boot's error, otherwise that slot's session token (possibly absent) and the slot; the client's own caches are untouched |
| Pluto.Client.RespData | pluto.py:169-183 | the result and the new client and slot-0 caches are exactly those of `Flow.RespStep` |
| Pluto.Client.ChannelsAll | pluto.py:275-314 | returns the merge of the stored catalogs, replaces the stored catalogs by their renumbered form, and keeps the region order |
| Pluto.Client.Channels | pluto.py:185-273 | the result and the new state are exactly those of `Flow.ChannelsStep` |
| Pluto.Client.RegionChannels | pluto.py:189-273 | the result and the new state are exactly those of `Flow.RegionChannelsStep` |
| Pluto.Client.UpdateEpg | pluto.py:324-391 | the outcome and the new state are exactly those of `Flow.UpdateEpgStep` |
| Pluto.Client.HarvestRegion | pluto.py:365-391 | the outcome and the new stored pages are exactly those of `Flow.HarvestStep` over the window harvest of the batches |
| Pluto.Client.CollectRegion | pluto.py:522-538 | the outcome, the harvested pages, the kept pages, the new counter and the new state are exactly those of `Flow.CollectStep` |
| Pluto.Client.GetAllEpgData | pluto.py:517-540 | the result and the new state are exactly those of `Flow.RunFrom` over the regions, starting with an empty counter and no lists |
| Flow.RespStep | pluto.py:169-183 | a fresh client-level answer is returned and nothing changes; otherwise slot 0 boots, and an accepted answer is cached at client level with the current time; an accepted result is then fresh and cached, a failure leaves the client-level cache as it was, and the catalogs and guide pages never change |
| Flow.RespStepReuses | pluto.py:173-175 | asking again at the same time after an accepted answer returns the same answer and changes nothing |
| Flow.RespStepReusedWithinFourHours | pluto.py:172-175 | after an answer booted from slot 0 at t, every request for the region before t + 4 h returns it from the client-level cache and changes nothing, whatever the service would answer |
| Flow.RespStepRefreshedAfterFourHours | pluto.py:172-180 | once four hours have passed since the client-level answer was cached, the next request's result is slot 0's boot step |
| Flow.ListingReply | pluto.py:218-245 | a catalog is built exactly when both listings are accepted, and it is the sorted catalog of those listings; otherwise the channel listing's error, or else the category listing's error |
| Flow.Store | pluto.py:272 | the region's catalog is replaced, a new region goes to the end of the order, and nothing else changes |
| Flow.RegionChannelsOutcome | pluto.py:189-273 | a region's catalog is handed out and stored exactly when the boot gives an answer with a token and both listings are accepted; a failure reports the boot's error, no error for a missing token, or the first rejected listing's error, and stores no catalog |
| Flow.ChannelsStep | pluto.py:185-187 | the region order stays a duplicate-free listing of the stored regions, and the guide pages never change |
| Flow.HarvestStep | pluto.py:365-391 | the pages are stored exactly when the window harvest succeeds; a rejected request stops with its error and a run without batches crashes, both storing nothing |
| Flow.UpdateEpgStep | pluto.py:324-391 | the region order stays well formed, and an updated region has stored pages |
| Flow.UpdateEpgRegion | pluto.py:324-391 | for a region other than "all", the guide is stored exactly when the boot gives a token, both listings are accepted and the window harvest of the sorted catalog's ids succeeds; the new state is then the catalog stored and the harvested pages stored; the run crashes exactly when that harvest has no batch; a failure leaves the guide pages as they were |
| Flow.UpdateEpgAll | pluto.py:324-391 | for "all", the guide is stored exactly when the boot gives a token and the window harvest of the merged list's ids succeeds; the merge's renumbered records and the pages are then stored |
| Flow.CollectStep | pluto.py:522-538 | the outcome is that of `update_epg`; after an update, the kept pages and the counter are the suppression of the stored pages under the counter carried in, and they replace the stored pages; a failure keeps the counter |
| Flow.RunCollectsIffAllUpdated | pluto.py:522-525 | a run collects exactly when every region's step is an update, each taken in the state the regions before it left |
| Flow.RunCollectsSuppressed | pluto.py:522-540 | a collected run hands out the lists of all harvested pages in region order, suppressed as one sequence with one counter |
| Flow.GetAllCollects | pluto.py:517-540 | `get_all_epg_data` collects exactly when every region's `update_epg` succeeds in turn, and then hands out the "data" lists of every harvested page, suppressed over the whole run with a counter starting empty |
| Numbering.Bump | pluto.py:259-262 | the result is the least number at or above the requested one that is not yet used |
| Numbering.BumpUntilFree | pluto.py:259-262 | the increment loop stops at that least free number |
| Numbering.AssignNumbersAt | pluto.py:308-312 | each number of the collision pass is its requested number bumped past the numbers assigned before it |
| Numbering.AssignNumbersLeastFree | pluto.py:308-312 | each assigned number is at least the requested one, differs from every earlier assigned number, and every number in between is already taken |
| Numbering.AssignNumbersDistinct | pluto.py:308-312 | the collision pass assigns pairwise different numbers |
| Numbering.AssignNumbersFixpoint | pluto.py:308-312 | a list of already distinct numbers passes through unchanged |
| Numbering.AssignNumbersExamples | pluto.py:308-312 | [5,5,7] becomes [5,6,7], [5,5,6] becomes [5,6,7], and two channels both at 7050 become 7050 and 7051 |
| Catalog.GroupOf | pluto.py:240-245 | a channel's group is absent exactly when no category lists it; otherwise it is the name of the last category that lists it |
| Catalog.CategoryMap | pluto.py:240-245 | the dictionary built by the loop looks up, for every channel id, the group of the last listing category |
| Catalog.ColorLogo | pluto.py:264-267 | the logo is absent exactly when no image has type colorLogoPNG; otherwise it is the url of the first such image |
| Catalog.StationAt | pluto.py:247-269 | station i keeps the listing's id and name, the region as country code, the group and logo above, and the listing number bumped past the numbers of stations 0..i-1 |
| Catalog.BuildStations | pluto.py:247-269 | the station loop yields exactly those stations, in listing order |
| Catalog.StationNumbersDistinct | pluto.py:247-269 | no two stations of a region share a number |
| Catalog.StationNumberLeastFree | pluto.py:259-262 | a station's number is at least the listed one, differs from every earlier station's, and every number in between is taken by an earlier station |
| Catalog.SortByNumber | pluto.py:271 | the result is ordered by number and is a permutation of the input |
| Catalog.SortKeepsDistinct | pluto.py:271 | sorting keeps the numbers pairwise different |
| Catalog.RegionCatalogAscending | pluto.py:247-273 | the catalog of a region, as `channels` builds and stores it, is strictly ascending by number (a later `channels_all` may renumber the stored records) |
| Catalog.RegionCatalogEntries | pluto.py:247-273 | the stored catalog is a permutation of the built stations; each station comes from a listed channel with the same id and name, the region's code, a number at least the listed one, its group and its logo |
| Merge.StoreWellOrdered | pluto.py:272 | storing a region's catalog keeps the region order a duplicate-free listing of the stored regions; a new region goes to the end |
| Merge.AllRefs | pluto.py:276-278 | the flattened list addresses only stored records and only records of stored regions |
| Merge.Flatten | pluto.py:276-278 | the flattening loop visits the regions in stored order, and each region's records in order |
| Merge.FirstById | pluto.py:280-285 | the filter keeps records of the flattened list only, keeps every channel id that occurs, and keeps no id twice |
| Merge.KeptPositions | pluto.py:280-285 | the kept records stand at strictly increasing positions of the flattened list, each the first record of its id there |
| Merge.FirstByIdKeepsFirst | pluto.py:280-285 | every kept record is the first record of its id in the flattened list |
| Merge.KeepFirst | pluto.py:280-285 | the filtering loop with its seen set keeps exactly those records |
| Merge.OffsetSettles | pluto.py:288-306 | offsetting never lowers a non-negative number, and a number already at or above the region's offset is left as it is |
| Merge.OffsetExamples | pluto.py:288-306 | uk 50 becomes 7050 (also written "UK"), an unlisted region keeps 50, uk 7050 stays 7050, de 9 becomes 9009 |
| Merge.WriteNumbersAt | pluto.py:311-312 | after the write-back, a kept record carries its assigned number and every other stored record is unchanged |
| Merge.Renumber | pluto.py:287-312 | the renumbering loop writes back exactly the numbers of the collision pass over the offset numbers |
| Merge.ChannelsAll | pluto.py:275-314 | the merge methods together return the merged list and the rewritten store |
| Merge.MergedAt | pluto.py:280-312 | merged record i is the i-th first record of its id with its number replaced by the i-th number of the collision pass |
| Merge.MergedIds | pluto.py:280-285 | the merged list contains exactly the channel ids of all stored catalogs, each once |
| Merge.MergedNumbersDistinct | pluto.py:308-312 | no two merged records share a number |
| Merge.MergedFirstRecord | pluto.py:280-312 | every merged record is the first stored record of its id, renumbered to at least its offset number |
| Merge.MergedStoredShape | pluto.py:311-312 | the write-back keeps the stored regions and their lengths, and changes nothing in a record but its number |
| Merge.MergeAllIdempotent | pluto.py:275-314 | merging again right after a merge gives the same list and leaves the store as it is |
| Epg.Chunks | pluto.py:362-364 | every batch has between 1 and 100 ids, and every batch but the last has exactly 100 |
| Epg.ChunksConcat | pluto.py:362-364 | the batches, concatenated, are the id list |
| Epg.ChunksCount | pluto.py:362-364 | there are as many batches as the id count divided by 100, rounded up |
| Epg.FetchBatches | pluto.py:372-383 | a window succeeds exactly when every batch's request is accepted, and then its pages are the answers in batch order |
| Epg.FetchBatchesFirstFailure | pluto.py:372-383 | a failed window reports the error of its first rejected batch, all batches before it having been accepted |
| Epg.BatchFailure | pluto.py:372-383 | when the batches before j are accepted and batch j is rejected, the window fails with batch j's error |
| Epg.FetchWindow | pluto.py:372-383 | the batch loop computes the window's result |
| Epg.WindowsStep | pluto.py:367-388 | the first window's failure fails the run; with no batch the run crashes; otherwise its pages come first and the rest of the run starts at the end time of its last page |
| Epg.WindowsShape | pluto.py:367-388 | a complete run has one page per batch per window, and its first pages are the first window's answers in batch order |
| Epg.NoBatchesCrash | pluto.py:367-385 | with no batch and at least one window, the run reads an answer that was never received |
| Epg.FetchWindows | pluto.py:367-388 | the window loop computes the run's result |
| Epg.CountStep | pluto.py:530-536 | one entry is admitted exactly when its channel's count is below the limit, and the count never exceeds the limit |
| Epg.PruneCounts | pluto.py:528-536 | after a page, a channel's count is the lesser of count plus occurrences and the limit, and equals the count before plus the entries kept |
| Epg.PruneDecision | pluto.py:528-536 | an entry is kept exactly when its channel's count plus its earlier occurrences in the page is below the limit |
| Epg.PrunePage | pluto.py:528-536 | the suppression loop over one page keeps and counts as specified |
| Epg.PrunePages | pluto.py:526-537 | suppression keeps the number of pages and each page's end time |
| Epg.PrunePagesAppend | pluto.py:522-538 | suppressing two runs of pages in turn, with the counter carried over, equals suppressing them together |
| Epg.PruneRun | pluto.py:526-537 | the page loop suppresses every page in order under the carried counter |
| Epg.PrunePagesAtMost | pluto.py:517-540 | over a whole run no channel keeps more than the limit of entries, and its final count is the entries kept |
| Epg.PrunePagesCount | pluto.py:522-536 | over a whole run a channel's count becomes its carried count plus its entries in the run, capped at the limit, so it keeps exactly that capped number minus the carried count |
| Epg.PruneAppend | pluto.py:528-536 | suppressing two lists in turn, the counter carried over, is suppressing their concatenation |
| Epg.PrunePagesFlat | pluto.py:522-537 | suppression over a run of pages keeps exactly the entries, and leaves the counter, that suppressing all the run's entries as one list does |
| Epg.RunDecision | pluto.py:528-536 | over a whole run, an entry is kept exactly when its channel's carried count plus its occurrences earlier in the run is below the limit |
| Epg.RemoveFirst | pluto.py:535 | removing an entry from a list drops one copy of it when present; Python raises `ValueError` for an absent entry, which cannot happen in `get_all_epg_data` since the entry comes from the list itself |
| Epg.FirstIndex | pluto.py:535 | the position found holds the entry, and no earlier position does |
| Epg.RemoveFirstTakesFirstCopy | pluto.py:535 | the copy removed is the first one: the list before it and the list after it stay as they are |
| Epg.PruneDropsFourthCopy | pluto.py:528-536 | with limit 3 the page [a,a,a,b,a] keeps [a,a,a,b] |
| Epg.PruneAsWrittenReorders | pluto.py:535 | removal by value as written turns [a,a,a,b,a] into [a,a,b,a] |
| Guide.Covering | pluto.py:400-405 | the names collected are exactly those of the classes that list the value, at most one per class |
| Guide.CoveringSingle | pluto.py:402-404 | one class contributes its name exactly when it lists the value |
| Guide.CoveringAppend | pluto.py:402-404 | the classes are visited in taxonomy order: a split taxonomy gives the first part's names, then the second part's |
| Guide.CoveringDistinct | pluto.py:400-405 | when class names are distinct, no name is listed twice |
| Guide.FindTuplesByValue | pluto.py:400-405 | the result is never empty: the names of every class listing the value, or the value itself when no class lists it; when some class lists it, the result is exactly the covering names, one per class in taxonomy order |
| Guide.MartialArtsIsAction | pluto.py:400-451 | "Martial Arts" is classed as "Action" alone |
| Guide.UnknownGenreStandsForItself | pluto.py:400-451 | a genre no class lists, such as "Opera", stands for itself |
| Guide.DedupFrom | pluto.py:507-510 | deduplication leaves no repeats and keeps exactly the values not already seen |
| Guide.DedupFromAppend | pluto.py:507-510 | deduplicating a concatenation is deduplicating the first part, then the second part against what the first contributed |
| Guide.CategoriesBlocks | pluto.py:496-510 | a programme's categories are duplicate-free and exactly the raw ones, in three blocks: the genre's classes, then "Series" or "Movie", then the sub-genre's classes not yet listed |
| Guide.DedupExample | pluto.py:507-510 | ["Action","Series","Action"] deduplicates to ["Action","Series"] |
| Guide.CategoriesExample | pluto.py:496-510 | a tv episode whose genre and sub-genre are both "Martial Arts" gets ["Action","Series"] |
| Guide.Strip | pluto.py:320-322 | no forbidden control character remains, and the text never grows |
| Guide.StripAppend | pluto.py:320-322 | stripping distributes over concatenation |
| Guide.StripKeepsLegal | pluto.py:320-322 | text without forbidden characters is unchanged |
| Guide.StripSingle | pluto.py:320-322 | a single character is removed exactly when it is illegal, so with `Guide.StripAppend` every legal character stays, in order, and every illegal one goes |
| Guide.StripIdempotent | pluto.py:320-322 | stripping twice is stripping once |
| Guide.SubTitle | pluto.py:492-494 | a sub-title is written exactly when the title and the episode name differ ignoring case, and it is the stripped episode name |
| Guide.SubTitleExamples | pluto.py:492-494 | "News"/"NEWS" gets no sub-title; "News"/"Pilot" gets "Pilot" |
| Guide.MakeProgramme | pluto.py:453-510 | a programme keeps its channel and times, takes the stripped title, the sub-title rule and the deduplicated categories |

## Left out

- HTTP itself is not modelled: headers, the per-region `X-Forwarded-For` table, URLs, query parameters and JSON decoding. Every endpoint's answer is a field of a `Network` value. That value is keyed by region (and, for the guide, by start time and batch) rather than by session token.
- The random device ids (`uuid4`) and the `uuid1` device are not generated; they are passed in as parameters.
- The pool lock and concurrent callers are not modelled; each method runs alone.
- Clock readings are an integer number of seconds passed in as `now`. The guide's start time is a parameter. The end time of a timeline answer is taken as already rounded down to the hour, since date parsing and formatting are not modelled.
- `Guide.MakeProgramme` copies the start and stop stamps instead of reformatting them. The `live`, `episode-num`, original-air-date, `desc`, `icon`, `date` and `series-id` elements are not modelled, nor is the XML tree, its file or gzip output (`create_xml_file`, `read_epg_data` beyond the listed fields).
- `print` and log lines are left out.
- `.lower()` is modelled on ASCII letters only; other letters are left as they are.
- A start answer stored as JSON `null` is not distinguished from a missing one.
- `resp_data` falls back to the local "now" when an answer has no issue time. Both of its maps are always written together, so that case cannot arise and is not modelled.
- Pluto.Client.UpdateEpg: when the id list is empty and at least one window is asked for, the source reads `response` before it is ever assigned. The model returns `Crashed` for this run instead of excluding it with a precondition. `get_all_epg_data` then propagates it as `Aborted`.
- Pluto.Client.UpdateEpg: one `now` stands for the separate clock readings of the two `resp_data` calls in `update_epg` (pluto.py:172, reached from pluto.py:325 and pluto.py:189). In the source, the second call can fall past the four-hour mark and boot slot 0 again, and its answer may lack a token. `channels` then returns no stations and no error, and the id loop raises a `TypeError` on `None` (pluto.py:362). The model keeps this branch as `Crashed`, but with one clock value the second call reuses the first answer, so the branch is never reached.
- Pluto.Client.UpdateEpg: does not state which error a failed run returns. The window functions `Epg.FetchBatchesFirstFailure` and `Epg.WindowsStep` state it.
- Pluto.Client.GetAllEpgData: a `Halted` or `Aborted` result is the failure of the first region whose step is not an update, as `Flow.RunFrom` defines it; no separate lemma names that region.
- Merge.MergeAllIdempotent: is stated for stores whose numbers are all non-negative. A negative number, such as uk -5, is raised once to 6995, which is still below the offset, so a second merge would raise it again.
- Channel numbers are unbounded integers. A listing element without a number (`None` in the source) is not modelled.

## Findings

| source | as written | input that shows it | evidently intended | confidence | as-written member | corrected member |
|---|---|---|---|---|---|---|
| pluto.py:535 | an entry past the limit is dropped with `data_list.remove(entry)`, which removes the FIRST entry equal to it, not the one being looked at | one page [a,a,a,b,a] of identical entries for channel a, limit 3: the fourth "a" removes the first, leaving [a,a,b,a] | drop the entry being looked at, leaving [a,a,a,b] | medium, not executed | Epg.PruneAsWrittenReorders | Epg.PruneDropsFourthCopy |
