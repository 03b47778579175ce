# Verified models of the gateway's stateful algorithms

This project models, in Dafny 4.11, the algorithms of the API gateway that keep state over
several calls, and proves what they keep and reach. `dafny verify dfyconfig.toml` checks it.

| Component | Files |
|---|---|
| Upstream model reconciliation: detect, auto-sync and apply steps over a channel's model list, ignore list and stored pending adds and removes; the batch loops over all channels | `wrappers.dfy`, `text.dfy`, `lists.dfy`, `sorted_sets.dfy`, `runs.dfy`, `name_lists.dfy`, `upstream_models.dfy`, `reconciliation.dfy`, `selections.dfy`, `channel_sweep.dfy` |
| Multi-key channels: a stored key column, read again by every action, with three maps by index that a deletion re-indexes | `multi_key.dfy`, `multi_key_laws.dfy`, `key_column.dfy`, `stored_keys.dfy`, `stored_keys_laws.dfy`, `clean_keys_laws.dfy`, `stored_keys_meaning.dfy`, `stored_keys_examples.dfy` |
| The in-memory sliding-window rate limiter and its background sweep | `rate_limiter.dfy` |
| The Ogg page scan that measures Opus files | `ogg_scanner.dfy` |
| Request bodies in memory or on disk, replayed, and the disk usage counters | `body_storage.dfy`, `body_storage_laws.dfy`, `disk_cache.dfy` |
| Price synchronization: models.dev conversion and the difference table | `models_dev.dfy`, `ratio_diff.dfy`, `ratio_diff_laws.dfy` |
| Step-up verification in the session cookie | `step_up.dfy` |

Code that changes state step by step is a class or a method with loops. Its contract ties the new
state to a function of the old one, and the lemmas state laws of those functions over every
input, every run or every interleaving. `strings.TrimSpace`, `Trim`, `Split` and `Join` are
defined; whether a pattern of an ignore list matches is an arbitrary function. Clock readings,
fetch results, save outcomes, decoder results and second-factor checks are inputs. `float64` is
`real`. Every mutex-protected method and every `atomic` call is one step.

## What the proofs found

* **Rate limiter.** It decides as an unbounded log would exactly when no duration exceeds the key
  expiration by more than one second, because the sweep compares with `>`, or when there is no
  expiration and so no sweep. The comment in `common/constants.go` asks for a duration no larger
  than the expiration, which is enough. A maximum of 0 acts as 1: a key that is not stored is
  granted without a look at the limit.
* **Convergence.** Detecting, applying everything and detecting again leaves nothing pending
  exactly when no pending add holds a comma and no uncovered upstream name is hidden only by
  `regex:` entries that upstream also offers as names, uncovered and hidden by no entry. Plain
  upstream names always converge. Automatic synchronization settles after one check exactly when
  no added name holds a comma.
* **Pending lists.** Every check, automatic synchronization included, keeps the pending lists
  consistent with the model list, whatever upstream offers. An apply call keeps them consistent
  exactly when no comma-piece of an added name stays pending: the model list is stored
  comma-joined, so adding `a,b` while `a` stays pending makes `a` a model and a pending add.
* **Comma-joined storage.** A list of model names is read back as it was saved exactly when no name
  holds a comma; in general it is read back as the pieces of its names.
* **Split selections.** When no pending add holds a comma, two apply calls equal one with the joint
  selection exactly when no pending name is ignored by the first and added only by the second.
* **Key columns.** Every action reads the keys of a channel from one column and writes them back one
  per line. A key is clean when it holds no newline, is not blank and does not start with a
  bracket. A run with clean input on a column of clean keys does to the column exactly what it does
  to the key list. Other keys may be lost, split or moved: a list is read back exactly when no key
  holds a newline and neither outer key is empty, appending drops the keys of a column that starts
  with a bracket and is not a JSON array, and a key with a newline is appended again by the same
  request.
* **Key records.** On any column, a run keeps the stored size the number of keys and every time and
  reason record beside a status exactly when every deletion, append and replacement leaves a column
  on which no record lies at or above the number of keys read back, and which is not an array
  without elements, and the relay enables no failed key that has a record. Deleting the first of
  three keys, the second empty and the third failed, is a step that does not.
* **Bulk deletion of keys.** On a column of clean keys `delete_disabled_keys` leaves the stored
  channel that `delete_key` on each failed index from the highest down leaves, exactly when nothing
  failed, or a key survives and no surviving enabled key has a time or reason recorded. On a column
  with an empty key they may differ although a key survives. When every key failed, on any column,
  the empty text is not saved: all keys stay and their failures are forgotten.
* **Bodies.** Memory and disk storages answer alike except to a read into an empty buffer at or
  past the end. A body that an adapter rewrote is served exactly when nothing is stored at that
  moment or the stored body is the same. Both adapters decode the body first, which stores it, so
  their converted body is never served by later requests for the body.
* **Batches.** The keyset loop ends exactly when fewer enabled ids than a batch holds are not
  positive; otherwise it reads the same batch for ever.
* **Prices.** Candidates of distinct providers give the same result in every order exactly when one
  of them replaces every other one. Near-equality is not transitive, so three close prices may have
  no such candidate; the order of the providers fixes the result. A positive price is stored as
  free exactly below one millionth. A report of nil never survives as a difference by itself.
* **Step-up.** The session is a signed cookie, so a client may present any session it was ever
  sent. In every such run an accepted passkey rests on a finish at most 358 s old, plus the time
  between the two clock readings of one verification; 358 s is attained. The ready marker is not
  one-shot: a finish justifies a further verification exactly when a session that can still be
  presented carries its marker and the marker's 60 s are not over. A client that goes on from the
  session it was sent last uses each finish once. Logging in keeps a recorded verification: it is
  accepted for the user it was made for exactly when nobody else was the last to log in on the
  session since. If every login starts on a session without one, or on an own one, every accepted
  method was verified by the user it is accepted for, and so was the finish under it.
* **Disk usage.** With N threads, limit L, threshold T and declared lengths up to S, bodies as long
  as declared use at most `L + (N - 1) * min(S, L)` bytes. Bodies of up to B bytes whose declared
  length is that of their compressed form use at most `L - max(T, 1) + N * B`. Nothing is stored
  when `max(T, 1) > min(S, L)`. Both bounds are attained, whatever L, T, S and B > 0 are, because check
  and count are separate steps.

## Model

| member | source | states |
|---|---|---|
| Text.TrimSpaceIdempotent | controller/channel_upstream_update.go:97-102 | trimming a name twice is trimming it once, and leaves no space at either end |
| Text.TrimCutsEnds | model/channel.go:290-295 | trimming leaves neither end to cut, invents no character, and keeps a string that has nothing to cut |
| Text.SplitJoin | model/channel.go:290-295 | splitting a joined list gives the list back when no piece holds the separator |
| Text.SplitJoinPieces | model/channel.go:290-295 | splitting any joined list gives the pieces of its strings in order |
| NameLists.NormalizeIsNormal | controller/channel_upstream_update.go:97-102 | the result is trimmed, non-empty-named and duplicate-free, holds exactly the non-blank trimmed names, and a normal list is left as it is |
| NameLists.NormalizeAppend | controller/channel_upstream_update.go:97-118 | normalizing a concatenation is merging its parts: a name stays where it first occurs |
| NameLists.MergeModelNames | controller/channel_upstream_update.go:104-118 | the loop with its seen-set yields the first list normalized, then the new names of the second in their order |
| NameLists.MergeNormal | controller/channel_upstream_update.go:104-118 | a merge is normal, holds the union, and starts with the normalized first list |
| NameLists.SubtractNormal | controller/channel_upstream_update.go:120-129 | a difference is normal, holds the set difference, and keeps the order |
| NameLists.IntersectNormal | controller/channel_upstream_update.go:131-140 | an intersection is normal, holds the set intersection, and keeps the order |
| UpstreamModels.StoredListReadsBack | model/channel.go:290-295 | a normal list is read back from its comma-joined column if and only if no name holds a comma |
| UpstreamModels.StoredNamesCommaFree | model/channel.go:290-295 | whatever is stored, the names read from it are normal and hold no comma |
| UpstreamModels.StoredPieces | model/channel.go:290-295 | any saved list is read back as the trimmed comma-pieces of its names |
| UpstreamModels.CollectPendingMeaning | controller/channel_upstream_update.go:176-235 | a name is a pending add iff upstream offers it and neither the list, a mapping target nor the ignore list covers it, a pending remove iff listed, missing upstream and no mapping source; both lists are normal and in order |
| UpstreamModels.AutoSyncGrows | controller/channel_upstream_update.go:390-396 | automatic synchronization appends every pending add: none is in the list yet |
| UpstreamModels.Channel.CheckAndPersist | controller/channel_upstream_update.go:360-407 | the ignore list and the switches stay; the check time moves exactly when the check is due (forced, never made, or after the interval) and saved; not due, not saved or without a fetched list the models and both pending lists stay; otherwise the row holds exactly the names found and missing, and an error is returned exactly when a due check fetches or saves nothing |
| UpstreamModels.CheckLeaves | controller/channel_upstream_update.go:360-407 | the same of the row, name by name: a found name is offered upstream, neither listed nor a redirect's target nor matched by an entry of the ignore list |
| UpstreamModels.Channel.Apply | controller/channel_upstream_update.go:783-831 | the whole new row and the report of one apply call, or an unchanged row when the save fails |
| Reconciliation.ApplyPartitionsPending | controller/channel_upstream_update.go:796-817 | pending adds split exactly into added, ignored and remaining, pending removes into removed and remaining; nothing that is not pending is touched |
| Reconciliation.ApplyNextModels | controller/channel_upstream_update.go:142-147 | the next list is the old one without the removed names in its order, then the added names it lacked |
| Reconciliation.ApplyLeaves | controller/channel_upstream_update.go:783-831 | any apply call on any row: every column afterwards by its names, and nothing changed by a failed save |
| Reconciliation.ApplyStores | controller/channel_upstream_update.go:805-830 | with comma-free pending adds the stored list is read back as computed, and holds old minus removed plus added |
| Reconciliation.EveryRunKeepsInv | controller/channel_upstream_update.go:360-407 | after every step of any run of checks, auto-syncs, applies and failed saves, with any upstream names, pending adds are disjoint from the models, pending removes are among them and both lists are normal, iff no saved apply leaves a comma-piece of an added name pending |
| Reconciliation.CommaFreeRunKeepsInv | controller/channel_upstream_update.go:360-407 | with comma-free upstream lists every run keeps that invariant and comma-free pending adds |
| Reconciliation.CheckKeepsInv | controller/channel_upstream_update.go:375-406 | one check keeps that invariant, with or without auto-sync, whatever upstream offers |
| Reconciliation.ApplyKeepsInv | controller/channel_upstream_update.go:796-831 | one saved apply keeps that invariant iff no pending name that is neither selected nor ignored is a comma-piece of a selected one |
| Reconciliation.AutoSyncSettles | controller/channel_upstream_update.go:386-403 | after an auto-sync a further check finds nothing to add iff no added name holds a comma, and then changes nothing at all |
| Reconciliation.SecondDetection | controller/channel_upstream_update.go:176-235 | what the second detection of a round finds, name by name, in terms of the row before the round |
| Reconciliation.OneRoundConverges | controller/channel_upstream_update.go:879-889 | detect, apply all, detect again leaves nothing pending iff the pending adds hold no comma and no uncovered upstream name is hidden only by patterns that upstream also offers, uncovered and hidden by no entry |
| Reconciliation.PlainUpstreamConverges | controller/channel_upstream_update.go:879-889 | for upstream names without comma and `regex:` prefix one round always converges, for every channel, ignore list and mapping |
| Selections.ApplyClosedForm | controller/channel_upstream_update.go:783-831 | under the invariant an apply call has a closed form without cases: every column of the new row |
| Selections.SplitInTwo | controller/channel_upstream_update.go:783-831 | for comma-free pending adds two apply calls equal one joint call in every column iff no pending name is ignored first and added only second |
| Selections.SelectionsMaySplit | controller/channel_upstream_update.go:783-831 | a selection whose adds and ignores share no pending name may be split over any number of calls |
| Selections.AdoptedPatternReappears | controller/channel_upstream_update.go:200-223 | a family of inputs where one round does not converge: an adopted `regex:` entry uncovers a name |
| Selections.FreshPiece | controller/channel_upstream_update.go:805-817 | upstream offers a name with a comma and its first piece, and only the name is selected: the piece is then a model and pending |
| Selections.PatternExample | controller/channel_upstream_update.go:200-223 | one such input: the ignore list holds "regex:x", upstream offers "regex:x" and "x" |
| Selections.CommaExample | controller/channel_upstream_update.go:805-817 | one such input: upstream offers "a,b" and "a", and only "a,b" is selected |
| ChannelSweep.NextBatch | controller/channel_upstream_update.go:837-848 | the query after the k-th id returns exactly the next batch in ascending order |
| ChannelSweep.LoopEnds | controller/channel_upstream_update.go:837-848 | the loop reads a short batch and ends iff fewer enabled ids than a batch holds are not positive; otherwise it reads the same full batch for ever |
| ChannelSweep.Database.FindEnabledAfterID | controller/channel_upstream_update.go:837-848 | the batch continues the visited ids, and a short batch completes them |
| ChannelSweep.Database.ApplyOne | controller/channel_upstream_update.go:868-900 | one channel's row after apply-all and whether it counts as failed; every other row is unchanged |
| ChannelSweep.Database.ApplyAll | controller/channel_upstream_update.go:857-912 | for every batch size the loop ends and applies everything pending to every enabled channel once, in ascending order, and lists exactly the failed ones |
| ChannelSweep.Database.CheckOne | controller/channel_upstream_update.go:556-588 | one channel's row after a check and every count of the report, skipped when checking is off; every other row is unchanged |
| ChannelSweep.Database.CheckAll | controller/channel_upstream_update.go:540-608 | the periodic task and the detect-all endpoint check every enabled channel once, in ascending order, and report the failed channels and the counts |
| ChannelSweep.ReportedFailures | controller/channel_upstream_update.go:570-574 | the reported failures are the checked channels whose fetch or write fails, in order |
| ChannelSweep.ReportedCounts | controller/channel_upstream_update.go:560-588 | the reported counts are sums over the visited channels: the checked ones, the numbers of names each successful check found to add and to remove, those added automatically, and the channels with any |
| ChannelSweep.ApplyFailures | controller/channel_upstream_update.go:868-886 | apply-all reports as failed exactly the enabled channels with checks on and something pending whose write fails |
| ChannelSweep.OthersStay | controller/channel_upstream_update.go:555-558 | neither sweep touches a channel that is not enabled or whose checks are switched off |
| ChannelSweep.RowConverges | controller/channel_upstream_update.go:868-889 | one row converges through the branches of the endpoints, including a row with nothing to apply |
| ChannelSweep.FleetConverges | controller/channel_upstream_update.go:850-1005 | detect all, apply all, detect all leaves no checked enabled channel with anything pending |
| MultiKey.IndexOf | model/channel.go:647-653 | the first index of a key, negative iff the key is absent |
| MultiKey.DropAgain | controller/channel.go:1671-1711 | dropping the p-th key left drops its old index |
| MultiKey.DisableEnabled | controller/channel.go:1618-1629 | the loop over the keys disables exactly the enabled ones and counts them |
| MultiKey.WithoutKey | controller/channel.go:1671-1703 | the loop of delete_key carries every other key and its records to the running new index |
| MultiKey.WithoutFailed | controller/channel.go:1734-1771 | the loop of delete_disabled_keys keeps exactly the keys that did not fail automatically |
| StoredKeys.CountedKeys | model/channel.go:529-555 | how many keys a column is counted as: the elements of a non-empty JSON array, otherwise the lines |
| StoredKeys.MultiKeyChannel.Update | model/channel.go:527-574 | an empty text is not written; the column is counted anew and status entries beyond the count are dropped |
| StoredKeys.MultiKeyChannel.Disable | controller/channel.go:1497-1538 | the stored channel after disable_key, refused exactly for an index out of range |
| StoredKeys.MultiKeyChannel.Enable | controller/channel.go:1540-1580 | the stored channel after enable_key: status, time and reason of that index are gone |
| StoredKeys.MultiKeyChannel.EnableAllKeys | controller/channel.go:1582-1604 | the stored channel after enable_all_keys, and the count it reports |
| StoredKeys.MultiKeyChannel.DisableAllKeys | controller/channel.go:1606-1651 | the stored channel after disable_all_keys and the exact count of keys it disabled; nothing is saved when there is none |
| StoredKeys.MultiKeyChannel.Delete | controller/channel.go:1653-1731 | delete_key stores the joined keys that are left with their records re-indexed, and refuses the last key or a bad index |
| StoredKeys.MultiKeyChannel.DeleteDisabledKeys | controller/channel.go:1733-1800 | delete_disabled_keys stores the joined keys that did not fail, or keeps the column when their text is empty, and reports how many keys it dropped |
| StoredKeys.MultiKeyChannel.Append | controller/channel.go:936-1008 | the append branch, for plain and for Vertex keys, stores the keys it reads from the column, then the trimmed new ones they lack, or refuses a malformed array |
| StoredKeys.MultiKeyChannel.Replace | controller/channel.go:1009-1013 | the replace branch stores the new text, or keeps the column when it is empty, and trims only the status map |
| KeyColumn.SavedKeysReadBack | model/channel.go:176-198 | a key list saved one per line is read back iff it is empty, or no key holds a newline and neither outer key is empty |
| KeyColumn.CleanKeysReadBack | model/channel.go:176-198 | clean keys, saved one per line, are read back by every reader, wherever they stand |
| KeyColumn.DeletionReadsBack | controller/channel.go:1713-1718 | after a deletion the column is read back as the keys left iff neither outer one is empty |
| KeyColumn.EmptyKeyIsLost | controller/channel.go:1713-1718 | a family of inputs where a deletion moves an empty key to the start and it is lost |
| KeyColumn.AppendSeesKeys | controller/channel.go:942-955 | the append branch sees the channel's keys iff the column does not start with a bracket or is a JSON array |
| StoredKeysLaws.CountedExactly | model/channel.go:529-555 | Update counts as many keys as every reader sees, except for an array without elements |
| StoredKeysLaws.StepValid | controller/channel.go:1497-1800 | on any column one action keeps the invariant iff the records it leaves fit the column it leaves |
| StoredKeysLaws.EveryRunValid | controller/channel.go:1497-1800 | after every step of any run of actions, appends, replacements and status changes on the stored column size = number of keys read back, indices lie below it, no "enabled" is stored and no time or reason without a status, iff every step leaves records that fit the column that is read back |
| StoredKeysLaws.StatusValid | model/channel.go:642-692 | a status change by the relay keeps the invariant iff it does not enable a key that has a time or a reason |
| CleanKeysLaws.CleanStep | controller/channel.go:1497-1800 | on a clean column with clean input every action leaves a clean column and does to its keys and records what it does to a key list |
| CleanKeysLaws.CleanRun | controller/channel.go:1497-1800 | so a run on the stored column is the run on the key list |
| StoredKeysMeaning.DisableMeans | controller/channel.go:1497-1538 | disable_key sets the status of one key to 2 and leaves every other record, time and reason |
| StoredKeysMeaning.EnableMeans | controller/channel.go:1540-1580 | enable_key removes everything recorded of one key and nothing else |
| StoredKeysMeaning.EnableEveryMeans | controller/channel.go:1582-1604 | enable_all_keys leaves no record of any key and the column as it was |
| StoredKeysMeaning.DisableEveryMeans | controller/channel.go:1606-1651 | disable_all_keys sets the enabled keys to 2 and leaves every other record |
| StoredKeysMeaning.StatusMeans | model/channel.go:642-692 | the relay marks the first key equal to the failing one with status, time and reason; enabling keeps time and reason; an unknown key changes nothing |
| StoredKeysMeaning.DeleteMeans | controller/channel.go:1653-1731 | delete_key removes exactly one clean key and moves every later key with its records one down; a bad index and the last key change nothing |
| StoredKeysMeaning.BulkMeans | controller/channel.go:1733-1800 | when a clean key did not fail, delete_disabled_keys keeps exactly the keys whose status is not 3, in order, with their records |
| StoredKeysMeaning.DisabledSurvives | controller/channel.go:1734-1771 | a key that disable_key disabled survives a later bulk deletion, still disabled |
| StoredKeysMeaning.FailedGoes | controller/channel.go:1734-1771 | a key that the relay failed, standing in the channel once, does not survive one unless every key failed |
| StoredKeysMeaning.AppendMeans | controller/channel.go:936-1008 | on a clean non-empty column an append leaves the old keys and then exactly the new names the request gives: the trimmed non-blank lines of a plain text, the one text of a Vertex key, the elements of a Vertex array |
| StoredKeysMeaning.MalformedAppend | controller/channel.go:957-966 | a malformed Vertex array changes nothing |
| StoredKeysMeaning.LinesBecomeKeys | controller/channel.go:1009-1013 | clean keys, one per line, become exactly the keys of a channel that they replace or that has none |
| StoredKeysMeaning.ArrayIsRead | model/channel.go:176-198 | the elements of a JSON array are the keys of its column for every reader |
| MultiKeyLaws.ReindexKeepsKeys | controller/channel.go:1671-1711 | in the list a deletion leaves, the j-th key is the j-th key not dropped, in the old order, with its own status, time and reason and nothing else recorded |
| MultiKeyLaws.IteratedDeletion | controller/channel.go:1671-1711 | on key lists, deleting each failed index from the highest down is one deletion of them all, while a key is left |
| CleanKeysLaws.BulkEqualsIterated | controller/channel.go:1733-1800 | on a clean column bulk deletion stores what delete_key on each failed index from the highest down stores, the column read again each time, iff nothing failed, or a key survives and no surviving enabled key has a record |
| CleanKeysLaws.ValidBulkEqualsIterated | controller/channel.go:1733-1800 | under the invariant one surviving key is enough for both to agree |
| CleanKeysLaws.NoneLeft | controller/channel.go:1781-1788 | on any column, when every key failed bulk deletion keeps the column and forgets the failures |
| CleanKeysLaws.AppendAddsOnlyNewKeys | controller/channel.go:950-1005 | appended clean keys are normal, differ from every old key, old indices and records stay, and the same request again stores the same channel |
| StoredKeysExamples.EnableUndoesDisable | controller/channel.go:1497-1580 | on any column enable_key after disable_key equals enable_key alone, and restores a valid channel iff the key was enabled |
| StoredKeysExamples.DisableAllFailsNone | controller/channel.go:1606-1651 | on any column disable_all_keys leaves no key enabled and does not change what delete_disabled_keys stores |
| StoredKeysExamples.SecondAppend | controller/channel.go:950-1005 | on a column of lines the same request finds nothing to append again iff none of its keys holds a newline |
| StoredKeysExamples.BracketedKeysDropped | controller/channel.go:942-955 | appending to a column that starts with a bracket and is no JSON array drops all its keys |
| StoredKeysExamples.EmptyArrayMiscounted | model/channel.go:529-555 | replacing the keys by an array without elements breaks the invariant |
| StoredKeysExamples.DeletionLosesStatus | controller/channel.go:1671-1718 | three keys, the middle one empty and the last failed: deleting the first leaves a record without a status |
| StoredKeysExamples.BulkDiffersOnEmptyKey | controller/channel.go:1781-1788 | three keys, the middle one empty and the others failed: a key survives, and bulk and single deletions leave different columns |
| RateLimiter.InMemoryRateLimiter.Request | common/rate-limit.go:45-70 | the new store and the decision of one request |
| RateLimiter.InMemoryRateLimiter.ClearExpiredItems | common/rate-limit.go:28-42 | one turn of the background loop drops exactly the stale queues |
| RateLimiter.RequestAgrees | common/rate-limit.go:45-70 | one request decides by the number of earlier grants in the window, and keeps the queue the end of the key's log |
| RateLimiter.RunsAgree | common/rate-limit.go:14-70 | over every timed run of requests and, with an expiration, sweeps the decisions are those of an unbounded log |
| RateLimiter.ExactlyTheLog | common/rate-limit.go:14-70 | all possible runs agree with the log iff there is no expiration or no duration exceeds it by more than one second |
| RateLimiter.EarlySweepDiffers | common/constants.go:206-207 | a run that differs from the log whenever a duration exceeds the expiration by more |
| RateLimiter.WindowBound | common/rate-limit.go:45-70 | no window of the duration holds more grants of a key than its limit, and no queue is longer |
| OggScanner.GetOpusDuration | common/audio.go:196-254 | the loop ends on every byte string, computes the scan, and gives the granule position over 48000 |
| OggScanner.SkipPage | common/audio.go:233-249 | the segment table is read whole or the scan stops, and the position moves past the page |
| OggScanner.ScanIsSound | common/audio.go:207-249 | on any bytes the result is 0 or the signed granule position at an offset where "OggS" stands |
| OggScanner.LittleEndianRoundTrip | common/audio.go:227-227 | a 64-bit position is read back from its little-endian bytes |
| OggScanner.EncodedFields | common/audio.go:216-242 | an encoded page (section 6 of RFC 3533) carries its own capture pattern, granule position, segment table and length |
| OggScanner.LargestIsMaximum | common/audio.go:228-230 | the expected total is the maximum of 0 and the pages' positions |
| OggScanner.ScanOfPages | common/audio.go:196-254 | scanning any well-formed pages, with any bytes around them in which no capture pattern starts, gives that maximum |
| DiskCache.Counters.IncrementDiskFiles | common/disk_cache_config.go:109-112 | both disk counters grow |
| DiskCache.Counters.DecrementDiskFiles | common/disk_cache_config.go:115-122 | both disk counters shrink and are clamped at zero |
| DiskCache.EveryRunKeepsInv | common/disk_cache_config.go:109-122 | under every interleaving the counters count exactly the bodies, usage is committed minus released, and no clamp fires |
| DiskCache.UsageBound | common/disk_cache_config.go:170-177 | usage plus bytes in flight never exceeds limit + (N - 1) * min(S, limit) with bodies as long as declared, nor limit - max(threshold, 1) + N * B with bodies up to B whatever they declare; nothing is stored when no declared length fits between threshold and limit |
| DiskCache.BoundIsAttained | common/body_storage.go:264-269 | for every limit, threshold, S and B > 0 some run stores exactly that many bytes |
| BodyStorage.MemoryStorage.Read | common/body_storage.go:47-54 | reads as the abstract reader of a memory body |
| BodyStorage.MemoryStorage.Seek | common/body_storage.go:56-63 | seeks as the abstract reader, refusing negative positions |
| BodyStorage.MemoryStorage.Close | common/body_storage.go:65-72 | closes once: the counters are released by the first close only |
| BodyStorage.DiskStorage.Read | common/body_storage.go:169-176 | reads as the abstract reader of a file |
| BodyStorage.DiskStorage.Seek | common/body_storage.go:178-185 | seeks as the abstract reader |
| BodyStorage.DiskStorage.Close | common/body_storage.go:187-196 | closes once and releases the disk counters once |
| BodyStorage.DiskStorage.Bytes | common/body_storage.go:198-230 | the whole content, with the reader back where it stood |
| BodyStorage.CreateBodyStorage | common/body_storage.go:241-259 | a fresh storage of the data at its start, on disk iff enabled, large enough, available and writable; what it added to the counters |
| BodyStorage.CreateBodyStorageFromReader | common/body_storage.go:262-303 | a body that arrives intact is accepted iff it is no longer than maxBytes on both paths; only a broken file refuses a shorter one; a refusal counts nothing |
| BodyStorage.RequestContext.GetRequestBody | common/gin.go:36-83 | a stored body is always returned at position 0; otherwise exactly the cached one; otherwise exactly the incoming one, if and only if it arrives, was not read before, is no longer than the limit and its file, if it needs one, works |
| BodyStorage.RequestContext.UnmarshalBodyReusable | common/gin.go:108-155 | after success the request's body is the storage at its start; a failed decoding loses nothing |
| BodyStorage.RequestContext.ServeRequest | common/gin.go:36-155 | from any moment of a request, after any mix of calls, the next request for the body gets all of what the request serves, or the exact refusal; from a fresh request without rewrites it gets the incoming body, if and only if that is acceptable |
| BodyStorage.RequestContext.RewriteBody | middleware/kling_adapter.go:38-49 | caching a converted body changes what is served only if nothing is stored |
| BodyStorage.RequestContext.CleanupBodyStorage | common/gin.go:99-106 | the storage is closed and what it counted is released once |
| BodyStorageLaws.KindsAgree | common/body_storage.go:47-85 | a client cannot tell memory from disk iff it never reads into an empty buffer at the end |
| BodyStorageLaws.PartialReadsCollect | common/body_storage.go:169-176 | partial reads of any sizes return the body piece by piece |
| BodyStorageLaws.WholeBodyCollected | common/body_storage.go:169-176 | reads that cover the body return the body |
| BodyStorageLaws.SeekAndRead | common/body_storage.go:178-185 | seeking to a position and reading on gives the rest of the body, seeking back from the end its last bytes |
| BodyStorageLaws.ReadIsUndone | common/body_storage.go:169-185 | seeking back by what a read returned undoes the read |
| BodyStorageLaws.SeekBeforeStart | common/body_storage.go:56-63 | a seek before the start is refused and moves nothing, from wherever it is counted |
| BodyStorageLaws.ClosedForGood | common/body_storage.go:187-204 | after a close every further read, seek and request for the bytes is refused |
| BodyStorageLaws.StoredStays | common/gin.go:38-45 | once a body is stored no call changes what is served |
| BodyStorageLaws.RewriteIsServed | common/gin.go:38-57 | a rewritten body is served until the next rewrite iff nothing is stored at that moment or the stored body is the same |
| BodyStorageLaws.ConvertedBodyIsIgnored | middleware/jimeng_adapter.go:25-46 | an adapter decodes the body before it rewrites it, so the request serves the decoded one for good |
| ModelsDev.KeptIsCheapest | controller/ratio_sync.go:881-893 | in provider order the kept candidate is a candidate, positive whenever one is, and below every positive price plus 1e-9 |
| ModelsDev.KeptIsBest | controller/ratio_sync.go:881-893 | with prices equal or 1e-9 apart the fold keeps the best by the documented policy |
| ModelsDev.OrderDoesNotMatter | controller/ratio_sync.go:881-893 | then every order of the candidates gives the same result |
| ModelsDev.SameInEveryOrder | controller/ratio_sync.go:881-893 | candidates of distinct providers give the same result in every order iff one of them replaces every other one |
| ModelsDev.CloseOrderMatters | controller/ratio_sync.go:48-53 | three close prices none of which replaces both others: the order decides |
| ModelsDev.RoundRatioIsNear | controller/ratio_sync.go:698-700 | rounding to six digits errs by at most half a millionth |
| ModelsDev.InputRecovery | controller/ratio_sync.go:960-961 | the input price is recovered from the stored model ratio within a millionth |
| ModelsDev.PriceRecovery | controller/ratio_sync.go:960-966 | input and output price are recovered from the stored ratios within the stated bounds |
| ModelsDev.FreeWhenTiny | controller/ratio_sync.go:954-961 | a positive price is stored as free iff it is below a millionth |
| ModelsDev.SelectFromProvider | controller/ratio_sync.go:928-943 | the inner loop offers each of a provider's models once and leaves other models alone |
| ModelsDev.SelectCandidates | controller/ratio_sync.go:915-944 | both loops select, for every model, the fold of its valid offers in provider order |
| ModelsDev.ConvertModelsDevToRatioData | controller/ratio_sync.go:906-985 | a model has a ratio iff some provider quotes a valid cost for it; there is then such a provider, with a positive input below every other positive one plus 1e-9 if there is any, whose input, output and cache-read prices are recovered from the ratios within the stated bounds; a completion or cache ratio exists iff its input is positive and it quotes that price; an error iff no cost is valid |
| ModelsDev.ModelConverted | controller/ratio_sync.go:845-985 | the same for one model, from the ratios of the selected candidate |
| ModelsDev.CandidatesAreOffers | controller/ratio_sync.go:845-879 | the candidates of a model are the providers' valid quotes, in provider order, each with the prices its provider quotes |
| ModelsDev.SelectedIsCheapest | controller/ratio_sync.go:915-944 | for every positive offer the selected one is a real positive offer below it plus 1e-9 |
| RatioDiff.BuildColumn | controller/ratio_sync.go:604-626 | the loop body for one channel: what its column shows and whether it differs |
| RatioDiff.BuildItem | controller/ratio_sync.go:593-640 | the loop over the channels: columns, trust and whether the entry is included |
| RatioDiff.CollectDiffering | controller/ratio_sync.go:654-663 | the names of the channels with a real difference anywhere |
| RatioDiff.PruneDifferences | controller/ratio_sync.go:665-693 | the pruning loops leave the pruned rows and drop empty ones |
| RatioDiff.BuildDifferences | controller/ratio_sync.go:536-696 | the building and pruning passes together |
| RatioDiffLaws.SurvivingEntries | controller/ratio_sync.go:536-696 | for any values an entry survives iff it is included and a channel with a real difference anywhere shows more than "same" there |
| RatioDiffLaws.SurvivingColumns | controller/ratio_sync.go:654-693 | its columns are exactly the channels with a real difference anywhere, each with its own cell and trust |
| RatioDiffLaws.PlainEntries | controller/ratio_sync.go:593-695 | with values other than nil and "same" an entry survives iff some channel reports a value not nearly equal to the local one, or there is no local one |
| RatioDiffLaws.NumberEntries | controller/ratio_sync.go:593-695 | next to a local number an entry of channels with numbers or nothing survives iff some number is 1e-9 or more away |
| RatioDiffLaws.NewNumberEntries | controller/ratio_sync.go:593-695 | where there is no local value it survives iff some channel has a number |
| RatioDiffLaws.NumberCell | controller/ratio_sync.go:604-622 | next to a local number a channel shows its own number, "same" when it is nearer than 1e-9, nil when it has none |
| RatioDiffLaws.TextEntries | controller/ratio_sync.go:593-695 | next to a local text an entry of channels with texts or nothing survives iff some text is another one |
| RatioDiffLaws.UntrustedColumns | controller/ratio_sync.go:557-591 | a shown channel is marked untrusted iff it reports a model ratio within 1e-9 of 37.5 together with a completion ratio within 1e-9 of 1 |
| RatioDiffLaws.NilReportIsDropped | controller/ratio_sync.go:665-693 | a channel that reports only nil is dropped although its entry was included |
| RatioDiffLaws.PruneTwice | controller/ratio_sync.go:654-693 | a second pruning pass changes nothing, for any values |
| RatioDiffLaws.EmptyIfAllAgree | controller/ratio_sync.go:536-696 | the result is empty iff no channel has a real difference anywhere |
| RatioDiffLaws.SyncFixpoint | controller/ratio_sync.go:536-696 | after the local data adopts what is shown for one channel, comparing with that channel alone is empty, for any values |
| StepUp.SessionStore.SetupLogin | controller/user.go:131-142 | a saved login sets the user and keeps the marker and the verification |
| StepUp.SessionStore.ClearAll | controller/user.go:159-168 | a saved logout leaves a new session |
| StepUp.SessionStore.PasskeyVerifyFinish | controller/passkey.go:495-503 | a saved finish sets the ready marker and clears an earlier verification |
| StepUp.SessionStore.ConsumePasskeyReady | controller/secure_verification.go:157-179 | the marker is removed by the first saved use and accepted only if younger than 60 s |
| StepUp.SessionStore.SetSecureVerificationSession | controller/secure_verification.go:145-155 | a saved verification records time and method and clears the marker |
| StepUp.SessionStore.UniversalVerify | controller/secure_verification.go:40-140 | succeeds iff a user is known, the session is saved and either the user has 2FA and gives a valid code or has a passkey and a saved ready marker younger than 60 s is taken; the session and the result of every branch |
| StepUp.SessionStore.RequireSecureVerificationMethod | controller/passkey.go:569-586 | accepted iff the recorded method matches and is younger than 300 s; an expired record is cleared |
| StepUp.MarkerIsFinish | controller/secure_verification.go:157-179 | whichever sessions are presented, a ready marker is the mark of a successful finish, with its time |
| StepUp.VerifiedExactly | controller/secure_verification.go:83-124 | in every run a method is verified iff its own proof was given; only "2fa" and "passkey" ever are |
| StepUp.FinishedExactly | controller/passkey.go:441-509 | a finish succeeds iff a user is logged in, the assertion passed and the session is saved |
| StepUp.VerificationEnds | middleware/secure_verification.go:80-84 | a recorded verification goes away iff by a saved logout, a finish, a saved clearing or a saved required check that finds it expired |
| StepUp.MarkerEnds | controller/secure_verification.go:157-179 | a ready marker goes away iff by a saved logout, a verification, or a passkey verification that takes it, accepted or not |
| StepUp.UserChanges | controller/user.go:131-168 | only a saved login or logout changes the user of a session |
| StepUp.NothingSaved | controller/secure_verification.go:145-179 | a request whose saves fail leaves the session as presented |
| StepUp.PasskeyRestsOnFinish | controller/secure_verification.go:99-112 | a passkey verification rests on a successful finish less than 60 s old |
| StepUp.RequireIsJustified | controller/passkey.go:569-586 | in every run, with any issued sessions presented, an accepted method was verified less than 300 s before with its own proof (a valid code, or a passkey), and a passkey one rested on a finish whose assertion passed, at most 358 s old plus the time between check and write |
| StepUp.FinishIsReplayed | main.go:183-191 | one finish justifies two verifications when the session it issued is presented twice |
| StepUp.FinishUsedAgain | controller/secure_verification.go:157-179 | a finish can justify a further verification iff a session that can still be presented carries its marker and the marker's 60 s are not over |
| StepUp.LatestSessionHasNoMarker | controller/secure_verification.go:145-155 | a client that can only present the session its passkey verification issued cannot use that finish again |
| StepUp.FinishIsUsedOnce | controller/secure_verification.go:157-179 | if no session issued before a verification is presented after it, a later verification rests on a later finish |
| StepUp.IssuedVerificationStays | controller/passkey.go:569-586 | the session a verification issued, if a user is logged in on it, is accepted for exactly its method and less than 300 s, whatever happened in between |
| StepUp.VerificationLasts | controller/passkey.go:569-586 | so is every session obtained from it by logins and required checks |
| StepUp.BoundIsReached | controller/passkey.go:495-503 | a run whose finish is 358 s old when accepted |
| StepUp.OwnVerification | controller/user.go:131-142 | an accepted verification was made for the user it is accepted for iff nobody else was the last to log in on the session since |
| StepUp.OwnFinish | controller/user.go:131-142 | the finish under a passkey verification is the verifier's own iff nobody else was the last to log in on the session since |
| StepUp.AcceptedForItsUser | controller/passkey.go:569-586 | if every login starts on a session without verification and marker or on an own one, every accepted method was verified, and its finish made, by the user it is accepted for |
| StepUp.LoginKeepsVerification | controller/user.go:131-142 | after any run, any user who logs in on a session that carries a verification is accepted by it within the 300 s |
| StepUp.OthersVerification | controller/user.go:131-142 | a run in which user 1 verifies and user 2 is accepted |

## Left out

- HTTP handlers: request binding, replies, audit logging, notifications and translations; of apply-all only the rows and the failed channels, not its count of added and removed models.
- Upstream fetching and the parsing of channel mappings: the fetched list and the parsed mapping are inputs; the 2FA, WebAuthn and session libraries answer as inputs.
- The database beyond the persisted columns: what an in-memory channel object holds after a failed save, and errors of updating the abilities table.
- Concurrent handlers on one channel: each handler is one step.
- The age limit of a session cookie (30 days) and forged cookies: a request presents a session that was issued in the run. Keys of the session that step-up verification does not read.
- Selections.SplitInTwo: stated for pending adds without commas, which alone are stored as they are.
- Selections.SelectionsMaySplit: the same.
- Selections.ApplyClosedForm: the same.
- The duplicate-key report and status paging (get_key_status); the elements of a key column that is a JSON array are an input.
- The switch of a channel's own status when all its keys fail.
- An expiration below one second, which the limiter's sweep rounds down to 0 seconds.
- 64-bit wrap-around of counters, page sizes and clock differences, NaN, infinities and rounding of `float64`.
- Short reads of a file in the middle, and decoders that keep reading a closed body.
- The slice shared by a memory body with its callers: bodies are values, so a write through it is not captured.
- Removal of stale cache files and the recount of disk usage, which re-read the file system.
- JSON values other than numbers, integers, strings and null in a price report, and the parsing of json.Number.
- The OpenRouter conversion, fetching of price lists and the endpoint classification.
- Other audio formats, URL checks, masking, pagination and dashboards: smaller or easier members.
- The middleware variants of step-up verification, which read the same session keys.
- BodyStorage.RequestContext.UnmarshalBodyReusable: the decoded value itself is not modelled, only how far a decoder reads and whether it succeeds.
- DiskCache.BoundIsAttained: longest bodies of 0 bytes are excluded when they may differ from the declared length.
- CleanKeysLaws.BulkEqualsIterated: stated for columns of clean keys; on other columns both deletions read back other keys than they wrote, as StoredKeysExamples.BulkDiffersOnEmptyKey shows.
- CleanKeysLaws.AppendAddsOnlyNewKeys: stated for clean keys, as StoredKeysExamples.SecondAppend and StoredKeysExamples.BracketedKeysDropped show the others.
- The creation of a channel from a request (AddChannel): a run starts from any stored channel that is valid.
