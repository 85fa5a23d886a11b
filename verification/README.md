# moligate, modelled and proved in Dafny

moligate is a gateway in front of large-language-model providers. It keeps channels (a provider account
with a list of models and one or more keys), relays requests to them with retries, and bills the requests.
This project models the parts of it that carry an algorithm or a protocol, and proves what they promise:

- keeping a channel's model list in step with what its provider offers (`ModelNames`, `UpstreamSync`,
  `UpstreamSyncRuns`);
- the in-memory sliding-window rate limiter and its sweeper (`RateLimit`);
- the expiring store of verification codes (`VerificationStore`);
- the keys of a multi-key channel, their index-keyed status, and appending to them (`MultiKey`,
  `KeyAppend`, `KeyStatus`);
- request bodies that can be replayed, their two storages, the counters that watch over them, and the
  request context that hands them out (`BodyStorage`, `BodyAccounts`, `BodyReplay`);
- the retry loops, and the life of a bill (`RelayRetry`, `BillingSession`);
- comparing prices with other sites and choosing a price from a catalogue (`PricingDiff`, `ModelsDev`);
- finding the duration of an Ogg Opus stream (`OggScan`; the page header is section 6 of RFC 3533, the
  48 kHz granule position is section 4 of RFC 7845);
- quota conversion and version order (`QuotaMath`, `VersionOrder`); strings and floats (`Text`, `Floats`).

Objects that the code updates in place are classes. Each of their methods is proved to move the object's
abstract state as a transition function says, and the theorems about runs are proved about that function.
`dafny verify dfyconfig.toml` checks the whole project.

## What holds, and what does not

The main results hold for all inputs or over all runs. Several promises turned out to have a corner where
the code does not keep them. Each of these has a lemma with failing inputs and a theorem with the exact
condition:

| promise | fails when | failing inputs | exact condition |
|---|---|---|---|
| detect, apply all, detect again finds nothing | a model name contains a comma, or is the text of the pattern that kept another model out | `CommaNameInstance`, `CommaNameNeverConverges`, `PatternNameInstance` | `ConvergesExactlyWhen` |
| automatic synchronisation leaves no addition pending | a model name contains a comma | `CommaNameInstance` | `AutoSyncConvergesExactlyWhen` |
| the stored lists stay disjoint | a name with a comma is added and one of its pieces stays pending | `PieceLeftPending` | `ApplyConsistentExactlyWhen`, `EveryRunConsistentExactlyWhen` |
| the limiter decides as a full log would | a request comes with a limit below the length of the queue, or a queue fills up and the window is longer than the expiration plus one second | `LoweredLimitFails`, `ShortExpirationFails` | `ExactExactlyWhen` |
| a key that is always asked the same has its accepted requests spaced | the window is longer than the expiration plus one second | `ShortExpirationFails` | `SteadyExactExactlyWhen` |
| verification codes of different purposes never mix | a purpose is a prefix of another | `PrefixCollides` | `StoreIsExactExactlyWhen` |
| deleting keys leaves the other keys intact | a remaining key has a newline in it, the remaining list starts or ends with an empty key, is empty, or reads as a JSON array | `NewlineSplitsKey`, `EmptyEndIsLost`, `DeletingAllReenables` | `DeletionIntactExactlyWhen` |
| appended keys leave old indices alone | the stored string starts with a bracket and is no JSON array, or is blank, or a key has a newline or an empty end | `BracketedKeyIsLost`, `BlankTurnsIntoArray` | `AppendStableExactlyWhen`, `AppendKeepsViewsExactlyWhen` |
| memory and disk bodies look the same | a read of length zero at the end of the body | `EmptyReadShows` | `TracesAgreeExactlyWhen` |
| disk usage stays below the limit | a body is longer than its declared length | `Exceeding` | `WithinLimitExactlyWhen` |
| a request makes at most `RetryTimes` + 1 attempts | a token of group `auto` has another group to move to | `FailingRelay`, `FailingTask` | `RelayBoundExactlyWhen`, `TaskBoundExactlyWhen` |
| a settlement charges what was used | the bill had been refunded before, or the wallet did not take back a top-up that the token refused | `SettleAfterRefund`, `FailedUndoOvercharges` | `SettleChargesExactlyWhen` |
| a failed reservation costs nothing | the source or the token does not take back what it had given | `UndoFails` | `PreConsumeAllOrNothing` |
| a refund returns everything | a step of the refund fails, something was lost before, or a wallet holds only a top-up that could not be undone | `OnlyStuckIsNotRefunded` | `RefundReturnsExactlyWhen` |
| the price listing shows every difference | a channel supplies null or the marker text `same`, or shares its name with a later one | `NullValuesAreLost`, `DuplicateNameIsLost` | `ReportedExactlyWhen`, `ProperReportedExactlyWhen` |

No caller in the repository settles a bill after refunding it, because the refund is deferred to the end of
the request; the session itself does not exclude it, since settling looks only at whether it was settled.
A limit of zero makes the limiter behave as with a limit of one, because a key's first request is always
accepted. When every key of a channel was disabled automatically, deleting the disabled keys deletes
nothing and enables them all (`DeletingAllReenables`), because an empty key string is not written. The
comment above the channel selection describes groups sharing one retry count; the code starts the count
over for each group, and the model follows the code.

## Model

| member | source | states |
|---|---|---|
| `Text.WhitespaceIs` | controller/channel_upstream_update.go:100-105 | the code points that trimming removes, by number |
| `Text.JoinPlaces` | controller/channel_upstream_update.go:940-945 | in a joined string every part is at its place, behind the earlier ones and a separator for each |
| `ModelNames.NormalizeSpec` | controller/channel_upstream_update.go:100-105 | a normalised list has no duplicates and consists of exactly the non-empty trimmed names |
| `ModelNames.NormalizeFixed` | controller/channel_upstream_update.go:100-105 | normalising a normal list returns it, order included |
| `ModelNames.NormalizePrefix` | controller/channel_upstream_update.go:100-105 | names keep their order of first appearance: further input only extends the list |
| `ModelNames.SetAlgebra` | controller/channel_upstream_update.go:107-143 | merge, subtract and intersect yield normal lists with the members of the union, difference and intersection; merging keeps the base as a prefix |
| `ModelNames.AlgebraKeepsOrder` | controller/channel_upstream_update.go:107-143 | each keeps the order of its first list, and what merging appends keeps the order of the second |
| `ModelNames.MergeDisjointLength` | controller/channel_upstream_update.go:107-121 | merging names that are all new grows the list by exactly their number |
| `ModelNames.MergeModelNames` | controller/channel_upstream_update.go:107-121 | the two loops over the `seen` set compute the merge |
| `ModelNames.ApplySelectedSpec` | controller/channel_upstream_update.go:145-150 | the result has everything added and of the origin everything not removed; adding wins |
| `ModelNames.ApplySelectedLayout` | controller/channel_upstream_update.go:145-150 | first what stays of the origin, then what is new |
| `UpstreamSync.LocalPieces` | model/channel.go:289-294 | trimming commas off the stored list before splitting loses no model |
| `UpstreamSync.LocalCommaFree` | model/channel.go:289-294 | whatever the stored string, the names read from it are normal and contain no comma |
| `UpstreamSync.LocalRoundTrip` | model/channel.go:289-294 | storing a normal list of comma-free names and reading it returns the same list |
| `UpstreamSync.LocalOfJoin` | controller/channel_upstream_update.go:940-945 | a joined list reads back as the pieces of its names, whether or not they contain commas |
| `UpstreamSync.PendingSpec` | controller/channel_upstream_update.go:179-238 | pending additions and removals are normal and disjoint, and no addition is already stored |
| `UpstreamSync.PendingAddsKeepOrder` | controller/channel_upstream_update.go:213-227 | pending additions come in upstream's order: what upstream lists later only extends them |
| `UpstreamSync.CollectPending` | controller/channel_upstream_update.go:179-238 | the lookup-set loops find exactly the upstream models that are neither stored, nor a redirect target, nor ignored by any entry, and exactly the stored ones that are neither a redirect source nor listed upstream |
| `UpstreamSync.RedirectSets` | controller/channel_upstream_update.go:198-203 | the sets are exactly the sources and the targets of the redirects |
| `UpstreamSync.ComputeCheck` | controller/channel_upstream_update.go:490-510 | what a check that reached upstream stages or applies by itself |
| `UpstreamSync.AutoApply` | controller/channel_upstream_update.go:499-505 | the list grows by the merged additions and the count says by how many |
| `UpstreamSync.StoredChannel.CheckAndPersist` | controller/channel_upstream_update.go:474-521 | the stored record after a throttled, failed, unsaved or completed check, and the three results, with a failed ability refresh reported |
| `UpstreamSync.ComputeApply` | controller/channel_upstream_update.go:932-955 | the new lists of a selective apply |
| `UpstreamSync.StoredChannel.ApplyUpdates` | controller/channel_upstream_update.go:919-967 | the stored record after an apply, unchanged if the save fails, and the error of a failed save or ability refresh |
| `UpstreamSyncRuns.SelectiveApplyConserves` | controller/channel_upstream_update.go:932-954 | remaining and added-or-ignored partition the pending additions; remaining and removed partition the pending removals; adding wins over ignoring and removing; models change by exactly the added and removed names |
| `UpstreamSyncRuns.ApplyLayout` | controller/channel_upstream_update.go:932-955 | models that stay keep their order and new ones follow in the order they were asked for, and so they are joined; a change is reported exactly when an addition was not stored or a removal was; the automatic mode stays |
| `UpstreamSyncRuns.ApplyKeepsOrder` | controller/channel_upstream_update.go:932-954 | what is ignored and removed comes as it was asked for, what stays pending as it was found, and the ignore list as it was with the newly ignored names behind it and without the added ones |
| `UpstreamSyncRuns.CheckCountsAdditions` | controller/channel_upstream_update.go:498-510 | in every mode, staged plus automatically added equals the number of pending additions |
| `UpstreamSyncRuns.ChecksAreThrottled` | controller/channel_upstream_update.go:480-488 | for every stored channel an unforced check looks at upstream exactly when the channel was never checked or the interval has passed, a forced one always; a check that is too early or cannot be saved leaves the record alone |
| `UpstreamSyncRuns.FailedFetchKeepsLists` | controller/channel_upstream_update.go:490-497 | a check that cannot reach upstream changes nothing but its time |
| `UpstreamSyncRuns.AllApplied` | controller/channel_upstream_update.go:932-955 | what detecting and applying everything leaves as models and as ignore list |
| `UpstreamSyncRuns.WantedArePending` | controller/channel_upstream_update.go:213-227 | pending additions are exactly what upstream offers, is not stored, no redirect leads to and no ignore entry names or matches |
| `UpstreamSyncRuns.ModelsAfterAll` | controller/channel_upstream_update.go:179-238 | after detecting and applying everything the models are the pieces of the wanted ones, and of the stored ones those that upstream lists or that are the source of a redirect |
| `UpstreamSyncRuns.RedirectSourcesStay` | controller/channel_upstream_update.go:229-232 | the alias a redirect starts from is never removed |
| `UpstreamSyncRuns.CheckStages` | controller/channel_upstream_update.go:490-510 | in every mode, what upstream dropped is pending for removal in its stored order, except redirect sources; what is wanted is pending in upstream's order, or joined and stored behind the old models in that order |
| `UpstreamSyncRuns.ConvergesExactlyWhen` | controller/channel_upstream_update.go:179-238 | detect, apply all, detect again finds nothing if and only if no pending addition has a comma and no applied addition drops an ignore entry that kept another model out |
| `UpstreamSyncRuns.OrdinaryNamesConverge` | controller/channel_upstream_update.go:919-967 | it converges for every channel, redirect map, ignore list and pattern engine when upstream names have no comma and no `regex:` prefix |
| `UpstreamSyncRuns.CommaNameStaysPending` | controller/channel_upstream_update.go:940-945 | one such round leaves it pending |
| `UpstreamSyncRuns.CommaNameNeverConverges` | controller/channel_upstream_update.go:940-945 | a pending name with a comma is pending again after any number of rounds of detecting and applying everything, whatever else upstream lists meanwhile |
| `UpstreamSyncRuns.CommaNameInstance` | controller/channel_upstream_update.go:179-238 | every trimmed name with a comma is pending on an empty channel |
| `UpstreamSyncRuns.PatternNameNeverConverges` | controller/channel_upstream_update.go:947-950 | adding a model named like an ignore pattern drops the pattern, and the model it kept out becomes pending, exactly unless it is a piece of an addition |
| `UpstreamSyncRuns.PatternNameInstance` | controller/channel_upstream_update.go:213-227 | the situation arises from an empty channel with that one pattern ignored |
| `UpstreamSyncRuns.PatternNamesExist` | controller/channel_upstream_update.go:213-227 | every pattern that matches a model but not its own text gives such a name |
| `UpstreamSyncRuns.AutoSyncConvergesExactlyWhen` | controller/channel_upstream_update.go:498-510 | after an automatic synchronisation no addition is pending if and only if the additions had no comma |
| `UpstreamSyncRuns.CheckedConsistent` | controller/channel_upstream_update.go:490-510 | after any completed check, detected names are disjoint from models, literal ignores and removed names, removed names are stored models, and nothing repeats |
| `UpstreamSyncRuns.ApplyConsistentExactlyWhen` | controller/channel_upstream_update.go:919-967 | an apply keeps that invariant if and only if every pending piece of a name selected for adding is itself selected for adding or ignoring |
| `UpstreamSyncRuns.PieceLeftPending` | controller/channel_upstream_update.go:932-955 | the failing input: upstream lists a name and one of its pieces on an empty channel, and only the name is added |
| `UpstreamSyncRuns.JoinedNames` | controller/channel_upstream_update.go:940-945 | such a name is any two comma-free names joined by a comma |
| `UpstreamSyncRuns.EveryRunConsistentExactlyWhen` | controller/channel_upstream_update.go:474-521 | in every run of checks and applies, in any order, with any fetch or save failing and any upstream names, the invariant holds throughout if and only if every saved selection meets that condition |
| `UpstreamSyncRuns.CommaFreeRunsConsistent` | controller/channel_upstream_update.go:474-521 | as long as no upstream name has a comma, every run meets it |
| `RateLimit.InMemoryRateLimiter.constructor` | common/rate-limit.go:14-26 | a new limiter has no queues, and sweeps only for a positive expiration |
| `RateLimit.InMemoryRateLimiter.Request` | common/rate-limit.go:45-70 | the answer and the one queue that changes, as the next two rows say |
| `RateLimit.RequestSpec` | common/rate-limit.go:45-70 | a request is accepted exactly while the queue is not full or its oldest entry has left the window, and takes that one's place if it was full; other keys are left alone |
| `RateLimit.RefusedExactlyWhen` | common/rate-limit.go:45-70 | for a queue of any length and any limit: refused if and only if at least the limit is queued and all of it is young |
| `RateLimit.InMemoryRateLimiter.ClearExpiredItems` | common/rate-limit.go:28-42 | exactly the queues whose newest entry is older than the expiration are dropped |
| `RateLimit.QueueIsTail` | common/rate-limit.go:28-70 | in every run, with any limits and windows and whatever is swept, a queue is the tail of the times at which the key's requests were accepted |
| `RateLimit.RefusalsAreRight` | common/rate-limit.go:45-70 | in every run, with any limits and windows and whatever is swept, a refused request finds at least as many accepted ones within its window as its limit allows |
| `RateLimit.QueueLength` | common/rate-limit.go:45-70 | how long a queue is follows from the limits alone if nothing is swept, and bounds it if something is |
| `RateLimit.QueueDecides` | common/rate-limit.go:45-70 | a queue that is not longer than the limit and holds the tail of the accepted requests decides as counting the young ones among all of them does |
| `RateLimit.QueueStep` | common/rate-limit.go:45-70 | appending, and dropping a head that has left the window, keep the queue standing for the whole log |
| `RateLimit.SweepKeeps` | common/rate-limit.go:28-42 | a sweep whose expiration covers the window loses only entries that have left it |
| `RateLimit.LimiterIsExact` | common/rate-limit.go:28-70 | over every interleaving of requests and sweeps under a monotone clock, with limits that may change from request to request but never below the queue, and an expiration that covers the window, the answers are those of the full log |
| `RateLimit.LoweredLimitFails` | common/rate-limit.go:51-61 | for every list of limits that goes below the length of the queue there is a run in which a request is accepted although as many as its limit are young |
| `RateLimit.AcceptedRequestsAreSpaced` | common/rate-limit.go:28-70 | for a key that is always asked the same, in every run in which the expiration covers the window, any limit + 1 consecutive requests that the limiter accepts span at least the window |
| `RateLimit.ShortExpirationFails` | common/rate-limit.go:28-42 | for every window longer than the expiration plus one, and limits that let the queue fill up, there is a run in which the sweeper lets one request too many in |
| `RateLimit.ExactExactlyWhen` | common/rate-limit.go:28-70 | for every list of limits and every window, the limiter is exact over all runs if and only if there is no window, or no request finds the queue full, or none finds it longer than its limit and the expiration covers the window |
| `RateLimit.SteadyExactExactlyWhen` | common/rate-limit.go:28-70 | for a key that is always asked the same the limiter is exact over all runs, and what it accepts is spaced, if and only if nothing sweeps or the window does not exceed the expiration plus one |
| `VerificationStore.VerificationMap.Register` | common/verification.go:35-45 | the entry under purpose and key is replaced, and expired ones may be evicted |
| `VerificationStore.VerificationMap.Verify` | common/verification.go:47-56 | accepted when stored, not expired and equal |
| `VerificationStore.VerificationMap.Delete` | common/verification.go:58-62 | exactly that entry goes |
| `VerificationStore.VerificationMap.RemoveExpiredPairs` | common/verification.go:65-72 | exactly the expired entries go |
| `VerificationStore.IdInjective` | common/verification.go:35-45 | with prefix-free purposes the concatenation determines purpose and key |
| `VerificationStore.PrefixCollides` | common/verification.go:35-56 | for every purpose that is a proper prefix of another there is a run in which a code is accepted for the wrong one |
| `VerificationStore.StoreIsExactExactlyWhen` | common/verification.go:35-72 | over every run with a monotone clock the store answers as an unbounded log does, if and only if the purposes are prefix-free |
| `VerificationStore.GatewayPurposesNeverCollide` | common/verification.go:16-19 | so the two purposes in use never collide and eviction is invisible |
| `VerificationStore.ExpiresAfterTenMinutes` | common/verification.go:47-56 | an entry expires ten minutes after it was made |
| `VerificationStore.CodeLivesTenMinutes` | common/verification.go:35-72 | a registered code, and no other, is accepted for ten minutes, whatever is registered, deleted and evicted for other keys meanwhile |
| `VerificationStore.EvictionKeepsItSmall` | common/verification.go:35-45 | registering replaces the entry, and if and only if there are then more than ten, exactly the expired ones go |
| `OggScan.GetOpusDuration` | common/audio.go:196-254 | the loop ends on every byte sequence, because the position always advances, and yields over 48000 the largest position field of the pages it looks at, or zero |
| `OggScan.ReadPage` | common/audio.go:207-249 | one round: a mismatch moves by one byte, a page moves past its payload, a short read stops |
| `OggScan.SkipPage` | common/audio.go:235-248 | the position ends behind the lacing table and the bytes it announces |
| `OggScan.LittleEndianRoundTrip` | common/audio.go:228-229 | reading the encoded bytes of a number returns it |
| `OggScan.HeaderRoundTrip` | common/audio.go:219-248 | from an encoded page the scan recovers the capture pattern, the signed granule, the table and where the next page starts |
| `OggScan.SkipJunk` | common/audio.go:219-226 | bytes in which no capture pattern begins, also across the border, do not change the result |
| `OggScan.ScanFindsLargestGranule` | common/audio.go:196-254 | on pages with junk before, between and after them the result is the larger of zero and the largest granule |
| `OggScan.CutOffPageIsLast` | common/audio.go:228-248 | a page that announces more bytes than there are, or whose table is cut off, still counts and is the last that does |
| `OggScan.ScanIsSound` | common/audio.go:196-254 | on any bytes a positive result is the granule field of some place that starts a page |
| `OggScan.ScanVisits` | common/audio.go:196-254 | on any bytes at all: where the scan looks follows from the bytes, one byte further or behind the page, and the result is the largest position field found there |
| `QuotaMath.ConvertIsLimitedExact` | common/quota_math.go:72-154 | saturating first equals limiting the exact conversion, for all reals, infinities and NaN, within the 32-bit range |
| `QuotaMath.ConvertMonotone` | common/quota_math.go:72-154 | every conversion is monotone and never flips sign |
| `QuotaMath.StrictExactlyWhen` | common/quota_math.go:88-154 | the strict form succeeds if and only if no clamp is reported, which is when the value lies strictly inside the 32-bit range, and is then within one half, halves away from zero, or less than one toward zero; otherwise its error is the clamp, which names the conversion, the kind, the value and the result |
| `VersionOrder.CompareAssistantVersion` | controller/misc.go:274-299 | the sign says which version is older at the first differing part, and zero means equal everywhere |
| `VersionOrder.SameExactlyWhen` | controller/misc.go:274-299 | two versions compare equal if and only if they agree after stripping trailing zeros |
| `VersionOrder.Trichotomy` | controller/misc.go:274-299 | exactly one of older, same and newer holds |
| `VersionOrder.BelowTransitive` | controller/misc.go:274-299 | the order is transitive, also through equal versions |
| `VersionOrder.OffersUpdate` | controller/misc.go:228-239 | an update is offered exactly when all three fields are set and the current version is strictly older |
| `MultiKey.ReadBackExactlyWhen` | model/channel.go:175-197 | joining keys and reading them returns them if and only if none has a newline, the ends are not empty and the string is not read as a JSON array |
| `MultiKey.GetKeysAre` | model/channel.go:175-197 | what a key string holds: nothing, the elements of an array it reads as, or its lines without the newlines around them |
| `MultiKey.KeptSpec` | controller/channel.go:1890-1984 | deleting one key keeps every other position, deleting the disabled keys keeps every position not shown as disabled automatically, each once and ascending |
| `MultiKey.DeletedAreAutoDisabled` | controller/channel.go:1956-1966 | as many keys are deleted as show the automatically disabled status |
| `MultiKey.Reindex` | controller/channel.go:1890-1984 | the re-indexing loop returns the surviving keys in order and the maps for their new positions |
| `MultiKey.MultiKeyChannel.Update` | model/channel.go:542-589 | the recount and the deletion loop write exactly the channel that the next row describes |
| `MultiKey.SaveKeepsViews` | model/channel.go:542-589 | saving keeps the view of every key in the list and shows keys beyond it as enabled, keeps times and reasons, counts the keys, or the lines of an empty JSON array, leaves the key when none is given, and is idempotent |
| `MultiKey.ParseKeys` | model/channel.go:554-570 | the keys counted are those `GetKeys` reads, or the lines of an empty array |
| `MultiKey.DropBeyond` | model/channel.go:571-579 | exactly the statuses below the size stay |
| `MultiKey.MultiKeyChannel.DeleteKey` | controller/channel.go:1866-1944 | refused without index, out of range or for the last key; otherwise the channel without that key |
| `MultiKey.MultiKeyChannel.DeleteDisabledKeys` | controller/channel.go:1946-2013 | refused when no key was disabled automatically; otherwise the channel without those, and the number of keys that showed so |
| `MultiKey.MultiKeyChannel.DisableKey` | controller/channel.go:1710-1751 | refused out of range; otherwise that key disabled |
| `MultiKey.MultiKeyChannel.EnableKey` | controller/channel.go:1753-1793 | refused out of range; otherwise that key without status, time and reason |
| `MultiKey.MultiKeyChannel.EnableAllKeys` | controller/channel.go:1795-1817 | all three maps are empty |
| `MultiKey.MultiKeyChannel.DisableAllKeys` | controller/channel.go:1819-1864 | refused if and only if no key is enabled; otherwise every enabled key is disabled |
| `MultiKey.DisableUpToAt` | controller/channel.go:1831-1843 | exactly the enabled keys change status |
| `MultiKey.RebuiltViews` | controller/channel.go:1890-1984 | every index of the rebuilt maps is in range and shows what its key showed at its old index |
| `MultiKey.MapsFollowKeys` | controller/channel.go:1890-1984 | status, time and reason of a survivor are at its new index: the status unless it is enabled, time and reason always after deleting one key, and only of keys not enabled after deleting the disabled ones |
| `MultiKey.DeletionIntactExactlyWhen` | controller/channel.go:1866-1999 | after a deletion every survivor keeps its key, order and view, sizes and ranges agree, if and only if the remaining list can be stored |
| `MultiKey.NewlineSplitsKey` | controller/channel.go:1926-1931 | the failing inputs: after deleting the first of two keys whose second has a newline in it, two keys read back |
| `MultiKey.EmptyEndIsLost` | controller/channel.go:1926-1931 | the failing inputs: after deleting the first of three keys whose second is empty, one key reads back |
| `MultiKey.DeletingAllReenables` | controller/channel.go:1946-2013 | when every key was disabled automatically the key string stays and all keys come back enabled |
| `MultiKey.TogglesAreLocal` | controller/channel.go:1710-1793 | enabling or disabling a key changes none of the maps at any other key, nor size and ranges; a disabled key has status 2 and keeps the time and reason it carries, an enabled one loses them |
| `MultiKey.DisableAllViews` | controller/channel.go:1819-1864 | afterwards the keys that were enabled have status 2, and the others show the same as before |
| `KeyAppend.FreshOfSpec` | controller/channel.go:1103-1134 | the added keys are distinct, trimmed, not empty, and exactly the input keys that are not there yet |
| `KeyAppend.FreshOfPrefix` | controller/channel.go:1115-1134 | added keys come in order of first appearance: more input only adds keys at the end |
| `KeyAppend.NewKeysAreTheLines` | controller/channel.go:1086-1112 | keys given by line are the lines of the input, in order and none missing; a Vertex AI key that is no array is one key |
| `KeyAppend.FreshKeys` | controller/channel.go:1103-1134 | the loops over the `seen` set compute them in order of first appearance |
| `KeyAppend.AppendKeys` | controller/channel.go:1066-1137 | the new key string is the old keys followed by the fresh ones, for keys given by line and for Vertex AI keys; an array that does not parse is refused, and a channel without key takes the input |
| `KeyAppend.AppendStableExactlyWhen` | controller/channel.go:1064-1137 | for every stored string and every form of input, reading the written string returns the old keys and then the fresh ones, if and only if the old string is not misread and the list can be stored |
| `KeyAppend.LinesStableExactlyWhen` | controller/channel.go:1064-1137 | for keys by line: if and only if the old string does not start with a bracket, has more than newlines, and does not turn into a JSON array |
| `KeyAppend.MisreadNeverReadsBack` | controller/channel.go:1072-1085 | of a string that starts with a bracket and is no array nothing is left, whatever is added |
| `KeyAppend.BracketedKeyIsLost` | controller/channel.go:1072-1085 | the failing input `[x` |
| `KeyAppend.BlankTurnsIntoArray` | controller/channel.go:1136-1137 | the failing inputs: a blank key and a new key in brackets |
| `KeyAppend.LinesTurnIntoArrayOnlyWhen` | controller/channel.go:1072-1085 | only blank key strings turn into an array |
| `KeyAppend.AppendKeepsViewsExactlyWhen` | controller/channel.go:1064-1137 | in the saved channel every old key keeps index and view and every new key starts enabled, if and only if the written list can be stored and the old one was not misread, or nothing is written and the list was not an empty array |
| `KeyStatus.BuildRows` | controller/channel.go:1613-1657 | one row per key in order, with view and shortened key, and the three counts |
| `KeyStatus.CountsAgree` | controller/channel.go:1613-1657 | the counts are those the key actions use |
| `KeyStatus.FilterKeepsOrder` | controller/channel.go:1659-1669 | filtering by status keeps the order of the keys |
| `KeyStatus.GetKeyStatus` | controller/channel.go:1596-1708 | the filtered page, the page it was moved to, and totals over all keys |
| `KeyStatus.Paginate` | controller/channel.go:1671-1692 | the page arithmetic, with requests outside moved to the nearest page |
| `KeyStatus.NearestIsNearest` | controller/channel.go:1602-1681 | no page is closer to the one asked for |
| `KeyStatus.PagesCoverEverything` | controller/channel.go:1671-1692 | reading all pages yields every row once, in order, and no page is empty except the one of an empty list |
| `BodyStorage.MemoryStorage.Read` | common/body_storage.go:62-69 | refines reading the abstract body |
| `BodyStorage.MemoryStorage.Seek` | common/body_storage.go:71-78 | refines seeking in it |
| `BodyStorage.MemoryStorage.Bytes` | common/body_storage.go:89-96 | the whole body, with the cursor where it was |
| `BodyStorage.MemoryStorage.NewReader` | common/body_storage.go:98-108 | a fresh reader at the start of the same bytes |
| `BodyStorage.BytesReader.Read` | common/body_storage.go:98-108 | a memory reader does what the abstract reader does |
| `BodyStorage.MemoryStorage.Close` | common/body_storage.go:80-87 | refines closing the body |
| `BodyStorage.DiskStorage.Read` | common/body_storage.go:196-203 | refines reading the abstract body |
| `BodyStorage.DiskStorage.Seek` | common/body_storage.go:205-212 | refines seeking in it |
| `BodyStorage.DiskStorage.Bytes` | common/body_storage.go:225-257 | the whole body, read through the one file offset, which ends where it was |
| `BodyStorage.DiskStorage.NewReader` | common/body_storage.go:259-275 | a fresh descriptor at the start of the same file |
| `BodyStorage.OsFile.Read` | common/body_storage.go:259-275 | a disk reader does what the abstract reader does |
| `BodyStorage.DiskStorage.Close` | common/body_storage.go:214-223 | refines closing the body |
| `BodyStorage.ReadersDoAlike` | common/body_storage.go:98-275 | in any world, among other readers and also after closing, a reader reads and moves as one does on its own |
| `BodyStorage.ObserveAgreesExactlyWhen` | common/body_storage.go:62-275 | one operation shows the same on both storages if and only if it is not an empty read at the end |
| `BodyStorage.TracesAgreeExactlyWhen` | common/body_storage.go:62-275 | so does any sequence of operations, if and only if it contains no such read |
| `BodyStorage.EmptyReadShows` | common/body_storage.go:62-69 | the failing inputs: on every body, reading it all and then asking for nothing |
| `BodyStorage.MainReadsInOrder` | common/body_storage.go:62-69 | on both storages the reads of the main cursor return the body from the cursor on, as far as they ask, whatever readers and whole-body reads come between |
| `BodyStorage.ReaderReadsInOrder` | common/body_storage.go:259-275 | so do the reads of each reader from its own position, whatever else is done, closing included |
| `BodyStorage.ReadsAfterSeek` | common/body_storage.go:71-78 | after a seek reads go on from start, cursor or end plus the offset; a seek to before the start is refused and reads go on where they were |
| `BodyStorage.NewReaderReadsAll` | common/body_storage.go:98-108 | a new reader reads the body from its start |
| `BodyStorage.ReadsEndProperly` | common/body_storage.go:62-275 | reads of the cursor and of every reader return nothing exactly when asked for nothing or at the end, and report the end exactly there, on disk only if asked for something; a closed storage refuses everything but closing and the reads of its readers |
| `BodyStorage.ReadersLeaveBodyAlone` | common/body_storage.go:98-108 | whatever readers do, the body and its cursor are what the operations on it alone make of them |
| `BodyStorage.ReaderMovesAlone` | common/body_storage.go:259-275 | only a reader's own reads move it, also after the storage was closed |
| `BodyAccounts.BodyCache.CreateBodyStorage` | common/body_storage.go:286-304 | disk above the threshold while there is room, memory otherwise or when the disk fails, with the counters |
| `BodyAccounts.BodyCache.CreateBodyStorageFromReader` | common/body_storage.go:307-348 | the storage, its counters and the error for bodies that are too long, cut off by the limiting reader, broken off or well-behaved |
| `BodyAccounts.BodyCache.IncrementDiskFiles` | common/disk_cache_config.go:109-112 | one more file and its bytes |
| `BodyAccounts.BodyCache.IncrementMemoryBuffers` | common/disk_cache_config.go:125-128 | one more buffer and its bytes |
| `BodyAccounts.BodyCache.Close` | common/disk_cache_config.go:115-134 | only the first close of a storage takes it off the counters |
| `BodyAccounts.ClosedBalanced` | common/disk_cache_config.go:115-122 | closing keeps the books balanced and the clamp to zero never fires |
| `BodyAccounts.ReleaseCloses` | common/body_storage.go:80-87 | closing a storage closes it and no other, and takes it off the counters of its kind by one and by its size if and only if it was open |
| `BodyAccounts.EveryRunBalanced` | common/body_storage.go:286-348 | after every run of creations, failed creations and repeated closes the counters are the number and summed sizes of the open storages |
| `BodyAccounts.OpenExactlyWhen` | common/body_storage.go:214-223 | after every run a storage is open if and only if the run did not close it |
| `BodyAccounts.CountersReturnToZeroExactlyWhen` | common/disk_cache_config.go:109-134 | after every run all four counters are zero if and only if it closed every storage it created |
| `BodyAccounts.BytesGoToDiskExactlyWhen` | common/body_storage.go:286-304 | bytes go to disk exactly when the cache is on, they reach the threshold, there is room next to the open files, and the disk works |
| `BodyAccounts.ReaderOutcome` | common/body_storage.go:307-348 | when a body from the connection fails, is too large by its length or by the limiting reader, or is stored, where, and with which length; a refusal leaves no trace |
| `BodyAccounts.EveryRunWithinLimit` | common/disk_cache_config.go:170-177 | disk usage stays within the maximum in every run with honest lengths |
| `BodyAccounts.Exceeding` | common/body_storage.go:307-330 | for every body longer than declared there is a configuration and a run that exceeds the maximum |
| `BodyAccounts.WithinLimitExactlyWhen` | common/body_storage.go:307-348 | the maximum is safe against a body in all configurations and runs if and only if it declares no length or is not longer than declared |
| `BodyReplay.RequestContext.GetStorage` | common/gin.go:36-96 | the cached storage rewound, or a new one from the cached bytes or the connection, or an error that says whether the body was too large |
| `BodyReplay.RequestContext.ReadConnection` | common/gin.go:59-74 | what a request body delivers, or its error, on a bare connection and behind the limiting reader, and what asking it again will give |
| `BodyReplay.FetchSpec` | common/gin.go:36-96 | what a fetch gives in every case: the whole body from its start, cached, with earlier readers where they were, or an error that says whether the body is too long |
| `BodyReplay.RequestContext.UnmarshalBodyReusable` | common/gin.go:108-155 | whatever the decoder reads, the whole body stays available, and on success it is rewound and wrapped |
| `BodyReplay.RequestContext.Cleanup` | common/gin.go:99-106 | the cached storage is closed and given up |
| `BodyReplay.RequestContext.Attempt` | controller/relay.go:208-229 | one round: the storage is fetched, wrapped and used |
| `BodyReplay.RequestContext.PlayAttempts` | controller/relay.go:194-229 | what every attempt of the loop is handed |
| `BodyReplay.AttemptKeepsBytes` | controller/relay.go:194-229 | whatever an attempt does with the wrapped body, closing it included, the bytes stay and the storage stays open |
| `BodyReplay.EveryAttemptStartsAtZero` | controller/relay.go:194-229 | however much earlier attempts consumed, moved or closed, every attempt gets the identical whole body from its start; without a body the first attempt fails |
| `BodyReplay.SecondFetch` | common/gin.go:36-96 | asking twice gives the same body from its start or the same error, so that behind the limiting reader a body found too large stays too large; only a bare connection, closed by the first attempt, no longer blames the length |
| `BodyReplay.LimiterDecides` | middleware/gzip.go:33-41 | the limiting reader never lets through more than the storage accepts, with the defaults of 32 and 128 megabytes |
| `BodyReplay.AfterCleanup` | common/gin.go:99-106 | after the cleanup the body reads as empty behind the limiting reader, and cannot be had without it |
| `BodyReplay.ClosingBreaksReplay` | controller/relay.go:218 | without the wrapper that ignores closing, the second attempt would have no body |
| `RelayRetry.OnlyChannelErrorsOutliveTheCount` | controller/relay.go:331-364 | with no retries left only channel errors are retried, and no task error |
| `RelayRetry.RetriedExactlyWhen` | controller/relay.go:331-364 | which errors and statuses are retried while retries are left, for requests and for tasks |
| `RelayRetry.RetryParam.IncreaseRetry` | service/channel_select.go:33-42 | one more, unless the count was just started over |
| `RelayRetry.RetryParam.SelectChannel` | service/channel_select.go:83-162 | the group that serves the attempt, and the count and group index left for the next one |
| `RelayRetry.SelectsFirstAvailable` | service/channel_select.go:83-162 | a selection takes the first group from the current one on that has a channel at its level, and what it leaves for the next one; without such a group it finds nothing |
| `RelayRetry.SelectUsesBudget` | service/channel_select.go:83-162 | every selection that finds a channel uses up part of a finite budget, although the count may start over |
| `RelayRetry.PlayRound` | controller/relay.go:194-244 | what one round adds to a run and whether the loop goes on |
| `RelayRetry.PlayNext` | controller/relay.go:194-244 | one pass through the loop: the channel, the round and the increment, after which the rest of the run is the loop from there, with less budget left |
| `RelayRetry.RetryLoop` | controller/relay.go:184-244 | the loop terminates and its marks, error and bill are those of the recursive run |
| `RelayRetry.LoopShaped` | controller/relay.go:184-244 | in every run attempts stop at the first success, and an error remains if and only if the last attempt did not succeed |
| `RelayRetry.LoopPlayed` | controller/relay.go:184-244 | there is a mark for every round that was tried, the error is that of the last round or that no channel was found, and there is a bill if and only if a round that was played opened one |
| `RelayRetry.RunGoes` | controller/relay.go:184-244 | from any round on, the rounds of the loop are served at the places that the groups, their channels and the retry decision prescribe, and it leaves the error they prescribe |
| `RelayRetry.RunIsDetermined` | controller/relay.go:184-244 | where a run starts fixes all its places and its error |
| `RelayRetry.WholeRun` | service/channel_select.go:83-162 | for one group and for groups tried in turn, crossing or not: exactly one list of groups and priorities and one error fit the rules, and the loop plays them: it goes on exactly after a failure that is retried while the count lasts, is served by the first group from there on that has a channel, and ends with the last round's error, or with that of a missing channel exactly when no group has one |
| `RelayRetry.RelayRun` | controller/relay.go:184-244 | the places and the error of a relayed request, with the retry decision spelled out on the error, the policy and the retries left |
| `RelayRetry.TaskRun` | controller/relay.go:563-638 | those of a task that is not locked to a channel |
| `RelayRetry.LockedRun` | controller/relay.go:577-587 | a locked task plays round after round up to the first that succeeds, breaks off, is not retried or uses up the count, is left with that one's error, and never looks for a channel |
| `RelayRetry.AttemptsBounded` | controller/relay.go:184-244 | attempts are bounded by the setting plus one, times the groups left for `auto` |
| `RelayRetry.BoundIsReached` | service/channel_select.go:83-162 | a run that always fails while retries are left makes exactly that many attempts |
| `RelayRetry.StartingOver` | service/channel_select.go:106-150 | once a group has no channel left the count starts over, also without cross-group retry |
| `RelayRetry.RelayBoundExactlyWhen` | controller/relay.go:331-364 | with `shouldRetry` deciding, the setting plus one bounds all runs if and only if affinity forbids retries, there is no second group to move to, or no retries are set; pinning the channel makes no difference |
| `RelayRetry.FailingRelay` | controller/relay.go:331-364 | the run beyond the bound: a channel error in every round and a starting group without channels |
| `RelayRetry.PinnedRetriesOnlyChannelErrors` | controller/relay.go:331-364 | with a pinned channel a first failure that is no channel error is the last attempt |
| `RelayRetry.TaskBoundExactlyWhen` | controller/relay.go:679-719 | for tasks, with `shouldRetryTaskRelay` deciding, it bounds all runs if and only if one of those holds or the channel is pinned or locked |
| `RelayRetry.FailingTask` | controller/relay.go:679-719 | the run beyond the bound: status 429 in every round |
| `RelayRetry.Relay` | controller/relay.go:173-244 | said of the policy and the surroundings alone: the rounds played go on exactly after an error that is retried, pinned channel and affinity included, and which error is left, in every mode; at most one refund, never after a success, exactly one when an error remains and quota was reserved before the loop or by a round that was played; a refused request returns its error and leaves no mark; attempts bounded |
| `RelayRetry.RelayTask` | controller/relay.go:563-638 | the same for tasks, and of a locked task that it never ends for want of a channel; exactly one of settling and failing; a failure refunds exactly when a round that was played reserved quota |
| `BillingSession.Session.PreConsumeQuota` | service/billing_session.go:223-325 | the reservation on token and source, with the undo of every partial step, which may fail |
| `BillingSession.Session.FundFromWallet` | service/funding_source.go:46-59 | the wallet is charged, or the token gets its charge back if it takes it |
| `BillingSession.Session.FundFromSubscription` | service/billing_session.go:271-319 | the token is brought in line with the package that was picked, or everything is given back that is taken back |
| `BillingSession.Session.ReserveQuota` | service/billing_session.go:189-215 | raised on source and token or on neither, unless the source does not take its part back; it reports success exactly when the session is closed or trusted or the target is reserved |
| `BillingSession.Session.SettleQuota` | service/billing_session.go:45-110 | the source first, then the token, closed for good once the source is corrected; when it reports success |
| `BillingSession.Session.RefundQuota` | service/billing_session.go:113-182 | everything reserved goes back, at most once, except for the steps that fail |
| `BillingSession.PreConsumeAllOrNothing` | service/billing_session.go:223-325 | a successful reservation is fully accounted for; a failed one leaves the source alone if and only if it had given nothing or takes it back, and the token likewise |
| `BillingSession.UndoFails` | service/billing_session.go:286-300 | the failing run: a subscription reserves, the token refuses the price difference, and nothing is taken back |
| `BillingSession.ReservationStartsExactlyWhen` | service/billing_session.go:223-325 | a reservation starts if and only if every step it needs is accepted; a trusted wallet needs none |
| `BillingSession.EveryRunAccounted` | service/billing_session.go:45-215 | over every run of top-ups, settlements and refunds, in any order, repeated or failing at any step, undoing and returning included, source and token are short of exactly what is due and what failed steps lost |
| `BillingSession.NothingIsLost` | service/billing_session.go:113-215 | as long as nothing that undoes or returns fails, nothing is lost, and what the source gave is what is reserved |
| `BillingSession.RefundReturnsExactlyWhen` | service/billing_session.go:113-182 | when a refund of an open bill brings the source back to what it was before the reservation, and when the token |
| `BillingSession.OnlyStuckIsNotRefunded` | service/billing_session.go:169-182 | the failing run: after a reservation of nothing, a top-up that the wallet does not take back is never refunded |
| `BillingSession.RunsEndingInRefund` | service/billing_session.go:113-215 | every run that ends in a refund, in which no settlement went through and nothing that undoes or returns fails, ends with both balances as before the reservation |
| `BillingSession.TopUpReachesTarget` | service/billing_session.go:189-215 | an accepted top-up brings the reservation to its target and takes the difference from source and token; any other, or one of a trusted session, changes nothing, unless the source does not take its part back: then it alone has paid |
| `BillingSession.SettlementCharges` | service/billing_session.go:45-110 | a settlement the source accepts closes the bill and leaves source and token short of what was used, plus what is stuck or lost, the token of what was reserved if it refuses; one the source refuses changes nothing |
| `BillingSession.SettleChargesExactlyWhen` | service/billing_session.go:45-110 | a settlement makes the source pay what was used if and only if the bill was not refunded before or held nothing, and nothing is stuck with the source; the token likewise |
| `BillingSession.SettleAfterRefund` | service/billing_session.go:45-122 | the failing run from a fresh session: reserve, refund, settle |
| `BillingSession.FailedUndoOvercharges` | service/billing_session.go:355-368 | the failing run: reserve, a top-up that the token refuses and the wallet does not take back, settle |
| `BillingSession.ClosedSessionsAreFinal` | service/billing_session.go:45-215 | a settled session never moves money again, nor a refunded one except by settling |
| `ModelsDev.BuildCandidate` | controller/ratio_sync.go:845-879 | a candidate exists exactly when input and output are valid costs and no output is priced on a free input, and it carries those costs and a valid cache cost |
| `ModelsDev.BeforeExactlyWhen` | controller/ratio_sync.go:892 | one name comes before another if and only if they agree up to a place where the first ends or has the smaller character |
| `ModelsDev.BeforeTotal` | controller/ratio_sync.go:892 | of two names exactly one comes first, or they are equal |
| `ModelsDev.SortNames` | controller/ratio_sync.go:915-919 | all names, once each, in ascending order |
| `ModelsDev.SelectCandidates` | controller/ratio_sync.go:921-944 | a model is selected if and only if some provider offers it at a convertible price, and gets the winner of the fold over its offers in ascending order of the providers' names |
| `ModelsDev.SelectFrom` | controller/ratio_sync.go:921-944 | the loops keep for every model the winner of the fold over its candidates, and nothing for models without one |
| `ModelsDev.SelectedExactlyWhen` | controller/ratio_sync.go:921-944 | a model has a winner if and only if some provider offers it at a convertible price |
| `ModelsDev.AddProvider` | controller/ratio_sync.go:928-943 | a provider's models may be visited in any order |
| `ModelsDev.CandidatesInOrder` | controller/ratio_sync.go:915-944 | candidates come in provider order |
| `ModelsDev.CandidatesAre` | controller/ratio_sync.go:921-944 | the candidates are exactly the convertible costs the listed providers give for the model |
| `ModelsDev.WorthyStep` | controller/ratio_sync.go:881-904 | keeping or replacing the current choice against a later provider keeps it worthy |
| `ModelsDev.SelectionIsWorthy` | controller/ratio_sync.go:881-944 | a model with a candidate gets one of its candidates, priced if any is, and less than epsilon dearer than any priced one |
| `ModelsDev.BestBeatsEarlier` | controller/ratio_sync.go:881-904 | ties go to the first provider: the choice is cheaper than every priced candidate before it |
| `ModelsDev.BestDescends` | controller/ratio_sync.go:881-904 | the winner is reached from the first candidate by going each time to the first later one that has a price while the choice is free or is at least one billionth cheaper, until there is none |
| `ModelsDev.SelectionDescends` | controller/ratio_sync.go:881-944 | on the catalogue: the winner comes about that way from the offers in ascending order of names, and of two providers with the same positive price the one whose name comes first is chosen |
| `ModelsDev.DriftWithoutOrder` | controller/ratio_sync.go:48-53 | near-equality is not transitive, and in another provider order the same rule drifts past epsilon |
| `PricingDiff.CollectModels` | controller/ratio_sync.go:542-556 | exactly the models mentioned locally or by a channel |
| `PricingDiff.CollectConfidence` | controller/ratio_sync.go:558-591 | every channel's confidence in every model |
| `PricingDiff.ShowChannel` | controller/ratio_sync.go:606-624 | what an entry shows for a channel, and whether it counts as a difference, also against a missing local value |
| `PricingDiff.ShownIsTheEntry` | controller/ratio_sync.go:606-624 | said of the raw entries: what is shown for a channel is its own entry, an integer of a numeric field as a number, where the local one is missing or told apart from it, and otherwise the marker `same`; nothing is shown for an entry it does not have |
| `PricingDiff.LocalIsTheEntry` | controller/ratio_sync.go:595-600 | the local value shown is the raw local entry in the same form |
| `PricingDiff.ShowChannels` | controller/ratio_sync.go:605-641 | an entry is listed exactly when some channel differs there |
| `PricingDiff.DiffersExactlyWhen` | controller/ratio_sync.go:48-132 | a channel differs exactly when it has an entry and the local one is missing, null, a number at least epsilon away, or another value |
| `PricingDiff.UntrustedExactlyWhen` | controller/ratio_sync.go:558-591 | a channel is not trusted on a model exactly when it supplies a price of 37.5 and a completion ratio of 1, up to epsilon |
| `PricingDiff.BuildRaw` | controller/ratio_sync.go:593-654 | the listing before pruning, without empty rows |
| `PricingDiff.FindDiffering` | controller/ratio_sync.go:656-665 | exactly the channels shown with a real value somewhere |
| `PricingDiff.Prune` | controller/ratio_sync.go:667-693 | every entry without the other channels, or gone if only markers are left |
| `PricingDiff.BuildDifferences` | controller/ratio_sync.go:536-696 | the three phases together: every entry is the pruned one and truthful, and no row is empty |
| `PricingDiff.ReportedExactlyWhen` | controller/ratio_sync.go:536-696 | whatever the values and the names, an entry is reported if and only if some channel differs there and the last channel of some name, visibly different anywhere, shows something there |
| `PricingDiff.ProperReportedExactlyWhen` | controller/ratio_sync.go:536-696 | for proper values and any names: if and only if the last channel of a name differs there, or an earlier namesake does and the last channel of some name that differs elsewhere supplies nothing there |
| `PricingDiff.EntriesAreExact` | controller/ratio_sync.go:536-696 | for proper values and distinct names an entry is reported if and only if some channel supplies a value absent locally or not equal, so pruning removes no entry |
| `PricingDiff.EntriesAreFaithful` | controller/ratio_sync.go:536-696 | for proper values it lists exactly the last channels of their names with a difference anywhere |
| `PricingDiff.EntriesAreTruthful` | controller/ratio_sync.go:536-696 | whatever the values and the names, a reported entry shows the raw local entry, and exactly the last channels of their names that visibly differ somewhere, each with its own raw entry or the marker, trusted unless it supplies the placeholder pair |
| `PricingDiff.ProperDifferencesShow` | controller/ratio_sync.go:606-624 | a difference between proper values always shows |
| `PricingDiff.NullValuesAreLost` | controller/ratio_sync.go:656-693 | the differences of a channel that supplies only nulls are lost |
| `PricingDiff.DuplicateNameIsLost` | controller/ratio_sync.go:605-641 | a difference is lost when a later channel has the same name |

## Left out

- HTTP handlers, request and response JSON, translations, audit records, email, login, passkeys and payments: plumbing around libraries and the database.
- The database: an update is accepted or refused as a parameter says, and a refused one changes nothing; refreshing caches after a save is not modelled.
- The clock, the regular-expression engine, the JSON array reader and the redirect text parser are parameters.
- Concurrency: the mutexes of the limiter, the store, the storages and the billing session make their steps atomic, and the model starts there. Two requests that both find room on disk before either is counted are not modelled.
- Protocol adaptors and the conversion between provider formats.
- Redis rate limiting, system monitors, profiling, and environment loading.
- Audio formats other than Ogg Opus; they delegate to libraries.
- Notifications, task scheduling and summaries of the upstream check.
- RateLimit.LimiterIsExact: the window of a key is fixed; a setting that changes it while requests are counted is covered by RefusalsAreRight only.
- RateLimit.InMemoryRateLimiter.Request: a negative limit, for which making the queue panics, is not modelled.
- RateLimit.InMemoryRateLimiter.constructor: expirations are whole seconds; a positive one below a second is not modelled.
- VerificationStore: generating the codes.
- MultiKey.MultiKeyChannel.Update: a refused database write and the reload after a write are not modelled.
- KeyStatus.BuildRows: the shortened key is cut by characters where the code cuts by bytes.
- KeyStatus.GetKeyStatus: the shortened key is cut by characters where the code cuts by bytes.
- KeyAppend.AppendKeys: how a Vertex AI array is parsed is a parameter.
- BodyStorage.DiskStorage.Read: failing disk operations, and the difference between closing a memory reader (nothing happens) and a disk reader.
- BodyStorage.DiskStorage.Seek: what a file does for a whence other than the three defined ones depends on the system; nothing is stated, and the comparison of the storages leaves those out.
- BodyStorage.DiskStorage.Bytes: failing disk operations.
- BodyStorage.DiskStorage.NewReader: a file that cannot be opened.
- BodyAccounts.BodyCache.CreateBodyStorageFromReader: the hit counters are not modelled.
- BodyAccounts.EveryRunBalanced: the cleanup of old cache files and the resets of the counters, which change counters without a storage.
- BodyReplay.RequestContext.UnmarshalBodyReusable: the decoders for JSON, forms and multipart bodies are reduced to what they read and whether they accept.
- RelayRetry.RelayTask: requests for a video account, which take another path.
- RelayRetry.Relay: realtime connections, token estimation and sensitive-word checks before the reservation, violation fees, and the settlement that a successful relay performs inside the provider adaptor.
- BillingSession.Session.FundFromSubscription: packages counted in images are not modelled.
- BillingSession.Session.SettleQuota: packages counted in images are not modelled.
- BillingSession.Session.RefundQuota: the refund happens at once, where the code runs it in the background.
- BillingSession.EveryRunAccounted: packages counted in images are not modelled.
- BillingSession: choosing between wallet and subscription, and the trust rule, which is a parameter.
- PricingDiff: fetching the sites, and values that are objects or arrays.
- ModelsDev: rounding, and the ratios computed from the selected candidate. OpenRouter conversion.
- QuotaMath.ConvertIsLimitedExact: floats are reals with infinities and NaN; the rounding of a decimal to a float before the conversion is not modelled.
- VersionOrder.OffersUpdate: reading the numbers off a version text is a parameter.
- The other dashboards, statistics, model metadata synchronisation, and the web front end.
