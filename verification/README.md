# Home Edge, verified kernels

Home Edge is a small Home Assistant compatible controller. Around its HTTP handlers lie a few kernels whose
behaviour is not evident from reading one function. This project models them in Dafny and proves what they keep
over every input, every run and every interleaving.

| file | what it models |
|---|---|
| `Text.dfy`, `Decimal.dfy` | the string and number primitives of Rust the codecs use |
| `Calendar.dfy` | three Gregorian conversions, each against a calendar counted day by day |
| `Timestamp.dfy` | printing and reading ISO 8601 timestamps |
| `StateStore.dfy` | the entity store, its `last_changed` rule and its 256-slot broadcast ring |
| `Subscriber.dfy` | a WebSocket subscriber that mirrors the store through that lossy ring |
| `TokenStore.dfy` | OAuth codes and tokens with lazy expiry and reload, against a ledger that forgets nothing |
| `TokenSaves.dfy` | the token store's saves apart from its calls: overlapping, failing, landing out of order |
| `CrashDisk.dfy`, `DurableStore.dfy`, `ZoneStore.dfy` | the temp-file, sync, rename protocol under a lock and a cache, with failed calls, dropped tasks, restarts and power losses |
| `History.dfy`, `Statistics.dfy`, `Timeline.dfy` | reading rings over a table, incremental five-minute statistics, the on/off timeline |
| `Colour.dfy` | RGB to hue and saturation and back |
| `PercentCodec.dfy`, `HtmlEscape.dfy` | percent encoding, the authorization redirect, the two HTML escapers |
| `EntityIds.dfy` | object ids from free text, registration keys, registering |
| `WsConnection.dfy` | the handshake, replies and events of one WebSocket connection |
| `Onboarding.dfy` | onboarding handlers whose load and update steps interleave |
| `NumberText.dfy` | the trimmed two-decimal text of a restored sensor value |

Code that changes state is modelled by classes and methods with loops; each method's contract ties the new state to
a function of the old one, and the lemmas prove what the source promises about that function. What runs
concurrently (subscriber task, save protocol, connection, onboarding handlers) is a machine of single steps, and
the theorems quantify over every sequence of steps. The runtime has one thread, so code between two suspension
points is one step.

Clocks, fresh UUIDs, file system outcomes, the Unicode part of `slugify`, `str::parse::<f64>` and
`String::from_utf8_lossy` are parameters. Where a parameter must behave in some way, a `requires` says so.
Integers are unbounded; the places where the source's 64-bit arithmetic could fault are explicit in
`Timestamp.Reading`.

## What a reader may not expect

The model follows the code.

- A failed authentication leaves the connection open for another try, and a command that does not parse is ignored;
  the comment at crates/controller/src/ha_ws.rs:316 speaks of closing the connection.
- The format test of `now_iso8601` expects 32 characters; that holds up to the year 9999 and for no later year
  (`Timestamp.TextOrderEndsAtYear10000`).
- A ring of capacity 0 keeps one entry (`History.Kept`).
- A removal is not broadcast, so a subscriber keeps showing a removed entity (`Subscriber.MirrorIsExact`).
- `save_persisted` takes its snapshot and writes it without a lock in between, so a revoked token can come back with a
  restart (`TokenSaves.OldSnapshotRevives`).
- A process that starts behind a rename reads the new value before the directory sync has made it lasting
  (`DurableStore.EverySaveCanLoseARead`).
- The lock of a store ends with the task that holds it, and the blocking save does not (`DurableStore.CrowdedSaveTears`).
- Completing or bootstrapping onboarding erases finished analytics and integration steps
  (`Onboarding.FinishedExactlyWhen`).
- A redirect URI with a fragment swallows code and state (`PercentCodec.FragmentSwallowsState`).

## Model

| member | source | states |
|---|---|---|
| Calendar.DaysToYmd | crates/controller/src/state_store.rs:136-176 | the subtraction loops end, never underflow, and give the date reached by counting that many days from 1970-01-01 |
| Calendar.DateToEpochDays | crates/controller/src/ha_ws.rs:1211-1221 | the summation loops give the number of days of every valid date, and exactly what they sum to on every other argument they accept |
| Calendar.RoundTrips | crates/controller/src/ha_ws.rs:1211-1221 | the two loops undo each other, from every day count and from every valid date |
| Calendar.CivilDateHasItsNumber | crates/controller/src/ha_ws.rs:1211-1221 | summing years and months agrees with counting day by day |
| Calendar.DayNumberKeepsOrder | crates/controller/src/ha_ws.rs:1211-1221 | an earlier date has a smaller day number, and conversely; different dates have different numbers |
| Calendar.CivilDateKeepsOrder | crates/controller/src/state_store.rs:136-176 | day counts and dates are in the same order, in both directions |
| Calendar.YearOfEraIsExact | crates/controller/src/long_lived_token_store.rs:158 | the corrected division finds the right year of the 400-year era for each of its 146097 days |
| Calendar.DaysBeforeYearClosed | crates/controller/src/state_store.rs:141-149 | the sum of year lengths equals the count of leap years by division |
| Calendar.ClosedFormIsCivil | crates/controller/src/long_lived_token_store.rs:154-166 | the era formula gives the same date as counting, hence as the loops, for every day count |
| Timestamp.NowIso8601 | crates/controller/src/state_store.rs:111-134 | the cascaded divisions print the civil date and the clock time of the instant |
| Timestamp.LayoutOfNow | crates/controller/src/state_store.rs:111-121 | below year 10000 each field of the date and the clock time stands at its place, in digits of its value, between the separators |
| Timestamp.TodayIsTheDateOfNow | crates/controller/src/long_lived_token_store.rs:146-166 | the closed form prints the date that the timestamp of the same second begins with |
| Timestamp.IsoRoundTrip | crates/controller/src/ha_ws.rs:1183-1209 | reading a printed timestamp gives exactly its seconds and microseconds, for every 64-bit second |
| Timestamp.TextOrderIsTimeOrder | crates/controller/src/state_store.rs:111-121 | below year 10000 the text has 32 characters, and text order is time order |
| Timestamp.TextOrderEndsAtYear10000 | crates/controller/src/state_store.rs:111-121 | 32 characters exactly below year 10000; the next ten thousand years sort before the years 2000 to 9999 |
| StateStore.StateStore.Set | crates/controller/src/state_store.rs:68-91 | each of the two errors, in the order they are tested, and otherwise the merged entry and the broadcast of one call |
| StateStore.ValidIdsAre | crates/ha-types/src/entity.rs:60-74 | a valid entity id is a domain and an object id of lower-case letters, digits and underscores, neither empty, joined by one dot |
| StateStore.StateStore.All | crates/controller/src/state_store.rs:53-56 | every stored state is returned once and nothing else |
| StateStore.StateStore.Remove | crates/controller/src/state_store.rs:99-102 | the entry goes, nothing is broadcast, the result says whether it existed |
| StateStore.StateStore.Subscribe | crates/controller/src/state_store.rs:94-96 | a new receiver has nothing to read yet |
| StateStore.StoreHoldsLastSet | crates/controller/src/state_store.rs:68-102 | after any history the store holds exactly the entities whose last touching call set them, with that call's fields |
| StateStore.LastChangedIsRunStart | crates/controller/src/state_store.rs:75-88 | `last_changed` is the time supplied by the call that began the current unbroken run of equal values |
| StateStore.EveryEntryHasARun | crates/controller/src/state_store.rs:75-88 | every stored entity has such a run |
| StateStore.RingAndStates | crates/controller/src/state_store.rs:44-50 | the ring holds the last 256 events, and a stored state is the one its last event carried |
| StateStore.OldStateIsThePreviousOne | crates/controller/src/state_store.rs:75-89 | every event was sent by one accepted call, and its old state is what the store held just before that call: the state of the entity's previous event, or nothing exactly if the entity was never set or was removed last |
| Subscriber.ReceiveReadsLog | crates/controller/src/ha_ws.rs:1274-1294 | a receiver gets the next event in order, or is put forward to the oldest one still held |
| Subscriber.StepKeepsInv | crates/controller/src/ha_ws.rs:1250-1298 | no message is lost, repeated or reordered between ring and client, and the events taken are in order |
| Subscriber.ViewIsNeverInvented | crates/controller/src/ha_ws.rs:1257-1290 | whatever value, attributes and timestamps the client shows for an entity, the store held exactly those at some moment since the subscription; field by field |
| Subscriber.DrainedEqualsStore | crates/controller/src/ha_ws.rs:505-511 | once drained, the client shows value, attributes and both timestamps of the store for each entity whose latest event was not skipped, unless it was removed |
| Subscriber.MirrorIsExact | crates/controller/src/ha_ws.rs:505-511 | without lag a drained client shows the whole store, field by field, exactly when no entity that is removed now was in its snapshot or set since |
| Subscriber.SnapshotDrains | crates/controller/src/ha_ws.rs:1257-1266 | after any history a new subscriber drains to its snapshot, field by field, without lag |
| Subscriber.EveryClientCanCatchUp | crates/controller/src/ha_ws.rs:1268-1298 | from every reachable world the client can be drained while the store rests, and a task the ring has not overrun loses nothing more |
| Subscriber.ShownChangeIsRunStart | crates/controller/src/ha_ws.rs:1183-1228 | the number a drained client shows as `lc` is the instant, to the microsecond, of the call that began the current run of equal values |
| TokenStore.TokenStore.constructor | crates/controller/src/ha_auth.rs:144-167 | a new process takes both tables from a file that parses, and none and no codes from a missing or garbled one; over the file of another store it is that store restarted |
| TokenStore.TokenStore.IssueAuthCode | crates/controller/src/ha_auth.rs:195-207 | the sweep and the new code |
| TokenStore.TokenStore.ExchangeAuthCode | crates/controller/src/ha_auth.rs:211-240 | a code is used up by any try; a pair is issued only in time and to its client, whether or not the save lands |
| TokenStore.TokenStore.RefreshAccessToken | crates/controller/src/ha_auth.rs:244-270 | a live refresh token gives an access token of its client, checked against the claimed client if there is one |
| TokenStore.TokenStore.RevokeRefreshToken | crates/controller/src/ha_auth.rs:274-282 | the refresh token and all access tokens of its client go from memory, and from the file if the save lands |
| TokenStore.TokenStore.ValidateAccessToken | crates/controller/src/ha_auth.rs:292-302 | the verdict, and the eviction of an expired entry from memory only |
| TokenStore.StepRefines | crates/controller/src/ha_auth.rs:144-302 | every call whose save completes with it answers as the ledger without sweep, eviction and reload does, and stays in agreement with it |
| TokenStore.RunAnswersLikeLedger | crates/controller/src/ha_auth.rs:144-302 | so over every run with clocks that do not go back, through any restarts |
| TokenStore.Reopen | crates/controller/src/ha_auth.rs:144-167 | a store built over the file any well-timed run has left agrees with the ledger of that run and a restart, so every result on runs holds of it |
| TokenStore.AccessTokenValidity | crates/controller/src/ha_auth.rs:274-302 | a token validates exactly if it was issued at most 1800 seconds ago and no refresh token of its client was revoked since |
| TokenStore.CodeYieldsPair | crates/controller/src/ha_auth.rs:211-240 | where saves complete with their calls, an exchange is answered with a pair exactly if its code was issued to the same client at most 60 seconds before by a call since which it was neither tried nor issued again nor lost in a restart |
| TokenStore.OnePairPerIssue | crates/controller/src/ha_auth.rs:211-240 | between any exchange of a code and a later one that is answered with a pair, a call issued the code anew |
| TokenStore.SweepIsExact | crates/controller/src/ha_auth.rs:195-207 | the sweep removes exactly the codes every later exchange would refuse |
| TokenStore.EveryHolderCanRenew | crates/controller/src/ha_auth.rs:211-282 | the client of every access token holds a live refresh token, in memory and after a reload |
| TokenSaves.StepKeepsInv | crates/controller/src/ha_auth.rs:171-192 | calls, snapshots, writes that land or fail in any order, and restarts keep memory, file and every snapshot in agreement with the facts they have seen |
| TokenSaves.AnswersLikeForgetfulLedger | crates/controller/src/ha_auth.rs:171-302 | however saves overlap, the store answers as a ledger that forgets, at a restart, exactly what the file does not show |
| TokenSaves.AccessTokenValidityAnyway | crates/controller/src/ha_auth.rs:292-302 | under every schedule of saves a token validates exactly if it was issued at most 1800 seconds ago and no refresh token of its client was revoked since, by the facts that ledger has |
| TokenSaves.CodeYieldsPairAnyway | crates/controller/src/ha_auth.rs:211-240 | under every schedule of saves an exchange yields a pair exactly when its code is due, told from the calls alone |
| TokenSaves.OnePairPerIssueAnyway | crates/controller/src/ha_auth.rs:211-240 | under every schedule of saves one issued code yields at most one pair |
| TokenSaves.EveryHolderCanRenewAnyway | crates/controller/src/ha_auth.rs:171-302 | under every schedule of saves the clients of all access tokens hold a live refresh token, in memory, in the file and in every snapshot on its way |
| TokenSaves.ShownAtSnapshot | crates/controller/src/ha_auth.rs:171-192 | the file shows the facts there were when the snapshot was taken whose write landed last |
| TokenSaves.RefreshTokenAfterRestart | crates/controller/src/ha_auth.rs:144-167 | exactly when a restart leaves a refresh token as it is, loses it, or brings a revoked one back |
| TokenSaves.AccessTokenAfterRestart | crates/controller/src/ha_auth.rs:292-302 | exactly when an access token validates before and after a restart, by what the file shows |
| TokenSaves.OrderedSavesAreDurable | crates/controller/src/ha_auth.rs:171-192 | if writes land in the order of their snapshots, a restart with no save on its way forgets nothing |
| TokenSaves.OldSnapshotRevives | crates/controller/src/ha_auth.rs:274-282 | an older snapshot that lands behind a saved revocation brings the revoked token back at the next restart |
| DurableStore.StepKeepsInv | crates/controller/src/storage.rs:244-285 | every step, failed call, dropped task, restart and power loss keeps the names the disk may come back with on exactly the possible values, whole and synced, each grown from the last Ok value |
| DurableStore.PowerLossIsSafe | crates/controller/src/storage.rs:244-285 | a power loss at any step brings back a whole value that was renamed into place and grew from the last Ok one, at most one job away from what the process worked on |
| DurableStore.OkIsNeverLost | crates/controller/src/storage.rs:244-285 | what comes back at any later step, through any number of restarts and power losses, grew from every value whose operation returned Ok |
| DurableStore.WhatMayComeBack | crates/controller/src/storage.rs:269-277 | what may come back is exactly: the last Ok value unless a directory sync has replaced it, the value in flight, and those stored by operations that failed, were dropped or died behind their rename since the last successful directory sync; so it is one of the first two exactly if the others stored no other value |
| DurableStore.ReadersAreNeverAhead | crates/controller/src/zone_store.rs:218-241 | unless a process started behind a rename that no directory sync has followed yet, whatever any reader was given, what a power loss brings back is that value or grew from it |
| DurableStore.ReadersAreGivenTheLine | crates/controller/src/zone_store.rs:218-241 | what readers are given is the value that ends the history the process works on |
| DurableStore.FirstReadBehindRename | crates/controller/src/zone_store.rs:226-241 | a process that starts behind such a rename gives its first reader the value renamed last; a power loss may bring back each other name's value, and none of these has it |
| DurableStore.EverySaveCanLoseARead | crates/controller/src/zone_store.rs:226-241 | so every save, from any step before its rename on, can lead to a reader being given its value and a power loss bringing back the one before |
| DurableStore.CommitsFollowEachOther | crates/controller/src/zone_store.rs:208-212 | what returns Ok is its job's result on the value the process worked on, which grew from the last Ok value: no update is lost |
| DurableStore.UndisturbedOperation | crates/controller/src/zone_store.rs:192-212 | an operation whose calls all succeed returns Ok: its result is in the file and the cache and the only value that may come back; one that finds nothing to change leaves the disk as it is |
| DurableStore.FailedDirSyncIsUnsafe | crates/controller/src/storage.rs:269-277 | if the directory sync fails for a new value, the operation returns an error and its value, which is not the last Ok one, may come back |
| DurableStore.CrowdedSaveTears | crates/controller/src/storage.rs:257-281 | once a save begins while the save of a dropped task has its rename ahead, there is a way on behind which the file does not parse |
| DurableStore.CrowdingOccurs | crates/controller/src/storage.rs:257-281 | such a run exists |
| ZoneStore.ZoneStore.SaveBytesAtomic | crates/controller/src/storage.rs:244-285 | the values a power loss may bring back behind a save that succeeds, fails before the rename, or fails at the directory sync |
| ZoneStore.ZoneStore.LoadLocked | crates/controller/src/zone_store.rs:226-241 | the data comes from the cache, else from the file, and then fills the cache; an unreadable file or one that does not parse is an error |
| ZoneStore.Slugify | crates/controller/src/zone_store.rs:310-316 | the loop keeps the alphanumeric characters and underscores of the lower-cased name, spaces as underscores |
| ZoneStore.SlugByCharacter | crates/controller/src/zone_store.rs:310-316 | character by character: spaces become underscores, alphanumeric characters and underscores stay, all others go, in order |
| ZoneStore.RejectedNames | crates/controller/src/zone_store.rs:116-121 | a name is rejected exactly if it has no alphanumeric character |
| ZoneStore.ZoneStore.Create | crates/controller/src/zone_store.rs:103-142 | the new zone, its id and defaults; the rejected name; nothing changed on failure, except that a failed directory sync leaves the new list among those that may come back |
| ZoneStore.NewZoneInFields | crates/controller/src/zone_store.rs:122-138 | a taken slug gets the suffix, radius and passive default to 100 and false, and every other field is as given |
| ZoneStore.ZoneStore.Update | crates/controller/src/zone_store.rs:148-185 | the patched zone, the missing id, and every failure |
| ZoneStore.PatchChangesItsFields | crates/controller/src/zone_store.rs:163-180 | a patch changes exactly the fields it names, and never the id |
| ZoneStore.UpdatedPatchesOne | crates/controller/src/zone_store.rs:161-182 | an update changes the one zone with the id and leaves the others as they are, in order |
| ZoneStore.ZoneStore.Delete | crates/controller/src/zone_store.rs:192-202 | the zone goes exactly if it was there, and every failure |
| ZoneStore.WhatMayComeBack | crates/controller/src/zone_store.rs:208-212 | a power loss brings back exactly the list of the last successful operation or one whose directory sync failed since |
| ZoneStore.DeletedKeepsOthers | crates/controller/src/zone_store.rs:196-199 | exactly the other zones stay |
| ZoneStore.DeletedTakesOneOut | crates/controller/src/zone_store.rs:196-199 | a deletion takes that zone out and leaves the others as they are, in order |
| ZoneStore.IdsStayUnique | crates/controller/src/zone_store.rs:122-126 | zone ids stay unique through every operation |
| History.PushMirrors | crates/controller/src/history_store.rs:59-64 | a ring stays the last entries of its log, at every capacity |
| History.RecentIsSuffixOfLog | crates/controller/src/history_store.rs:66-76 | `last_n` is the suffix of the log, oldest first |
| History.HistoryStore.Open | crates/controller/src/history_store.rs:140-163 | warming up row by row gives the rings of the ordered rows |
| History.HistoryStore.Record | crates/controller/src/history_store.rs:174-203 | one reading goes to its ring at once and to the table later |
| History.HistoryStore.LastReadings | crates/controller/src/history_store.rs:240-247 | the sparkline shows the suffix of the entity's log |
| History.HistoryStore.SinceInMemory | crates/controller/src/history_store.rs:279-290 | the fallback answers from the kept suffix |
| History.WarmUpRebuilds | crates/controller/src/history_store.rs:140-163 | a store opened over the table has the rings of the store that wrote it exactly if, of every entity and second, the readings a ring keeps landed in order; the order of all other writes does not matter |
| History.TableAnswersLikeLog | crates/controller/src/history_store.rs:252-278 | the table's answer is the log's entries at or after the bound exactly if those of one second landed in order |
| History.FallbackAgreesUnlessEvicted | crates/controller/src/history_store.rs:252-290 | the two answers are equal exactly if the newest evicted entry is older than the bound and the readings of one second landed in order |
| Statistics.StatsForSlice | crates/controller/src/history_store.rs:577-595 | the batch loop gives minimum, mean and maximum of a slice, and nothing for an empty one |
| Statistics.TableSummarises | crates/controller/src/history_store.rs:214-236 | after any upserts a bucket exists exactly if its window has readings, and summarises them |
| Statistics.BucketsEqualBatch | crates/controller/src/history_store.rs:209-236 | incremental statistics equal the batch statistics of the window, in any completion order |
| Statistics.PageShowsCoveredReadings | crates/controller/src/http.rs:593-597 | the page's minimum and maximum are those of the readings covered, and its mean of means lies between them |
| Timeline.Segments | crates/controller/src/history_store.rs:628-649 | the segments tile exactly from the first entry or `since` to now, coloured by the last entry at or before each instant |
| Timeline.OneColourAtATime | crates/controller/src/history_store.rs:628-649 | exactly the instants in that range are covered, by disjoint, ordered segments |
| Timeline.SomeEntryIsLast | crates/controller/src/history_store.rs:628-649 | every instant from the first entry on has a last entry at or before it |
| Colour.HsRoundTrip | crates/controller/src/zigbee_integration.rs:475-492 | hue and saturation survive the way to RGB and back exactly if the saturation is not 0 or the hue is 0 |
| Colour.HsToRgbIsTextbook | crates/controller/src/zigbee_integration.rs:475-490 | for every hue and saturation the six sectors are the textbook formula, one curve of the hue shifted for each channel |
| Colour.RgbRoundTrip | crates/controller/src/http.rs:2107-2126 | the way to hue and saturation and back keeps the proportions and raises the largest channel to full |
| Colour.BytesRoundTrip | crates/controller/src/zigbee_integration.rs:491 | on bytes each channel comes back scaled by 255 / max and rounded |
| Colour.BytesSurvive | crates/controller/src/http.rs:2107-2126 | a byte colour survives exactly if its largest channel is 255; black comes back white |
| PercentCodec.PercentEncode | crates/controller/src/ha_auth.rs:1153-1165 | the encoding loop computes the per-byte encoding |
| PercentCodec.PercentDecode | crates/controller/src/ha_auth.rs:1123-1151 | the decoding loop computes the decoding, with plus signs, malformed and cut-off escapes |
| PercentCodec.RoundTrip | crates/controller/src/ha_auth.rs:1123-1165 | decoding undoes encoding on every string |
| PercentCodec.EncodedAlphabet | crates/controller/src/ha_auth.rs:1153-1165 | encoded text holds unreserved characters and percent signs only |
| PercentCodec.EncodedInCharacters | crates/controller/src/ha_auth.rs:1153-1165 | which characters stay, and the two upper-case hexadecimal digits of every other byte |
| PercentCodec.EscapeIsByte | crates/controller/src/ha_auth.rs:1123-1151 | two hexadecimal digits of either case behind a percent sign read as their byte |
| PercentCodec.PlusIsSpace | crates/controller/src/ha_auth.rs:1123-1151 | a plus sign reads as a space |
| PercentCodec.HexDigitsAre | crates/controller/src/ha_auth.rs:1167-1174 | a byte reads as a hexadecimal digit exactly if it is one of `0-9`, `A-F`, `a-f` |
| PercentCodec.OtherBytesStay | crates/controller/src/ha_auth.rs:1123-1151 | every byte but a plus sign and a well-formed escape reads as itself |
| PercentCodec.BuildAuthorizeRedirect | crates/controller/src/ha_auth.rs:1080-1088 | the location with its separator, code and encoded state |
| PercentCodec.CodeReachesClient | crates/controller/src/ha_auth.rs:1080-1088 | for every fragment-free redirect URI the location begins with it and a client that looks up any key finds the issued code, the encoded state, and otherwise what the URI has |
| PercentCodec.ParseAuthorizeRequest | crates/controller/src/ha_auth.rs:1046-1065 | the loop over the query's pairs, later pairs overwriting earlier ones |
| PercentCodec.FieldsAreLastValues | crates/controller/src/ha_auth.rs:1046-1065 | each field of a parsed request is the decoded value of the last pair with its key |
| PercentCodec.StateComesBack | crates/controller/src/ha_auth.rs:1080-1088 | for every fragment-free redirect URI the client parses its own request with exactly the state that was sent |
| PercentCodec.FragmentSwallowsState | crates/controller/src/ha_auth.rs:1080-1088 | with a fragment, what the client parses does not depend on code or state |
| HtmlEscape.EscapersAgree | crates/controller/src/http.rs:1784-1789 | four successive replacements are one substitution per character, in either order, so the two escapers agree |
| HtmlEscape.EscapedInCharacters | crates/controller/src/http.rs:1784-1789 | the four characters come out as their entities in literal text, all others as themselves, texts piece by piece, for both escapers |
| HtmlEscape.EscapeIsInvertible | crates/controller/src/ha_auth.rs:1115-1121 | escaped text reads back as the original |
| HtmlEscape.NoMarkupLeft | crates/controller/src/ha_auth.rs:1115-1121 | no quote or angle bracket is left |
| EntityIds.SanitizeObjectId | crates/controller/src/mobile_entity_store.rs:308-335 | the loop lower-cases, splits at runs of other characters, joins with underscores, or says `entity` |
| EntityIds.WordCharactersSurvive | crates/controller/src/mobile_entity_store.rs:308-335 | every letter and digit survives, in order and in lower case; a text without any becomes `entity` |
| EntityIds.WordsEndAtSeparators | crates/controller/src/mobile_entity_store.rs:308-335 | every other character keeps the words before and behind it apart |
| EntityIds.WordsEndNowhereElse | crates/controller/src/mobile_entity_store.rs:308-335 | a text of letters and digits only is one word |
| EntityIds.SanitizeIsIdempotent | crates/controller/src/mobile_entity_store.rs:308-335 | sanitising twice is sanitising once |
| EntityIds.DerivedIdIsValid | crates/ha-types/src/entity.rs:60-74 | every derived entity id is one the state store accepts |
| EntityIds.KeysAreInjective | crates/controller/src/mobile_entity_store.rs:297-299 | for webhook ids without a colon a key belongs to one registration |
| EntityIds.AmbiguousKeys | crates/controller/src/mobile_entity_store.rs:297-299 | exactly which registrations share their key with another |
| EntityIds.MobileEntityStore.Register | crates/controller/src/mobile_entity_store.rs:94-139 | the record written and its id; the rejected registration; a failed save, which changes nothing and is not needed for a record that is already there |
| EntityIds.RegisterIsLocal | crates/controller/src/mobile_entity_store.rs:94-139 | registering touches no other registration's record, and registering again keeps the id |
| EntityIds.EntityIdsCollide | crates/controller/src/mobile_entity_store.rs:301-306 | two registrations get the same entity id exactly if they are of one type and their webhook and unique ids consist of the same words |
| EntityIds.EveryIdIsShared | crates/controller/src/mobile_entity_store.rs:301-306 | for every registration there is another one, with another key, that gets the same entity id |
| WsConnection.Connection.HandleAuthPhase | crates/controller/src/ha_ws.rs:264-297 | only a valid token opens the active phase |
| WsConnection.Connection.DispatchCommand | crates/controller/src/ha_ws.rs:326-541 | the reply and the tasks and handles for each request, spelled out |
| WsConnection.Connection.HandleSocket | crates/controller/src/ha_ws.rs:181-259 | the loop computes the run of its inputs, and its output is ordered, with events behind their confirmations and replies in order of arrival |
| WsConnection.TraceIsOrdered | crates/controller/src/ha_ws.rs:181-259 | `auth_required` is first and only first, no reply or event precedes `auth_ok`, every event follows the reply that confirmed its subscription |
| WsConnection.ActiveExactlyWhen | crates/controller/src/ha_ws.rs:264-297 | a connection is authenticated exactly if it read a valid token behind its greeting |
| WsConnection.RepliesInOrder | crates/controller/src/ha_ws.rs:303-323 | every command that parsed gets exactly one reply, in order of arrival |
| WsConnection.EveryCommandIsReceived | crates/controller/src/ha_ws.rs:303-323 | the commands answered are exactly the ones that parsed behind authentication, in order of arrival |
| WsConnection.RepliesAreRight | crates/controller/src/ha_ws.rs:326-541 | every reply says what is due: pong to a ping and to nothing else, success to an unsubscribe exactly if a subscribe with that id was handled and no unsubscribe for it since |
| WsConnection.EventsInOrder | crates/controller/src/ha_ws.rs:181-259 | on an open connection no event is lost, repeated or reordered between the tasks and the client |
| WsConnection.RunningTasks | crates/controller/src/ha_ws.rs:505-542 | exactly which tasks run after any inputs, and for which subscription |
| WsConnection.UnsubscribedTaskIsGone | crates/controller/src/ha_ws.rs:528-542 | behind an unsubscribe that succeeded, the task started last under its id never runs again |
| Onboarding.StepKeepsInv | crates/controller/src/core.rs:912-1068 | a core configuration in waiting has seen the user step; no step un-onboards, drops the user, or takes back a finished user or core configuration step |
| Onboarding.OnboardingOnlyAdvances | crates/controller/src/core.rs:912-1068 | in every interleaving onboarded implies both steps done, and neither onboarding nor the presence of a user is lost |
| Onboarding.OnboardedExactlyWhen | crates/controller/src/core.rs:952-1068 | in every interleaving the home is onboarded exactly if some core configuration, completion or bootstrap succeeded |
| Onboarding.AloneAStepIsFinished | crates/controller/src/core.rs:912-1068 | without another handler in between, a handler finishes its step, or changes nothing if it is finished or has no user to configure for |
| Onboarding.FieldIsTheLastStored | crates/controller/src/core.rs:912-1068 | in every stretch of every run each stored field is the one the last update storing it was given, or unchanged if there is none |
| Onboarding.StoredUserIsTheLast | crates/controller/src/core.rs:912-1068 | in every stretch of every run the stored user is the user of the last creation or the owner of the last bootstrap, whichever came later |
| Onboarding.CreationReplacesUser | crates/controller/src/core.rs:912-950 | a creation that goes on stores its own user, and replaces another one exactly if some update stored a user after the creation loaded the record |
| Onboarding.StepIsRecordedTwice | crates/controller/src/core.rs:912-1020 | a handler records its step a second time exactly if an update recorded the step after the handler's load and none erased it since |
| Onboarding.FinishedExactlyWhen | crates/controller/src/core.rs:1022-1068 | a finished step survives a stretch exactly if no completion and no bootstrap erased it, or it was recorded again after the last of them; the user and core configuration steps are never erased |
| Onboarding.OverlapOverwritesUser | crates/controller/src/core.rs:912-950 | both cases occur: two overlapping user creations, and the same two one after the other |
| NumberText.PrintIsClose | crates/controller/src/zigbee_integration.rs:701-705 | the printed text reads as a number within 0.005 of the value, exactly for whole values below 1e9 |
| NumberText.PrintIsShortest | crates/controller/src/zigbee_integration.rs:701-705 | at most two decimals, no zero behind them, none for a whole value, and a minus sign exactly for a negative value |

## Left out

- HTTP routing, templates, SVG text and pixel scaling, JSON shapes, mDNS and the command line tools: no state worth proving.
- Floating point: colours, statistics and sensor values are reals; NaN and infinities as readings do not occur.
- TokenStore.StepRefines: takes each save as complete when its call is, and so do the results on runs behind it; `TokenSaves` drops that for each of them, and is exact about what overlapping and failed saves do to a restart.
- TokenStore.TokenStore.constructor: a token file that exists and cannot be read stops the start; there is no store then.
- TokenSaves.StepKeepsInv: a write lands whole or not at all. The two overlapping saves of one file also share one temporary file, and what that can do to it is `DurableStore.CrowdedSaveTears`.
- DurableStore.PowerLossIsSafe: holds as long as no save begins while that of a dropped task has its rename ahead; `DurableStore.CrowdedSaveTears` shows that this cannot be weakened.
- DurableStore.ReadersAreNeverAhead: does not hold behind a restart between a rename and the next directory sync; `DurableStore.EverySaveCanLoseARead` gives the run.
- ZoneStore.ZoneStore.Create: lower-casing and the test for alphanumeric characters are parameters, since Unicode is not modelled.
- ZoneStore.IdsStayUnique: the suffix of a fresh UUID is taken to make a fresh id, as the source does.
- History.WarmUpRebuilds: every write reaches the table, and the clock does not go back.
- History.RecentIsSuffixOfLog: a ring is a value with functions, because the store's map owns its rings and nothing else refers to them.
- Statistics.TableSummarises: the statistics table is a map changed by the upsert statement; its writes on other threads appear as an arbitrary order of readings.
- Subscriber.MirrorIsExact: an event sent while nobody listens is recorded although tokio drops it; no receiver can tell. Other subscriptions may fill the shared queue; that only delays a push.
- Subscriber.DrainedEqualsStore: a stored timestamp whose reading faults would end the pushing task; timestamps the controller prints never do (`Timestamp.IsoRoundTrip`), and an empty one reads as 0.
- EntityIds.MobileEntityStore.Register: how a save fails is the protocol of `DurableStore` and is not repeated; device class, unit and the other optional fields are one map.
- WsConnection.Connection.DispatchCommand: commands that touch no subscription are one case with an arbitrary outcome. Nothing is claimed about silence after unsubscribing, since queued events may still be sent.
- Onboarding.OnboardingOnlyAdvances: the runtime mode beside the record, the copy of the user that `save_user` writes to its own file, the password hash and the home zone coordinates are not modelled.
- The other registries (areas, labels, persons, devices, notifications) follow the pattern of `ZoneStore` and would add easy members only.
- Long-lived token creation and hashing, the login flow store and the service catalogue: one-branch lookups.
