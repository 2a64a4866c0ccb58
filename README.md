# strfry-push-notify, modelled in Dafny

strfry-push-notify is a strfry relay plugin. It sends Apple push notifications for Nostr events. For each event it works out who the event concerns: the author plus every pubkey named in a `p` tag. It leaves out pubkeys already notified for that event and, except in the oldest copy of the code, the author. It then sends one push to each device token stored for the remaining pubkeys and records them as notified, so that processing the same event again notifies nobody.

The model covers:

- **the fan-out and deduplication engine** in its three copies:
  - the `NotificationManager` class (`Notifications`, a Dafny class with the two SQLite tables as fields and a ghost log of pushes);
  - the strfry policy under `src/` (`SenderPolicy`);
  - the older policy at the repository root (`LegacySenderPolicy`).

  All three are proved against one specification, `NotificationStore.ProcessEvent`.
- **the event-tag helpers** (`NostrEvent`, `EventUtils`). JavaScript `Set`s are duplicate-free sequences in insertion order (`JsSets`), because the order of sends depends on that order.
- **the mute-list matcher** (`MuteManager`).
- **the NIP-98 (Nostr HTTP Auth) header validator** (`Nip98Auth`). Decoding, hashing, id calculation, signature checking and the clock are parameters.

The two tables are maps: `notifications` maps an event id to a map from pubkey to bool, and `user_info` maps a pubkey to its device tokens. A table not yet created is `None`. A push is recorded as a `Dispatch(eventId, deviceToken)`.

The `t` entry of a mute list is matched against the event's `h` tags, not its `t` tags (src/MuteManager.ts:37). The model keeps this behaviour as the code has it (`MuteManager.TagMutes`, `MuteManager.HashtagMuteReadsHTags`).

## Model

| member | source | states |
|---|---|---|
| JsSets.Add | src/eventUtils.ts:15 | `set.add(x)`: the members are the old ones plus `x`; a present `x` changes nothing, a new one goes at the end; no duplicates arise |
| JsSets.FromSeq | src/NostrEvent.ts:15 | `new Set(items)`: exactly the items, without duplicates, never longer than the input |
| JsSets.FromSeqSnoc | src/eventUtils.ts:12-17 | building a set from items plus one more is adding that item to the set of the items |
| JsSets.FromSeqOfDistinct | src/NostrEvent.ts:19 | a set built from distinct items iterates them in the same order |
| JsSets.FromSeqHead | src/NostrEvent.ts:19 | the first item inserted is the first item iterated |
| NostrEvent.GetTags | src/NostrEvent.ts:26-28 | `getTags` yields no more values than there are tags |
| NostrEvent.GetTagsMembers | src/NostrEvent.ts:26-28 | a value is returned iff some tag has the requested type and that value |
| NostrEvent.GetTagsConcat | src/NostrEvent.ts:26-28 | tag order is kept: the values of a concatenation are the concatenated values |
| NostrEvent.GetTagsOtherTypes | src/NostrEvent.ts:26-28 | tags of other types yield nothing |
| NostrEvent.ReferencedPubkeys | src/NostrEvent.ts:14-16 | duplicate-free, and a pubkey is in it iff a `p` tag names it |
| NostrEvent.ReferencesPubkey | src/NostrEvent.ts:10-12 | true iff some `p` tag names the pubkey |
| NostrEvent.RelevantPubkeys | src/NostrEvent.ts:18-20 | duplicate-free, the author first, members exactly the author and the referenced pubkeys |
| NostrEvent.ReferencedEventIds | src/NostrEvent.ts:22-24 | duplicate-free, and an id is in it iff an `e` tag carries it |
| EventUtils.ReferencedPubkeysFromEvent | src/eventUtils.ts:9-20 | the loop builds the same set as `NostrEvent.referencedPubkeys`: exactly the `p`-tag values, no duplicates |
| EventUtils.NoThreadExpansion | src/eventUtils.ts:12-17 | tags of any type but `p`, thread `e` tags included, add no pubkey |
| EventUtils.RelevantPubkeysFromEvent | src/eventUtils.ts:4-7 | the author first, then the `p`-tag values; equal to `NostrEvent.relevantPubkeys` for the same event |
| NotificationStore.SetupDatabase | src/NotificationManager.ts:26-32 | both tables exist afterwards; an existing table keeps its rows, a missing one starts empty |
| NotificationStore.SetupDatabaseIdempotent | src/notificationSenderPolicy.ts:93-103 | setting up twice is setting up once; a set-up database is unchanged |
| NotificationStore.StatusOf | src/notificationSenderPolicy.ts:79-91 | an event without a row has the empty status, otherwise its stored status |
| NotificationStore.TokensFor | src/notificationSenderPolicy.ts:57-69 | a pubkey without a row has no tokens, otherwise its stored tokens |
| NotificationStore.SavedTokenReadsBack | src/NotificationManager.ts:144-148 | after saving, the pubkey reads back exactly the one token (last writer wins); other pubkeys are untouched |
| NotificationStore.PubkeysThatReceivedNotification | src/notificationSenderPolicy.ts:71-77 | a pubkey counts as notified iff its entry is `true`; `false` entries do not count |
| NotificationStore.PubkeysToNotify | src/notificationSenderPolicy.ts:29-33 | members are exactly the relevant pubkeys that are neither notified nor excluded; no duplicates when the input has none |
| NotificationStore.PubkeysToNotifyHead | notificationSenderPolicy.ts:26-28 | when the first relevant pubkey survives the filter it is the first one notified |
| NotificationStore.PubkeysToNotifyNone | src/notificationSenderPolicy.ts:29-33 | when every relevant pubkey that is not excluded is notified, nobody is left |
| NotificationStore.PubkeysToNotifyIsASet | src/notificationSenderPolicy.ts:31-33 | on duplicate-free relevant pubkeys, wrapping the filter in `new Set(...)` changes nothing |
| NotificationStore.MarkNotified | src/notificationSenderPolicy.ts:41-44 | the new status has the old keys plus the notified pubkeys; these are `true`, every other entry keeps its value |
| NotificationStore.ReceivedAfterMark | src/notificationSenderPolicy.ts:41-44 | the notified set grows by exactly the pubkeys marked |
| NotificationStore.SendsTo | src/notificationSenderPolicy.ts:48-55 | one push per token, in token order, all for this event |
| NotificationStore.DispatchTargets | src/notificationSenderPolicy.ts:36-38 | every push of the send loop is for this event and goes to a token stored for one of the pubkeys sent to |
| NotificationStore.DispatchesPrefix | src/notificationSenderPolicy.ts:36-38 | pushes go out in pubkey order: those for the first pubkeys are the start of the whole log |
| NotificationStore.DispatchesHead | src/notificationSenderPolicy.ts:36-38 | the log opens with one push per token stored for the first pubkey, in stored order |
| NotificationStore.Dispatches | src/notificationSenderPolicy.ts:36-38 | the send loop: for each pubkey in order, the pushes of `SendsTo` for its stored tokens; its properties are the lemmas below |
| NotificationStore.DispatchesBlock | src/notificationSenderPolicy.ts:36-38 | the `k`-th pubkey's pushes form one block, right after those of the pubkeys before it, within the log |
| NotificationStore.DispatchesComplete | src/notificationSenderPolicy.ts:48-55 | every token stored for a pubkey sent to receives a push for the event |
| NotificationStore.NoRowNoSends | src/notificationSenderPolicy.ts:57-64 | pubkeys without a `user_info` row cause no pushes |
| NotificationStore.ProcessEventWrites | src/notificationSenderPolicy.ts:40-45 | processing writes the event's row and no other. No entry is removed, every relevant pubkey that is not excluded ends `true`, the others keep their values, and all pushes are for the event |
| NotificationStore.SentOnlyToPubkeysToNotify | src/notificationSenderPolicy.ts:28-38 | a push goes only to a token of a relevant, not excluded, not yet notified pubkey |
| NotificationStore.PendingPubkeysAreSentTo | src/NotificationManager.ts:47-54 | conversely, every token of a relevant, not excluded, not yet `true` pubkey receives a push |
| NotificationStore.ProcessEvent | src/notificationSenderPolicy.ts:24-46 | the reference all three copies are proved equal to: the table gains the event's row and no other row changes |
| NotificationStore.ReprocessingNotifiesNobody | src/notificationSenderPolicy.ts:28-45 | processing the same event a second time sends nothing and leaves the table as the first run left it |
| SenderPolicy.SendEventNotificationToDeviceToken | src/notificationSenderPolicy.ts:105-127 | the gateway call is one push of this event to this device |
| SenderPolicy.SendEventNotificationsToPubkey | src/notificationSenderPolicy.ts:48-55 | one push per stored token of the pubkey, in stored order; none without a row |
| SenderPolicy.SendNotificationsIfNeeded | src/notificationSenderPolicy.ts:24-46 | the loop's pushes and the new database are those of `ProcessEvent` with the author excluded; `user_info` is untouched |
| SenderPolicy.Process | src/notificationSenderPolicy.ts:24-46 | one run on the stored database: afterwards both tables exist, `user_info` is as set up, and `notifications` has the event's row besides the old ones |
| SenderPolicy.NotificationSenderPolicy | src/notificationSenderPolicy.ts:11-20 | the answer is always `accept` with the event id and an empty message, whatever processing does |
| SenderPolicy.PushesGoToMentionedOthers | src/notificationSenderPolicy.ts:29-38 | every push goes to a device token stored for some pubkey the event `p`-tags other than the author (a token also stored for the author is still pushed to) |
| SenderPolicy.AuthorNotNotified | src/notificationSenderPolicy.ts:31-33 | self-exclusion: the author is never among the pubkeys notified, and the author's entry in the event's status is left as stored |
| SenderPolicy.SecondRunSendsNothing | src/notificationSenderPolicy.ts:24-46 | a second run on the same event sends nothing and changes nothing |
| LegacySenderPolicy.SendNotificationsIfNeeded | notificationSenderPolicy.ts:19-41 | the loop's pushes and the new database are those of `ProcessEvent` with nobody excluded |
| LegacySenderPolicy.Process | notificationSenderPolicy.ts:19-41 | one run of the root copy: both tables exist, `user_info` is as set up, and `notifications` has the event's row besides the old ones |
| LegacySenderPolicy.NotificationSenderPolicy | notificationSenderPolicy.ts:6-15 | always `accept` with the event id and an empty message |
| LegacySenderPolicy.AuthorNotifiedFirst | notificationSenderPolicy.ts:24-33 | unless already marked `true`, the author is notified, first, on every device it has |
| LegacySenderPolicy.SecondRunSendsNothing | notificationSenderPolicy.ts:19-41 | a second run on the same event sends nothing and changes nothing |
| Notifications.NotificationManager.constructor | src/NotificationManager.ts:20-24 | the path defaults to `./apns_notifications.db` when absent or empty; not set up; nothing sent |
| Notifications.NotificationManager.SetupDatabase | src/NotificationManager.ts:26-32 | the tables are created as needed and `isDatabaseSetup` becomes true |
| Notifications.NotificationManager.ThrowIfDatabaseNotSetup | src/NotificationManager.ts:34-38 | passes iff setup has run, otherwise fails with "Database not setup. Run setupDatabase() first." |
| Notifications.NotificationManager.GetNotificationStatus | src/NotificationManager.ts:89-102 | fails before setup; afterwards the stored status, empty without a row |
| Notifications.NotificationManager.GetUserDeviceTokens | src/NotificationManager.ts:73-87 | fails before setup; afterwards the stored tokens, none without a row |
| Notifications.NotificationManager.FormatNotificationMessage | src/NotificationManager.ts:130-142 | title "New activity", subtitle "From: " followed by the author, body the content |
| Notifications.NotificationManager.SendEventNotificationToDeviceToken | src/NotificationManager.ts:104-128 | appends exactly one push of this event to this device to the log; the tables are untouched |
| Notifications.NotificationManager.SendEventNotificationsToPubkey | src/NotificationManager.ts:64-71 | fails before setup having sent nothing; afterwards one push per stored token, in order |
| Notifications.NotificationManager.SendNotificationsIfNeeded | src/NotificationManager.ts:40-62 | fails before setup having changed nothing. Afterwards the log grows by exactly the pushes of `ProcessEvent` with the author excluded, and only the event's row changes |
| Notifications.NotificationManager.SaveUserDeviceInfo | src/NotificationManager.ts:144-148 | fails before setup having changed nothing; afterwards the pubkey's tokens are exactly the one given |
| Notifications.GetNotificationStatusAsWritten | src/NotificationManager.ts:89-102 | as written: a `NotificationStatus` instance iff the event has no row, otherwise the plain parsed object |
| Notifications.SendNotificationsIfNeededAsWritten | src/NotificationManager.ts:40-62 | the method as written, on the stored blobs with the stray `statusInfo` entry; its behaviour is stated by the two lemmas below |
| Notifications.AsWrittenFirstRun | src/NotificationManager.ts:40-62 | as written: the run throws iff the event has a row; on a new event it sends what `ProcessEvent` sends and stores a `statusInfo` entry |
| Notifications.AsWrittenSecondRunThrows | src/NotificationManager.ts:40-62 | as written: the first run stores a stray `statusInfo` key, and a second run on the same event throws |
| MuteManager.LowerChar | src/MuteManager.ts:43 | `A`-`Z` become `a`-`z`, every other character is kept; no upper-case letter remains |
| MuteManager.ToLower | src/MuteManager.ts:43 | same length, each character lower-cased |
| MuteManager.Includes | src/MuteManager.ts:43 | `String.prototype.includes`: the empty string is always included, and an included string is no longer than the content |
| MuteManager.IncludesIff | src/MuteManager.ts:43 | `includes` holds iff the word sits at some position of the content |
| MuteManager.TagMutes | src/MuteManager.ts:23-46 | `p` matches the author; `e` the event id or an `e`-tag value; `t` an `h`-tag value; `word` a case-insensitive substring; other types never match |
| MuteManager.ShouldMuteNotificationForPubkey | src/MuteManager.ts:16-50 | the early-return loop answers true iff a mute list exists and one of its tags matches |
| MuteManager.NoMuteListNoMute | src/MuteManager.ts:17-20 | without a mute list nothing is muted |
| MuteManager.AuthorMuteMutes | src/MuteManager.ts:23-28 | a `p` entry naming the author mutes, wherever it sits in the list |
| MuteManager.ThreadMuteMutes | src/MuteManager.ts:29-34 | an `e` entry naming the event or an event it references mutes it |
| MuteManager.WordMuteIgnoresCase | src/MuteManager.ts:41-46 | content that contains the word verbatim is muted: containment survives lower-casing |
| MuteManager.EmptyWordMutesAll | src/MuteManager.ts:41-46 | an empty muted word mutes every event |
| MuteManager.HashtagMuteReadsHTags | src/MuteManager.ts:35-40 | a hashtag carried only as a `t` tag is not muted by a `t` entry |
| MuteManager.OrderIndependent | src/MuteManager.ts:21-49 | the answer depends on the list's tags only as a multiset, not on their order |
| MuteManager.UnknownTypesIgnored | src/MuteManager.ts:21-49 | entries of other types never change the answer |
| Nip98Auth.Split | src/nip98_auth.ts:21 | `split` yields at least one piece |
| Nip98Auth.SplitJoin | src/nip98_auth.ts:21 | joining the pieces with the separator gives the header back, and no piece holds a separator |
| Nip98Auth.SplitNoSeparator | src/nip98_auth.ts:21-24 | a string without a space is one piece |
| Nip98Auth.SplitAtSeparator | src/nip98_auth.ts:21 | splitting cuts at the first separator |
| Nip98Auth.SplitTwoParts | src/nip98_auth.ts:21-28 | two pieces `a`, `b` iff the header is `a`, one space, `b`, with no other space |
| Nip98Auth.HeaderShape | src/nip98_auth.ts:21-34 | the header passes the split checks iff it is `Nostr `, then a non-empty string without spaces |
| Nip98Auth.FindTag | src/nip98_auth.ts:45-46 | `find` returns a tag of the list with the requested type |
| Nip98Auth.FindTagFirst | src/nip98_auth.ts:45-46 | `find` returns nothing iff no tag has the type, and otherwise the first such tag |
| Nip98Auth.CheckNote | src/nip98_auth.ts:41-81 | accepts iff `NoteAccepted`, for the note's author. The first failing guard in source order names the error: wrong kind; missing `u`/`method` tag (the caught `TypeError`); url/method mismatch (with both values); out of the 60-second window; then the payload check's error, then the id and signature checks |
| Nip98Auth.CheckPayload | src/nip98_auth.ts:55-68 | passes iff `PayloadMatches`: with a body the first `payload` tag must equal its SHA-256 (a missing tag gives the caught `TypeError`, a different hash the mismatch error); without a body no `payload` tag may be present |
| Nip98Auth.CheckSignedNote | src/nip98_auth.ts:70-81 | accepts iff the id matches the contents and the signature is valid; an id mismatch is reported first, otherwise an invalid signature |
| Nip98Auth.VerifyAuthHeader | src/nip98_auth.ts:15-85 | exactly one of pubkey and error is set. Success iff `Accepts`, for the note's author. A missing or empty header, one that does not split in two, and `Nostr ` with nothing after it get their own errors; for a well-shaped header a decode throw gives the prefixed message, a falsy parse its error, and a parsed note the result of `CheckNote` |
| Nip98Auth.StaleOrFutureNoteRejected | src/nip98_auth.ts:51-53 | a note more than 60 seconds old, or dated in the future, never authorises |
| Nip98Auth.PayloadTagNeedsBody | src/nip98_auth.ts:63-68 | a note with a `payload` tag never authorises a request without a body |
| Nip98Auth.BodyIsBoundByHash | src/nip98_auth.ts:55-62 | an authorised request with a body had its SHA-256 in the note's first `payload` tag |
| Nip98Auth.MissingUrlTagIsCaught | src/nip98_auth.ts:82-84 | a note without a `u` tag yields the caught `TypeError` as an error result, not an exception |
| Nip98Auth.OtherSchemeRefused | src/nip98_auth.ts:26-28 | a two-part header whose first part is not `Nostr` is refused with that reason |
| Nip98Auth.ExtraSpaceRefused | src/nip98_auth.ts:21-24 | `Nostr ` followed by a note containing a further space is refused as not having two parts |
| Nip98Auth.EmptyNoteRefused | src/nip98_auth.ts:30-34 | the bare `Nostr ` header is refused for want of an encoded note |

## Left out

- HTTP delivery to the APNs gateway (src/NotificationManager.ts:107-127, src/notificationSenderPolicy.ts:106-126) is network I/O. A delivery is recorded as a `Dispatch`. The alert payload, headers and the fetch outcome are not recorded.
- Notifications.NotificationManager.SendEventNotificationToDeviceToken: records only the event id and device token of a push; the alert it formats is computed but not logged.
- Notifications.NotificationManager.SendNotificationsIfNeeded and Notifications.NotificationManager.SendEventNotificationToDeviceToken: a push always succeeds. In the source the `fetch` is awaited up the chain (src/NotificationManager.ts:107, 69, 53), so a rejected `fetch` throws out of `sendNotificationsIfNeeded` before the status write at line 61: pubkeys already pushed stay unmarked and are pushed again on the next run. The model always completes and marks every pubkey it notified. In src/notificationSenderPolicy.ts:106 the `fetch` is not awaited, so a rejection there goes unhandled and processing continues.
- SQLite and JSON (de)serialisation of the status and token blobs: tables are maps, and stringify/parse is the identity. Malformed JSON is library behaviour.
- NotificationStore.PubkeysThatReceivedNotification: statuses hold booleans only. A stored non-boolean value, which `=== true` would also reject, cannot be expressed.
- Module-scope `.env` loading (src/NotificationManager.ts:6-9, src/notificationSenderPolicy.ts:7-9) is configuration I/O.
- SenderPolicy.NotificationSenderPolicy: the source starts processing without waiting for it (fire-and-forget). The model runs processing to completion before answering.
- Asynchrony in general: every `await` is taken in order, and no interleaving of concurrent runs is modelled.
- Notifications.NotificationManager: a thrown `Error` is modelled as a `Fail`/`Failure` result carrying the message.
- The older root policy's helpers (notificationSenderPolicy.ts:43-98) are line for line those of the `src/` copy. `LegacySenderPolicy` uses the `SenderPolicy` members for them. Its per-device send (notificationSenderPolicy.ts:100-103) only logs, and the model records that as the same `Dispatch`.
- The `MuteManager` constructor and `getPublicMuteList` (src/MuteManager.ts:9-14, 52-76) are a live relay subscription. The mute list is an input, `None` when the relay has none.
- MuteManager.ToLower: lower-cases ASCII letters only; Unicode case mapping is not modelled.
- Nip98Auth: base64, UTF-8 and JSON decoding, SHA-256, `nostr.calculateId`, `nostr.verifyEvent` and `Date.now` (src/nip98_auth.ts:36, 71, 76, 87-94) are fields of `Primitives`. They are not interpreted.
- Nip98Auth.VerifyAuthHeader: the clock is read once (`Primitives.now`). The source reads it twice (line 51), so a second boundary crossed between the two readings is not modelled.
- Nip98Auth.VerifyAuthHeader: the decoded note is a well-formed `Event`. JSON that lacks fields or has fields of other types, and JavaScript's loose `!=` on `kind`, are not modelled. A body, string or bytes, is its byte sequence.
- Tags shorter than two entries, where JavaScript reads `undefined`, are excluded by the `Tag` type.
- src/send-to-apns.js is an APNs client with stdin and process exit. src/notificationServiceServer.ts is an HTTP server. src/testUtils/ holds a test gateway and a stdin policy pipeline. None of them is part of this model.
- Table schemas and column counts, and a `closeDatabase` method: the test expects more columns than the two-column tables the code creates. They are not modelled.

## Findings

| source | as written | input that shows it | evidently intended | confidence | as-written member | corrected member |
|---|---|---|---|---|---|---|
| src/NotificationManager.ts:89-102 | `getNotificationStatus` returns a `NotificationStatus` instance when the event has no row, but the plain parsed JSON object when it has one. Line 46 calls `pubkeysThatReceivedNotification()` on the result, and line 58 spreads the instance, so the stored blob gains a `statusInfo` key | any event processed twice: the first run stores `{statusInfo: {}, <pubkey>: true, ...}`; the second run throws `TypeError` at line 46 and notifies nobody, but only by crashing | a status map in both cases, so that the second run reads the pubkeys marked `true` and notifies nobody without error | high, not executed | Notifications.AsWrittenSecondRunThrows | Notifications.NotificationManager.SendNotificationsIfNeeded |

The corrected class keeps the stored status a plain pubkey-to-bool map. Its `SendNotificationsIfNeeded` is proved equal to `NotificationStore.ProcessEvent`, and `NotificationStore.ReprocessingNotifiesNobody` proves the intended deduplication for it.
