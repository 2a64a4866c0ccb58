/**
 * The two SQLite tables behind the notification service, as maps, and the
 * fan-out rule that all three copies of the sender share:
 *   `notifications`: event id -> status blob (pubkey -> received a notification)
 *   `user_info`:     pubkey   -> device tokens
 * A table that has not been created yet is `None`.
 */
module NotificationStore {
  import opened Wrappers
  import opened Nostr
  import JsSets

  type DeviceToken = string
  type StatusMap = map<Pubkey, bool>
  type NotificationsTable = map<EventId, StatusMap>
  type UserInfoTable = map<Pubkey, seq<DeviceToken>>

  datatype Db = Db(notifications: Option<NotificationsTable>, userInfo: Option<UserInfoTable>)

  /** One push handed to the gateway: this event, to this device. */
  datatype Dispatch = Dispatch(eventId: EventId, deviceToken: DeviceToken)

  /** What processing one event produces: the new `notifications` table and the pushes, in order. */
  datatype Run = Run(notifications: NotificationsTable, sent: seq<Dispatch>)

  predicate IsSetUp(db: Db) {
    db.notifications.Some? && db.userInfo.Some?
  }

  /** `setupDatabase`: `CREATE TABLE IF NOT EXISTS` for both tables; existing rows are kept. */
  function SetupDatabase(db: Db): (r: Db)
    ensures IsSetUp(r)
    ensures db.notifications.Some? ==> r.notifications == db.notifications
    ensures db.userInfo.Some? ==> r.userInfo == db.userInfo
    ensures db.notifications.None? ==> r.notifications == Some(map[])
    ensures db.userInfo.None? ==> r.userInfo == Some(map[])
  {
    Db(if db.notifications.Some? then db.notifications else Some(map[]),
       if db.userInfo.Some? then db.userInfo else Some(map[]))
  }

  /** Setting up twice is setting up once; a set-up database is left as it is. */
  lemma SetupDatabaseIdempotent(db: Db)
    ensures SetupDatabase(SetupDatabase(db)) == SetupDatabase(db)
    ensures IsSetUp(db) ==> SetupDatabase(db) == db
  {
  }

  /** `getNotificationStatus`: the stored blob for the event, or the empty status when it has no row. */
  function StatusOf(notifications: NotificationsTable, eventId: EventId): (r: StatusMap)
    ensures eventId !in notifications ==> r == map[]
    ensures eventId in notifications ==> r == notifications[eventId]
  {
    if eventId in notifications then notifications[eventId] else map[]
  }

  /** `getUserDeviceTokens`: the stored tokens of the pubkey, or none when it has no row. */
  function TokensFor(userInfo: UserInfoTable, pubkey: Pubkey): (r: seq<DeviceToken>)
    ensures pubkey !in userInfo ==> r == []
    ensures pubkey in userInfo ==> r == userInfo[pubkey]
  {
    if pubkey in userInfo then userInfo[pubkey] else []
  }

  /** `saveUserDeviceInfo` followed by `getUserDeviceTokens`: the pubkey reads back exactly the one token; others are untouched. */
  lemma SavedTokenReadsBack(userInfo: UserInfoTable, pubkey: Pubkey, deviceToken: DeviceToken)
    ensures TokensFor(userInfo[pubkey := [deviceToken]], pubkey) == [deviceToken]
    ensures forall other :: other != pubkey ==> TokensFor(userInfo[pubkey := [deviceToken]], other) == TokensFor(userInfo, other)
  {
  }

  /** `getPubkeysThatReceivedNotification`: the keys whose value is `true`; `false` does not count. */
  function PubkeysThatReceivedNotification(status: StatusMap): (r: set<Pubkey>)
    ensures forall p :: p in r <==> p in status && status[p]
    ensures r <= status.Keys
  {
    set p | p in status && status[p]
  }

  /** `pubkeysToNotify`: the relevant pubkeys, in order, minus those already notified and those excluded. */
  function PubkeysToNotify(relevant: seq<Pubkey>, received: set<Pubkey>, excluded: set<Pubkey>): (r: seq<Pubkey>)
    ensures forall p :: p in r <==> p in relevant && p !in received && p !in excluded
    ensures |r| <= |relevant|
    ensures JsSets.NoDuplicates(relevant) ==> JsSets.NoDuplicates(r)
  {
    if relevant == [] then []
    else
      var last := relevant[|relevant| - 1];
      PubkeysToNotify(relevant[..|relevant| - 1], received, excluded)
        + (if last !in received && last !in excluded then [last] else [])
  }

  /**
   * Filtering a duplicate-free list gives a duplicate-free list, so wrapping
   * the filter in `new Set(...)` changes nothing.
   */
  lemma PubkeysToNotifyIsASet(relevant: seq<Pubkey>, received: set<Pubkey>, excluded: set<Pubkey>)
    requires JsSets.NoDuplicates(relevant)
    ensures JsSets.FromSeq(PubkeysToNotify(relevant, received, excluded)) == PubkeysToNotify(relevant, received, excluded)
  {
    JsSets.FromSeqOfDistinct(PubkeysToNotify(relevant, received, excluded));
  }

  /** A first relevant pubkey that survives the filter is the first one notified. */
  lemma {:induction false} PubkeysToNotifyHead(relevant: seq<Pubkey>, received: set<Pubkey>, excluded: set<Pubkey>)
    requires relevant != [] && relevant[0] !in received && relevant[0] !in excluded
    ensures PubkeysToNotify(relevant, received, excluded) != []
    ensures PubkeysToNotify(relevant, received, excluded)[0] == relevant[0]
  {
    if |relevant| > 1 {
      PubkeysToNotifyHead(relevant[..|relevant| - 1], received, excluded);
    }
  }

  /** When every relevant pubkey that is not excluded has been notified, there is nobody left. */
  lemma {:induction false} PubkeysToNotifyNone(relevant: seq<Pubkey>, received: set<Pubkey>, excluded: set<Pubkey>)
    requires forall p :: p in relevant && p !in excluded ==> p in received
    ensures PubkeysToNotify(relevant, received, excluded) == []
  {
    if relevant != [] {
      var init := relevant[..|relevant| - 1];
      assert forall p :: p in init ==> p in relevant;
      PubkeysToNotifyNone(init, received, excluded);
    }
  }

  /** The spread `{...status, ...fromEntries(pubkeys -> true)}`: the old blob with `true` for each pubkey. */
  function MarkNotified(status: StatusMap, pubkeys: seq<Pubkey>): (r: StatusMap)
    ensures r.Keys == status.Keys + set p | p in pubkeys
    ensures forall p :: p in pubkeys ==> r[p]
    ensures forall p :: p in status && p !in pubkeys ==> r[p] == status[p]
  {
    status + map p | p in pubkeys :: true
  }

  /** After marking, the notified set has grown by exactly the marked pubkeys. */
  lemma ReceivedAfterMark(status: StatusMap, pubkeys: seq<Pubkey>)
    ensures PubkeysThatReceivedNotification(MarkNotified(status, pubkeys))
         == PubkeysThatReceivedNotification(status) + set p | p in pubkeys
  {
  }

  /** The pushes for one pubkey: one per stored token, in stored order. */
  function SendsTo(eventId: EventId, tokens: seq<DeviceToken>): (r: seq<Dispatch>)
    ensures |r| == |tokens|
    ensures forall i :: 0 <= i < |tokens| ==> r[i] == Dispatch(eventId, tokens[i])
  {
    seq(|tokens|, i requires 0 <= i < |tokens| => Dispatch(eventId, tokens[i]))
  }

  /** The send loop: for each pubkey in order, one push per device token stored for it. */
  function Dispatches(eventId: EventId, pubkeys: seq<Pubkey>, userInfo: UserInfoTable): (r: seq<Dispatch>)
  {
    if pubkeys == [] then []
    else
      var last := pubkeys[|pubkeys| - 1];
      Dispatches(eventId, pubkeys[..|pubkeys| - 1], userInfo) + SendsTo(eventId, TokensFor(userInfo, last))
  }

  /** Every push is for this event and goes to a device token stored for one of the pubkeys. */
  lemma {:induction false} DispatchTargets(eventId: EventId, pubkeys: seq<Pubkey>, userInfo: UserInfoTable, d: Dispatch)
    requires d in Dispatches(eventId, pubkeys, userInfo)
    ensures d.eventId == eventId
    ensures exists p :: p in pubkeys && d.deviceToken in TokensFor(userInfo, p)
  {
    var init := pubkeys[..|pubkeys| - 1];
    var last := pubkeys[|pubkeys| - 1];
    if d in Dispatches(eventId, init, userInfo) {
      DispatchTargets(eventId, init, userInfo, d);
      var p :| p in init && d.deviceToken in TokensFor(userInfo, p);
      assert p in pubkeys;
    } else {
      var tokens := TokensFor(userInfo, last);
      var i :| 0 <= i < |tokens| && SendsTo(eventId, tokens)[i] == d;
      assert d.deviceToken in tokens;
    }
  }

  /** The send loop after one more pubkey: that pubkey's pushes are appended. */
  lemma DispatchesStep(eventId: EventId, pubkeys: seq<Pubkey>, i: nat, userInfo: UserInfoTable)
    requires i < |pubkeys|
    ensures Dispatches(eventId, pubkeys[..i + 1], userInfo)
         == Dispatches(eventId, pubkeys[..i], userInfo) + SendsTo(eventId, TokensFor(userInfo, pubkeys[i]))
  {
    assert pubkeys[..i + 1][..i] == pubkeys[..i];
  }

  /** The same step seen from a log that already held `log` before the loop. */
  lemma LogStep(log: seq<Dispatch>, eventId: EventId, pubkeys: seq<Pubkey>, i: nat, userInfo: UserInfoTable)
    requires i < |pubkeys|
    ensures log + Dispatches(eventId, pubkeys[..i + 1], userInfo)
         == (log + Dispatches(eventId, pubkeys[..i], userInfo)) + SendsTo(eventId, TokensFor(userInfo, pubkeys[i]))
  {
    DispatchesStep(eventId, pubkeys, i, userInfo);
    var done := Dispatches(eventId, pubkeys[..i], userInfo);
    var pushes := SendsTo(eventId, TokensFor(userInfo, pubkeys[i]));
    assert log + (done + pushes) == (log + done) + pushes;
  }

  /** Sends go out in pubkey order: the pushes for the first `i` pubkeys are the start of all the pushes. */
  lemma {:induction false} DispatchesPrefix(eventId: EventId, pubkeys: seq<Pubkey>, i: nat, userInfo: UserInfoTable)
    requires i <= |pubkeys|
    ensures Dispatches(eventId, pubkeys[..i], userInfo) <= Dispatches(eventId, pubkeys, userInfo)
    decreases |pubkeys|
  {
    if i == |pubkeys| {
      assert pubkeys[..i] == pubkeys;
    } else {
      var init := pubkeys[..|pubkeys| - 1];
      assert init[..i] == pubkeys[..i];
      DispatchesPrefix(eventId, init, i, userInfo);
    }
  }

  /** The first pubkey's pushes, one per stored token, open the log. */
  lemma DispatchesHead(eventId: EventId, pubkeys: seq<Pubkey>, userInfo: UserInfoTable)
    requires pubkeys != []
    ensures var tokens := TokensFor(userInfo, pubkeys[0]);
            var sent := Dispatches(eventId, pubkeys, userInfo);
            |tokens| <= |sent| && sent[..|tokens|] == SendsTo(eventId, tokens)
  {
    assert Dispatches(eventId, pubkeys[..1], userInfo) == SendsTo(eventId, TokensFor(userInfo, pubkeys[0])) by {
      assert pubkeys[..1][..0] == [];
    }
    DispatchesPrefix(eventId, pubkeys, 1, userInfo);
  }

  /** The pushes for the `k`-th pubkey follow those for the pubkeys before it, as one block, within the log. */
  lemma DispatchesBlock(eventId: EventId, pubkeys: seq<Pubkey>, k: nat, userInfo: UserInfoTable)
    requires k < |pubkeys|
    ensures Dispatches(eventId, pubkeys[..k], userInfo) + SendsTo(eventId, TokensFor(userInfo, pubkeys[k]))
            <= Dispatches(eventId, pubkeys, userInfo)
  {
    DispatchesStep(eventId, pubkeys, k, userInfo);
    DispatchesPrefix(eventId, pubkeys, k + 1, userInfo);
  }

  /** Every token stored for a pubkey sent to receives a push for the event. */
  lemma DispatchesComplete(eventId: EventId, pubkeys: seq<Pubkey>, userInfo: UserInfoTable, p: Pubkey, t: DeviceToken)
    requires p in pubkeys && t in TokensFor(userInfo, p)
    ensures Dispatch(eventId, t) in Dispatches(eventId, pubkeys, userInfo)
  {
    var k :| 0 <= k < |pubkeys| && pubkeys[k] == p;
    var before := Dispatches(eventId, pubkeys[..k], userInfo);
    var block := SendsTo(eventId, TokensFor(userInfo, p));
    DispatchesBlock(eventId, pubkeys, k, userInfo);
    var j :| 0 <= j < |TokensFor(userInfo, p)| && TokensFor(userInfo, p)[j] == t;
    assert (before + block)[|before| + j] == Dispatch(eventId, t);
  }

  /** Pubkeys without a `user_info` row cause no sends at all. */
  lemma {:induction false} NoRowNoSends(eventId: EventId, pubkeys: seq<Pubkey>, userInfo: UserInfoTable)
    requires forall i :: 0 <= i < |pubkeys| ==> pubkeys[i] !in userInfo
    ensures Dispatches(eventId, pubkeys, userInfo) == []
  {
    if pubkeys != [] {
      NoRowNoSends(eventId, pubkeys[..|pubkeys| - 1], userInfo);
    }
  }

  /** The pubkeys one event would notify, given the stored status for it. */
  function ToNotify(notifications: NotificationsTable, eventId: EventId, relevant: seq<Pubkey>, excluded: set<Pubkey>): seq<Pubkey>
  {
    PubkeysToNotify(relevant, PubkeysThatReceivedNotification(StatusOf(notifications, eventId)), excluded)
  }

  /**
   * Processing one event: read its status, notify the relevant pubkeys not yet
   * marked `true` and not excluded, then write back the old status with `true`
   * for each of them. Rows of other events are kept.
   */
  function ProcessEvent(notifications: NotificationsTable, userInfo: UserInfoTable, eventId: EventId,
                        relevant: seq<Pubkey>, excluded: set<Pubkey>): (r: Run)
    ensures r.notifications.Keys == notifications.Keys + {eventId}
    ensures forall other :: other in notifications && other != eventId ==> r.notifications[other] == notifications[other]
  {
    var status := StatusOf(notifications, eventId);
    var toNotify := ToNotify(notifications, eventId, relevant, excluded);
    Run(notifications[eventId := MarkNotified(status, toNotify)], Dispatches(eventId, toNotify, userInfo))
  }

  /**
   * What processing writes: a row for the event and no other row changed; in
   * that row no entry is removed, every relevant pubkey that is not excluded is
   * `true`, and the entries of the other pubkeys keep their values.
   */
  lemma ProcessEventWrites(notifications: NotificationsTable, userInfo: UserInfoTable, eventId: EventId,
                           relevant: seq<Pubkey>, excluded: set<Pubkey>)
    ensures var r := ProcessEvent(notifications, userInfo, eventId, relevant, excluded);
            var status := StatusOf(notifications, eventId);
            && r.notifications.Keys == notifications.Keys + {eventId}
            && (forall other :: other in notifications && other != eventId ==> r.notifications[other] == notifications[other])
            && status.Keys <= r.notifications[eventId].Keys
            && (forall p :: p in relevant && p !in excluded ==> p in r.notifications[eventId] && r.notifications[eventId][p])
            && (forall p :: p in status && (p !in relevant || p in excluded) ==> r.notifications[eventId][p] == status[p])
            && (forall d :: d in r.sent ==> d.eventId == eventId)
  {
    var toNotify := ToNotify(notifications, eventId, relevant, excluded);
    forall d | d in Dispatches(eventId, toNotify, userInfo)
      ensures d.eventId == eventId
    {
      DispatchTargets(eventId, toNotify, userInfo, d);
    }
  }

  /** Who gets a push: only pubkeys that are relevant, not yet marked `true`, and not excluded. */
  lemma SentOnlyToPubkeysToNotify(notifications: NotificationsTable, userInfo: UserInfoTable, eventId: EventId,
                                  relevant: seq<Pubkey>, excluded: set<Pubkey>, d: Dispatch)
    requires d in ProcessEvent(notifications, userInfo, eventId, relevant, excluded).sent
    ensures exists p :: p in relevant && p !in excluded && !(p in StatusOf(notifications, eventId) && StatusOf(notifications, eventId)[p])
                        && d.deviceToken in TokensFor(userInfo, p)
  {
    var toNotify := ToNotify(notifications, eventId, relevant, excluded);
    DispatchTargets(eventId, toNotify, userInfo, d);
    var p :| p in toNotify && d.deviceToken in TokensFor(userInfo, p);
    assert p in relevant && p !in excluded;
  }

  /** Who gets a push, the other way: every token of a relevant, not excluded, not yet `true` pubkey gets one. */
  lemma PendingPubkeysAreSentTo(notifications: NotificationsTable, userInfo: UserInfoTable, eventId: EventId,
                                relevant: seq<Pubkey>, excluded: set<Pubkey>, p: Pubkey, t: DeviceToken)
    requires p in relevant && p !in excluded && !(p in StatusOf(notifications, eventId) && StatusOf(notifications, eventId)[p])
    requires t in TokensFor(userInfo, p)
    ensures Dispatch(eventId, t) in ProcessEvent(notifications, userInfo, eventId, relevant, excluded).sent
  {
    var toNotify := ToNotify(notifications, eventId, relevant, excluded);
    assert p in toNotify;
    DispatchesComplete(eventId, toNotify, userInfo, p, t);
  }

  /**
   * Dedup: processing the same event a second time notifies nobody and
   * leaves the table as the first run left it.
   */
  lemma ReprocessingNotifiesNobody(notifications: NotificationsTable, userInfo: UserInfoTable, eventId: EventId,
                                   relevant: seq<Pubkey>, excluded: set<Pubkey>)
    ensures var first := ProcessEvent(notifications, userInfo, eventId, relevant, excluded);
            var second := ProcessEvent(first.notifications, userInfo, eventId, relevant, excluded);
            second.sent == [] && second.notifications == first.notifications
  {
    var status := StatusOf(notifications, eventId);
    var toNotify := ToNotify(notifications, eventId, relevant, excluded);
    var marked := MarkNotified(status, toNotify);
    var first := notifications[eventId := marked];
    assert StatusOf(first, eventId) == marked;
    var received := PubkeysThatReceivedNotification(marked);
    forall p | p in relevant && p !in excluded
      ensures p in received
    {
      if p !in toNotify {
        assert p in PubkeysThatReceivedNotification(status);
      }
    }
    PubkeysToNotifyNone(relevant, received, excluded);
    assert ToNotify(first, eventId, relevant, excluded) == [];
    assert MarkNotified(marked, []) == marked;
  }
}
