/**
 * The strfry write policy that sends push notifications (the copy under
 * `src/`). Each call opens the database file, so the policy's state is the
 * stored database, passed in and handed back as a value.
 */
module SenderPolicy {
  import opened Wrappers
  import opened Nostr
  import NostrEvent
  import EventUtils
  import opened NotificationStore

  /** The verdict a strfry policy returns for an event. */
  datatype PolicyResult = PolicyResult(id: EventId, action: string, msg: string)

  /** `sendEventNotificationToDeviceToken`: the POST to the gateway, recorded as one push. */
  function SendEventNotificationToDeviceToken(e: Event, deviceToken: DeviceToken): (d: Dispatch)
    ensures d.eventId == e.id && d.deviceToken == deviceToken
  {
    Dispatch(e.id, deviceToken)
  }

  /** `sendEventNotificationsToPubkey`: one push per device token stored for `pubkey`, in stored order. */
  method SendEventNotificationsToPubkey(userInfo: UserInfoTable, e: Event, pubkey: Pubkey) returns (sent: seq<Dispatch>)
    ensures sent == SendsTo(e.id, TokensFor(userInfo, pubkey))
    ensures pubkey !in userInfo ==> sent == []
  {
    var userDeviceTokens := TokensFor(userInfo, pubkey);
    sent := [];
    for i := 0 to |userDeviceTokens|
      invariant sent == SendsTo(e.id, userDeviceTokens[..i])
    {
      sent := sent + [SendEventNotificationToDeviceToken(e, userDeviceTokens[i])];
    }
    assert userDeviceTokens[..|userDeviceTokens|] == userDeviceTokens;
  }

  /** What one run of `sendNotificationsIfNeeded` does to the stored database, and the pushes it makes. */
  function Process(stored: Db, e: Event): (r: (Db, seq<Dispatch>))
    ensures IsSetUp(r.0) && r.0.userInfo == SetupDatabase(stored).userInfo
    ensures r.0.notifications.value.Keys == SetupDatabase(stored).notifications.value.Keys + {e.id}
  {
    var db := SetupDatabase(stored);
    var run := ProcessEvent(db.notifications.value, db.userInfo.value, e.id, NostrEvent.RelevantPubkeys(e), {e.pubkey});
    (db.(notifications := Some(run.notifications)), run.sent)
  }

  /**
   * `sendNotificationsIfNeeded`: set up the tables, work out who to notify,
   * send to each of them in turn, then record them as notified.
   */
  method SendNotificationsIfNeeded(stored: Db, e: Event) returns (db: Db, sent: seq<Dispatch>)
    ensures (db, sent) == Process(stored, e)
    ensures IsSetUp(db) && db.userInfo == SetupDatabase(stored).userInfo
  {
    db := SetupDatabase(stored);
    var notificationStatusForThisEvent := StatusOf(db.notifications.value, e.id);
    var relevantPubkeys := EventUtils.RelevantPubkeysFromEvent(e);
    var pubkeysThatReceivedNotification := PubkeysThatReceivedNotification(notificationStatusForThisEvent);
    var pubkeysToNotify := PubkeysToNotify(relevantPubkeys, pubkeysThatReceivedNotification, {e.pubkey});
    sent := [];
    for i := 0 to |pubkeysToNotify|
      invariant sent == Dispatches(e.id, pubkeysToNotify[..i], db.userInfo.value)
    {
      DispatchesStep(e.id, pubkeysToNotify, i, db.userInfo.value);
      var pushes := SendEventNotificationsToPubkey(db.userInfo.value, e, pubkeysToNotify[i]);
      sent := sent + pushes;
    }
    assert pubkeysToNotify[..|pubkeysToNotify|] == pubkeysToNotify;
    var newNotificationStatus := MarkNotified(notificationStatusForThisEvent, pubkeysToNotify);
    db := db.(notifications := Some(db.notifications.value[e.id := newNotificationStatus]));
  }

  /**
   * `notificationSenderPolicy`: processes the event, and accepts it whatever
   * processing does.
   */
  method NotificationSenderPolicy(stored: Db, e: Event) returns (result: PolicyResult, db: Db, sent: seq<Dispatch>)
    ensures result.id == e.id && result.action == "accept" && result.msg == ""
    ensures (db, sent) == Process(stored, e)
  {
    db, sent := SendNotificationsIfNeeded(stored, e);
    result := PolicyResult(e.id, "accept", "");
  }

  /**
   * Every push goes to a device token stored for some pubkey the event
   * `p`-tags other than the author. (A token stored for the author as well
   * as for such a pubkey is still pushed to: tokens are keyed by pubkey.)
   */
  lemma PushesGoToMentionedOthers(stored: Db, e: Event, d: Dispatch)
    requires d in Process(stored, e).1
    ensures exists p :: p in NostrEvent.ReferencedPubkeys(e) && p != e.pubkey
                        && d.deviceToken in TokensFor(SetupDatabase(stored).userInfo.value, p)
  {
    var db := SetupDatabase(stored);
    SentOnlyToPubkeysToNotify(db.notifications.value, db.userInfo.value, e.id, NostrEvent.RelevantPubkeys(e), {e.pubkey}, d);
  }

  /**
   * Self-exclusion: the author is never among the pubkeys notified, and the
   * author's entry in the event's status is left as it was stored.
   */
  lemma AuthorNotNotified(stored: Db, e: Event)
    ensures var db := SetupDatabase(stored);
            e.pubkey !in ToNotify(db.notifications.value, e.id, NostrEvent.RelevantPubkeys(e), {e.pubkey})
    ensures var before := StatusOf(SetupDatabase(stored).notifications.value, e.id);
            var after := Process(stored, e).0.notifications.value[e.id];
            (e.pubkey in after <==> e.pubkey in before) && (e.pubkey in before ==> after[e.pubkey] == before[e.pubkey])
  {
    var db := SetupDatabase(stored);
    ProcessEventWrites(db.notifications.value, db.userInfo.value, e.id, NostrEvent.RelevantPubkeys(e), {e.pubkey});
  }

  /** Dedup: the same event processed twice in a row; the second run sends nothing and changes nothing. */
  lemma SecondRunSendsNothing(stored: Db, e: Event)
    ensures var (db1, _) := Process(stored, e);
            var (db2, sent2) := Process(db1, e);
            sent2 == [] && db2 == db1
  {
    var db := SetupDatabase(stored);
    ReprocessingNotifiesNobody(db.notifications.value, db.userInfo.value, e.id, NostrEvent.RelevantPubkeys(e), {e.pubkey});
  }
}
