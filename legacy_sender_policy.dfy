/**
 * The older copy of the push policy at the repository root. It is the `src/`
 * policy without the author exclusion, and its per-device send is a logging
 * stub; its table helpers are line for line those of the `src/` copy, whose
 * members it uses.
 */
module LegacySenderPolicy {
  import opened Wrappers
  import opened Nostr
  import NostrEvent
  import EventUtils
  import opened NotificationStore
  import SenderPolicy

  /** What one run of the older `sendNotificationsIfNeeded` does: nobody is excluded. */
  function Process(stored: Db, e: Event): (r: (Db, seq<Dispatch>))
    ensures IsSetUp(r.0) && r.0.userInfo == SetupDatabase(stored).userInfo
    ensures r.0.notifications.value.Keys == SetupDatabase(stored).notifications.value.Keys + {e.id}
  {
    var db := SetupDatabase(stored);
    var run := ProcessEvent(db.notifications.value, db.userInfo.value, e.id, NostrEvent.RelevantPubkeys(e), {});
    (db.(notifications := Some(run.notifications)), run.sent)
  }

  /** `sendNotificationsIfNeeded` (root copy): as in `src/`, but the author is not filtered out. */
  method SendNotificationsIfNeeded(stored: Db, e: Event) returns (db: Db, sent: seq<Dispatch>)
    ensures (db, sent) == Process(stored, e)
    ensures IsSetUp(db) && db.userInfo == SetupDatabase(stored).userInfo
  {
    db := SetupDatabase(stored);
    var notificationStatusForThisEvent := StatusOf(db.notifications.value, e.id);
    var relevantPubkeys := EventUtils.RelevantPubkeysFromEvent(e);
    var pubkeysThatReceivedNotification := PubkeysThatReceivedNotification(notificationStatusForThisEvent);
    var pubkeysToNotify := PubkeysToNotify(relevantPubkeys, pubkeysThatReceivedNotification, {});
    sent := [];
    for i := 0 to |pubkeysToNotify|
      invariant sent == Dispatches(e.id, pubkeysToNotify[..i], db.userInfo.value)
    {
      DispatchesStep(e.id, pubkeysToNotify, i, db.userInfo.value);
      var pushes := SenderPolicy.SendEventNotificationsToPubkey(db.userInfo.value, e, pubkeysToNotify[i]);
      sent := sent + pushes;
    }
    assert pubkeysToNotify[..|pubkeysToNotify|] == pubkeysToNotify;
    var newNotificationStatus := MarkNotified(notificationStatusForThisEvent, pubkeysToNotify);
    db := db.(notifications := Some(db.notifications.value[e.id := newNotificationStatus]));
  }

  /** `notificationSenderPolicy` (root copy): processes the event and accepts it. */
  method NotificationSenderPolicy(stored: Db, e: Event) returns (result: SenderPolicy.PolicyResult, db: Db, sent: seq<Dispatch>)
    ensures result.id == e.id && result.action == "accept" && result.msg == ""
    ensures (db, sent) == Process(stored, e)
  {
    db, sent := SendNotificationsIfNeeded(stored, e);
    result := SenderPolicy.PolicyResult(e.id, "accept", "");
  }

  /**
   * No self-exclusion here: unless the author is already marked `true` for
   * the event, the author is notified, and first, on every device it has.
   */
  lemma AuthorNotifiedFirst(stored: Db, e: Event)
    requires var status := StatusOf(SetupDatabase(stored).notifications.value, e.id);
             !(e.pubkey in status && status[e.pubkey])
    ensures var tokens := TokensFor(SetupDatabase(stored).userInfo.value, e.pubkey);
            var sent := Process(stored, e).1;
            |tokens| <= |sent| && sent[..|tokens|] == SendsTo(e.id, tokens)
  {
    var db := SetupDatabase(stored);
    var notifications, userInfo := db.notifications.value, db.userInfo.value;
    var relevant := NostrEvent.RelevantPubkeys(e);
    var toNotify := ToNotify(notifications, e.id, relevant, {});
    PubkeysToNotifyHead(relevant, PubkeysThatReceivedNotification(StatusOf(notifications, e.id)), {});
    DispatchesHead(e.id, toNotify, userInfo);
  }

  /** Dedup holds in this copy too: a second run on the same event sends nothing and changes nothing. */
  lemma SecondRunSendsNothing(stored: Db, e: Event)
    ensures var (db1, _) := Process(stored, e);
            var (db2, sent2) := Process(db1, e);
            sent2 == [] && db2 == db1
  {
    var db := SetupDatabase(stored);
    ReprocessingNotifiesNobody(db.notifications.value, db.userInfo.value, e.id, NostrEvent.RelevantPubkeys(e), {});
  }
}
