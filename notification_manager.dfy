/**
 * The `NotificationManager` class: owns the database handle, refuses to work
 * until `setupDatabase` has run, and sends each event to the devices of the
 * pubkeys it concerns, once per pubkey.
 *
 * The class below follows the evidently intended semantics, in which the
 * stored status is a plain pubkey -> bool map. What the source does as
 * written, where the status comes back as two different kinds of object, is
 * modelled after the class (`SendNotificationsIfNeededAsWritten`).
 */
module Notifications {
  import opened Wrappers
  import opened Nostr
  import NostrEvent
  import opened NotificationStore

  const DatabaseNotSetup := "Database not setup. Run setupDatabase() first."
  const DefaultDbPath := "./apns_notifications.db"

  /** The visible part of a push: title, subtitle and body. */
  datatype Alert = Alert(title: string, subtitle: string, body: string)

  class NotificationManager {
    const dbPath: string
    var db: Db
    var isDatabaseSetup: bool
    /** Every push handed to the gateway so far, in order. */
    ghost var dispatched: seq<Dispatch>

    ghost predicate Valid()
      reads this
    {
      isDatabaseSetup ==> IsSetUp(db)
    }

    /** Opens the database file at `dbPath` (default when absent or empty), whose current contents are `stored`. */
    constructor (dbPath: Option<string>, stored: Db)
      ensures Valid() && !isDatabaseSetup
      ensures this.dbPath == if dbPath.None? || dbPath.value == "" then DefaultDbPath else dbPath.value
      ensures db == stored && dispatched == []
    {
      this.dbPath := if dbPath.None? || dbPath.value == "" then DefaultDbPath else dbPath.value;
      db := stored;
      isDatabaseSetup := false;
      dispatched := [];
    }

    /** `setupDatabase`: creates the missing tables and records that setup has run. */
    method SetupDatabase()
      requires Valid()
      modifies this
      ensures Valid() && isDatabaseSetup
      ensures db == NotificationStore.SetupDatabase(old(db))
      ensures dispatched == old(dispatched)
    {
      db := NotificationStore.SetupDatabase(db);
      isDatabaseSetup := true;
    }

    /** `throwIfDatabaseNotSetup`. */
    function ThrowIfDatabaseNotSetup(): (r: Outcome)
      reads this
      ensures r.Pass? <==> isDatabaseSetup
      ensures r.Fail? ==> r.error == DatabaseNotSetup
    {
      if isDatabaseSetup then Pass else Fail(DatabaseNotSetup)
    }

    /** `getNotificationStatus`: the stored status of the event, empty when it has no row. */
    method GetNotificationStatus(e: Event) returns (r: Result<StatusMap>)
      requires Valid()
      ensures !isDatabaseSetup ==> r == Failure(DatabaseNotSetup)
      ensures isDatabaseSetup ==> r == Success(StatusOf(db.notifications.value, e.id))
    {
      var check := ThrowIfDatabaseNotSetup();
      if check.Fail? {
        return Failure(check.error);
      }
      r := Success(StatusOf(db.notifications.value, e.id));
    }

    /** `getUserDeviceTokens`: the stored tokens of the pubkey, none when it has no row. */
    method GetUserDeviceTokens(pubkey: Pubkey) returns (r: Result<seq<DeviceToken>>)
      requires Valid()
      ensures !isDatabaseSetup ==> r == Failure(DatabaseNotSetup)
      ensures isDatabaseSetup ==> r == Success(TokensFor(db.userInfo.value, pubkey))
    {
      var check := ThrowIfDatabaseNotSetup();
      if check.Fail? {
        return Failure(check.error);
      }
      r := Success(TokensFor(db.userInfo.value, pubkey));
    }

    /** `formatNotificationMessage`: a fixed title, the author as subtitle, the content as body. */
    function FormatNotificationMessage(e: Event): (a: Alert)
      ensures a.title == "New activity"
      ensures |a.subtitle| == 6 + |e.pubkey| && a.subtitle[..6] == "From: " && a.subtitle[6..] == e.pubkey
      ensures a.body == e.content
    {
      Alert("New activity", "From: " + e.pubkey, e.content)
    }

    /** `sendEventNotificationToDeviceToken`: the POST to the gateway, recorded in the push log. */
    method SendEventNotificationToDeviceToken(e: Event, deviceToken: DeviceToken)
      modifies this
      ensures dispatched == old(dispatched) + [Dispatch(e.id, deviceToken)]
      ensures db == old(db) && isDatabaseSetup == old(isDatabaseSetup)
    {
      var alert := FormatNotificationMessage(e);
      dispatched := dispatched + [Dispatch(e.id, deviceToken)];
    }

    /** `sendEventNotificationsToPubkey`: one push per stored device token of `pubkey`, in stored order. */
    method SendEventNotificationsToPubkey(e: Event, pubkey: Pubkey) returns (r: Outcome)
      requires Valid()
      modifies this
      ensures Valid() && db == old(db) && isDatabaseSetup == old(isDatabaseSetup)
      ensures !isDatabaseSetup ==> r == Fail(DatabaseNotSetup) && dispatched == old(dispatched)
      ensures isDatabaseSetup ==> r == Pass && dispatched == old(dispatched) + SendsTo(e.id, TokensFor(db.userInfo.value, pubkey))
    {
      var tokens := GetUserDeviceTokens(pubkey);
      if tokens.Failure? {
        return Fail(tokens.error);
      }
      var userDeviceTokens := tokens.value;
      for i := 0 to |userDeviceTokens|
        invariant db == old(db) && isDatabaseSetup == old(isDatabaseSetup)
        invariant dispatched == old(dispatched) + SendsTo(e.id, userDeviceTokens[..i])
      {
        SendEventNotificationToDeviceToken(e, userDeviceTokens[i]);
      }
      assert userDeviceTokens[..|userDeviceTokens|] == userDeviceTokens;
      r := Pass;
    }

    /**
     * `sendNotificationsIfNeeded`: notify every relevant pubkey except the
     * author that is not yet marked `true` for this event, then record them.
     */
    method SendNotificationsIfNeeded(e: Event) returns (r: Outcome)
      requires Valid()
      modifies this
      ensures Valid() && isDatabaseSetup == old(isDatabaseSetup)
      ensures !old(isDatabaseSetup) ==> r == Fail(DatabaseNotSetup) && db == old(db) && dispatched == old(dispatched)
      ensures old(isDatabaseSetup) ==>
                var run := ProcessEvent(old(db).notifications.value, old(db).userInfo.value, e.id,
                                        NostrEvent.RelevantPubkeys(e), {e.pubkey});
                r == Pass && db == old(db).(notifications := Some(run.notifications))
                && dispatched == old(dispatched) + run.sent
    {
      var check := ThrowIfDatabaseNotSetup();
      if check.Fail? {
        return check;
      }
      var statusResult := GetNotificationStatus(e);
      var notificationStatusForThisEvent := statusResult.value;
      var relevantPubkeys := NostrEvent.RelevantPubkeys(e);
      var pubkeysThatReceivedNotification := PubkeysThatReceivedNotification(notificationStatusForThisEvent);
      var pubkeysToNotify := PubkeysToNotify(relevantPubkeys, pubkeysThatReceivedNotification, {e.pubkey});
      ghost var userInfo := db.userInfo.value;
      ghost var start := dispatched;
      for i := 0 to |pubkeysToNotify|
        invariant Valid() && isDatabaseSetup && db == old(db)
        invariant dispatched == start + Dispatches(e.id, pubkeysToNotify[..i], userInfo)
      {
        var sentToPubkey := SendEventNotificationsToPubkey(e, pubkeysToNotify[i]);
        LogStep(start, e.id, pubkeysToNotify, i, userInfo);
      }
      var newNotificationStatus := MarkNotified(notificationStatusForThisEvent, pubkeysToNotify);
      assert dispatched == start + Dispatches(e.id, pubkeysToNotify, userInfo) by {
        assert pubkeysToNotify[..|pubkeysToNotify|] == pubkeysToNotify;
      }
      db := db.(notifications := Some(db.notifications.value[e.id := newNotificationStatus]));
      r := Pass;
    }

    /** `saveUserDeviceInfo`: replaces the pubkey's tokens by exactly the one given (last writer wins). */
    method SaveUserDeviceInfo(pubkey: Pubkey, deviceToken: DeviceToken) returns (r: Outcome)
      requires Valid()
      modifies this
      ensures Valid() && isDatabaseSetup == old(isDatabaseSetup) && dispatched == old(dispatched)
      ensures !old(isDatabaseSetup) ==> r == Fail(DatabaseNotSetup) && db == old(db)
      ensures old(isDatabaseSetup) ==>
                r == Pass && db == old(db).(userInfo := Some(old(db).userInfo.value[pubkey := [deviceToken]]))
    {
      var check := ThrowIfDatabaseNotSetup();
      if check.Fail? {
        return check;
      }
      db := db.(userInfo := Some(db.userInfo.value[pubkey := [deviceToken]]));
      r := Pass;
    }
  }

  // ---------------------------------------------------------------------------
  // As written: `getNotificationStatus` returns a `NotificationStatus` instance
  // only when the event has no row; with a row it returns the parsed JSON, a
  // plain object without the `pubkeysThatReceivedNotification` method. The
  // spread of the instance also stores its `statusInfo` property in the blob.

  /** A value in a status blob as the manager writes it: a flag, or the spread instance's `statusInfo` object. */
  datatype StoredValue = Flag(b: bool) | Nested(fields: StatusMap)
  type StoredStatus = map<string, StoredValue>

  /** What `getNotificationStatus` returns as written. */
  datatype LoadedStatus = Instance(statusInfo: StatusMap) | PlainObject(fields: StoredStatus)

  /** Processing as written: it completes with new rows and pushes, or throws. */
  datatype AsWrittenRun = Completed(rows: map<EventId, StoredStatus>, sent: seq<Dispatch>) | Threw(error: string)

  const NotAFunction := "notificationStatusForThisEvent.pubkeysThatReceivedNotification is not a function"

  function GetNotificationStatusAsWritten(rows: map<EventId, StoredStatus>, eventId: EventId): (r: LoadedStatus)
    ensures r.Instance? <==> eventId !in rows
    ensures r.Instance? ==> r.statusInfo == map[]
    ensures r.PlainObject? ==> r.fields == rows[eventId]
  {
    if eventId !in rows then Instance(map[]) else PlainObject(rows[eventId])
  }

  /** `sendNotificationsIfNeeded` as written (the database already set up). */
  function SendNotificationsIfNeededAsWritten(rows: map<EventId, StoredStatus>, userInfo: UserInfoTable, e: Event): (r: AsWrittenRun)
  {
    match GetNotificationStatusAsWritten(rows, e.id)
    case PlainObject(_) => Threw(NotAFunction)
    case Instance(statusInfo) =>
      var pubkeysToNotify := PubkeysToNotify(NostrEvent.RelevantPubkeys(e), PubkeysThatReceivedNotification(statusInfo), {e.pubkey});
      var newNotificationStatus := map["statusInfo" := Nested(statusInfo)] + map p | p in pubkeysToNotify :: Flag(true);
      Completed(rows[e.id := newNotificationStatus], Dispatches(e.id, pubkeysToNotify, userInfo))
  }

  /**
   * As written, the run throws exactly when the event already has a row; on
   * a new event it sends what the corrected rule sends and stores the
   * `statusInfo` entry beside the pubkeys.
   */
  lemma AsWrittenFirstRun(rows: map<EventId, StoredStatus>, userInfo: UserInfoTable, e: Event)
    ensures var r := SendNotificationsIfNeededAsWritten(rows, userInfo, e);
            && (r.Threw? <==> e.id in rows)
            && (r.Completed? ==> r.rows.Keys == rows.Keys + {e.id} && "statusInfo" in r.rows[e.id])
            && (r.Completed? ==> r.sent == ProcessEvent(map[], userInfo, e.id, NostrEvent.RelevantPubkeys(e), {e.pubkey}).sent)
  {
    var r := SendNotificationsIfNeededAsWritten(rows, userInfo, e);
    if r.Completed? {
      assert "statusInfo" in r.rows[e.id];
    }
  }

  /**
   * As written, any event processed a second time makes the manager throw,
   * and the first run has stored a `statusInfo` entry that is no pubkey.
   */
  lemma {:induction false} AsWrittenSecondRunThrows(rows: map<EventId, StoredStatus>, userInfo: UserInfoTable, e: Event)
    requires e.id !in rows
    ensures var first := SendNotificationsIfNeededAsWritten(rows, userInfo, e);
            first.Completed? && e.id in first.rows && "statusInfo" in first.rows[e.id]
            && SendNotificationsIfNeededAsWritten(first.rows, userInfo, e) == Threw(NotAFunction)
  {
    var first := SendNotificationsIfNeededAsWritten(rows, userInfo, e);
    assert first.rows[e.id].Keys >= {"statusInfo"};
  }
}
