/**
 * NotificationService: creating a reminder from a `/notify HH:mm text`
 * command, listing and cancelling reminders by their ordinal in the active
 * list, and the once-a-minute sweep that sends and deletes the reminders
 * set for the current minute.
 */
module Notifications {
  import opened Base
  import opened Text
  import opened LocalTimes
  import opened Store
  import opened NotificationRepo
  import opened UserState
  import opened UserInfo
  import opened Outcomes
  import Deletion

  /** How `handleNotifyCommand` decides on the command text at time `now`. */
  datatype NotifyDecision =
    | ShowList
    | RejectBadTime
    | RejectPast(requested: LocalTime)
    | Accept(time: LocalTime, message: string)

  /**
   * The straight-line part of `handleNotifyCommand`: split the trimmed text
   * into at most three whitespace-separated parts; fewer than three only
   * show the list; the second part must parse as `HH:mm`; a time strictly
   * before the untruncated `now` is refused; otherwise the third part,
   * everything after the time, is the reminder text.
   */
  function DecideNotify(messageText: string, now: LocalTime): (d: NotifyDecision)
    ensures d.ShowList? <==> |Split(Trim(messageText), 3)| < 3
    ensures d.RejectBadTime? <==> |Split(Trim(messageText), 3)| == 3 && ParseTime(Split(Trim(messageText), 3)[1]).None?
    ensures d.Accept? ==> !IsBefore(d.time, now) && d.time % NANOS_PER_MINUTE == 0
    ensures d.Accept? ==> var parts := Split(Trim(messageText), 3);
      ParseTime(parts[1]) == Some(d.time) && d.message == parts[2]
    ensures d.RejectPast? <==> (|Split(Trim(messageText), 3)| == 3 && ParseTime(Split(Trim(messageText), 3)[1]).Some?
                                && IsBefore(ParseTime(Split(Trim(messageText), 3)[1]).value, now))
    ensures d.Accept? <==> (|Split(Trim(messageText), 3)| == 3 && ParseTime(Split(Trim(messageText), 3)[1]).Some?
                            && !IsBefore(ParseTime(Split(Trim(messageText), 3)[1]).value, now))
    ensures d.RejectPast? ==> ParseTime(Split(Trim(messageText), 3)[1]) == Some(d.requested) && IsBefore(d.requested, now)
  {
    var parts := Split(Trim(messageText), 3);
    if |parts| < 3 then ShowList
    else
      match ParseTime(parts[1])
      case None => RejectBadTime
      case Some(time) => if IsBefore(time, now) then RejectPast(time) else Accept(time, parts[2])
  }

  /** A command word, a time and a text, single-spaced, split into exactly those three parts. */
  lemma SplitCommand(cmd: string, hhmm: string, msg: string)
    requires cmd != [] && NoWhitespace(cmd) && !IsTrimmable(cmd[0])
    requires hhmm != [] && NoWhitespace(hhmm)
    requires msg != [] && !IsWhitespace(msg[0]) && !IsTrimmable(msg[|msg| - 1])
    ensures Split(Trim(cmd + " " + hhmm + " " + msg), 3) == [cmd, hhmm, msg]
  {
    var s := cmd + " " + hhmm + " " + msg;
    assert s == cmd + [' '] + hhmm + [' '] + msg;
    SplitThree(cmd, hhmm, msg);
    assert s[0] == cmd[0] && s[|s| - 1] == msg[|msg| - 1];
    TrimOfTrimmed(s);
  }

  /**
   * A well-formed command whose time is not before now is accepted, and the
   * reminder text is the whole rest of the line, inner spacing included.
   */
  lemma WellFormedCommandAccepted(cmd: string, hhmm: string, msg: string, now: LocalTime)
    requires cmd != [] && NoWhitespace(cmd) && !IsTrimmable(cmd[0])
    requires msg != [] && !IsWhitespace(msg[0]) && !IsTrimmable(msg[|msg| - 1])
    requires ParseTime(hhmm).Some? && !IsBefore(ParseTime(hhmm).value, now)
    ensures DecideNotify(cmd + " " + hhmm + " " + msg, now) == Accept(ParseTime(hhmm).value, msg)
  {
    ParsedTimeIsOneWord(hhmm);
    SplitCommand(cmd, hhmm, msg);
  }

  /** Thirty seconds into 10:00, a reminder for "10:00" is in the past and refused. */
  lemma StartOfCurrentMinuteIsPast(cmd: string, msg: string)
    requires cmd != [] && NoWhitespace(cmd) && !IsTrimmable(cmd[0])
    requires msg != [] && !IsWhitespace(msg[0]) && !IsTrimmable(msg[|msg| - 1])
    ensures DecideNotify(cmd + " 10:00 " + msg, OfHourMinute(10, 0) + 30 * NANOS_PER_SECOND)
         == RejectPast(OfHourMinute(10, 0))
  {
    assert ParseTime("10:00") == Some(OfHourMinute(10, 0));
    ParsedTimeIsOneWord("10:00");
    SplitCommand(cmd, "10:00", msg);
    assert cmd + " 10:00 " + msg == cmd + " " + "10:00" + " " + msg;
  }

  /**
   * An accepted reminder is listed as active right after creation, except
   * when it is set for the very instant of creation (then it is due now).
   */
  lemma CreatedIsActive(ns: seq<Notification>, n: Notification, now: LocalTime)
    requires n.notificationTime % NANOS_PER_MINUTE == 0 && !IsBefore(n.notificationTime, now)
    requires n.notificationTime != now
    ensures n in FindActive(ns + [n], n.chatId, TruncateToMinute(now))
  {
    FindActiveMember(ns + [n], n.chatId, TruncateToMinute(now), n);
  }

  /** `showUserNotifications(chatId)`: the active list at the current minute. */
  function ShowUserNotifications(ns: seq<Notification>, chatId: ChatId, now: LocalTime): (o: NotificationOutcome)
    ensures o.ActiveList? && Seqs.SortedBy(o.active, TimeKey)
    ensures forall i :: 0 <= i < |o.active| ==> o.active[i] in ns && o.active[i].chatId == chatId
    ensures forall x :: x in o.active <==> x in ns && IsActive(x, chatId, TruncateToMinute(now))
  {
    var active := FindActive(ns, chatId, TruncateToMinute(now));
    forall x ensures x in active <==> x in ns && IsActive(x, chatId, TruncateToMinute(now)) {
      FindActiveMember(ns, chatId, TruncateToMinute(now), x);
    }
    ActiveList(active)
  }

  /**
   * `handleNotifyCommand(chatId, messageText, username)`: ensures the user
   * exists, then saves exactly one reminder when the command is accepted
   * and nothing otherwise.
   */
  method HandleNotifyCommand(db: Database, chatId: ChatId, messageText: string, username: Option<string>, clock: Clock)
    returns (o: NotificationOutcome)
    requires db.Valid()
    modifies db
    ensures db.Valid()
    ensures db.users == UsersAfterGetOrCreate(old(db.users), old(db.nextId), chatId, username)
    ensures db.transactions == old(db.transactions)
    ensures var d := DecideNotify(messageText, clock.timeOfDay);
      match d
      case ShowList =>
        db.notifications == old(db.notifications) && o == ShowUserNotifications(db.notifications, chatId, clock.timeOfDay)
      case RejectBadTime =>
        db.notifications == old(db.notifications) && o == BadTimeFormat
      case RejectPast(requested) =>
        db.notifications == old(db.notifications) && o == PastTime(clock.timeOfDay, requested)
      case Accept(time, message) =>
        exists id: nat ::
          && db.notifications == old(db.notifications) + [Notification(id, chatId, time, message, clock.epochMillis)]
          && o == Created(Notification(id, chatId, time, message, clock.epochMillis),
                          FindActive(db.notifications, chatId, TruncateToMinute(clock.timeOfDay)))
  {
    var user := GetOrCreateUser(db, chatId, username);
    var d := DecideNotify(messageText, clock.timeOfDay);
    match d
    case ShowList =>
      o := ShowUserNotifications(db.notifications, chatId, clock.timeOfDay);
    case RejectBadTime =>
      o := BadTimeFormat;
    case RejectPast(requested) =>
      o := PastTime(clock.timeOfDay, requested);
    case Accept(time, message) =>
      var n := db.SaveNotification(chatId, time, message, clock.epochMillis);
      o := Created(n, FindActive(db.notifications, chatId, TruncateToMinute(clock.timeOfDay)));
  }

  /**
   * `handleDeleteNotificationCommand(chatId, username)`: lists the active
   * reminders and sets the awaiting-notification flag, unless there are
   * none. The store is not changed.
   */
  method HandleDeleteNotificationCommand(db: Database, userState: UserStateService, chatId: ChatId, clock: Clock)
    returns (o: NotificationOutcome)
    requires userState.Valid()
    modifies userState
    ensures userState.Valid()
    ensures var active := FindActive(old(db.notifications), chatId, TruncateToMinute(clock.timeOfDay));
      o == if active == [] then NothingToDelete else DeletionList(active)
    ensures userState.Snapshot() == if o.NothingToDelete? then old(userState.Snapshot()) else old(userState.Snapshot()).(
      awaitingNotificationDeletion := old(userState.awaitingNotificationDeletion) + {chatId},
      notificationDeletionExpirations := old(userState.notificationDeletionExpirations)[chatId := clock.epochMillis + DEFAULT_TTL_MS])
  {
    var notifications := FindActive(db.notifications, chatId, TruncateToMinute(clock.timeOfDay));
    if notifications == [] {
      return NothingToDelete;
    }
    ghost var ns := db.notifications;
    userState.SetAwaitingNotificationDeletion(Some(chatId), DEFAULT_TTL_MS, clock.epochMillis);
    assert db.notifications == ns;
    assert Max0(DEFAULT_TTL_MS) == DEFAULT_TTL_MS;
    o := DeletionList(notifications);
  }

  /**
   * The table and the answer of choosing ordinal n from the chat's active
   * list at `now` while the wait is on: an ordinal outside 1..|active|
   * deletes nothing and is refused; a valid one deletes that element of the
   * ascending list and answers with the list that remains.
   */
  function SelectNotification(ns: seq<Notification>, chatId: ChatId, now: LocalTime, n: int)
    : (r: (seq<Notification>, NotificationOutcome))
    ensures var active := FindActive(ns, chatId, TruncateToMinute(now));
      if n < 1 || n > |active| then r == (ns, InvalidNotificationNumber)
      else
        && r.0 == WithoutNotifications(ns, {active[n - 1].id})
        && r.1 == NotificationDeleted(active[n - 1], FindActive(r.0, chatId, TruncateToMinute(now)))
  {
    var active := FindActive(ns, chatId, TruncateToMinute(now));
    if n < 1 || n > |active| then (ns, InvalidNotificationNumber)
    else
      var after := WithoutNotifications(ns, {active[n - 1].id});
      (after, NotificationDeleted(active[n - 1], FindActive(after, chatId, TruncateToMinute(now))))
  }

  /**
   * `handleNotificationSelection(chatId, notificationNumber, username)`.
   * Without the awaiting flag nothing changes. Otherwise the flag is
   * cleared first; an ordinal outside 1..|active| deletes nothing; a valid
   * ordinal deletes that element of the ascending active list.
   */
  method HandleNotificationSelection(db: Database, userState: UserStateService, chatId: ChatId, notificationNumber: int, clock: Clock)
    returns (o: NotificationOutcome)
    requires db.Valid() && userState.Valid()
    modifies db, userState
    ensures db.Valid() && userState.Valid()
    ensures db.users == old(db.users) && db.transactions == old(db.transactions)
    ensures userState.states == old(userState.states) && userState.stateExpirations == old(userState.stateExpirations)
    ensures userState.awaitingCategoryDeletion == old(userState.awaitingCategoryDeletion)
    ensures userState.categoryDeletionExpirations == old(userState.categoryDeletionExpirations)
    ensures userState.awaitingNotificationDeletion == old(userState.awaitingNotificationDeletion) - {chatId}
    ensures userState.notificationDeletionExpirations == old(userState.notificationDeletionExpirations) - {chatId}
    ensures chatId !in old(userState.awaitingNotificationDeletion) ==>
      o == InvalidNotificationNumber && db.notifications == old(db.notifications)
    ensures chatId in old(userState.awaitingNotificationDeletion) ==>
      (db.notifications, o) == SelectNotification(old(db.notifications), chatId, clock.timeOfDay, notificationNumber)
  {
    if !userState.IsAwaitingNotificationDeletion(chatId) {
      return InvalidNotificationNumber;
    }
    userState.ClearAwaitingNotificationDeletion(chatId);
    var notifications := FindActive(db.notifications, chatId, TruncateToMinute(clock.timeOfDay));
    if notificationNumber < 1 || notificationNumber > |notifications| {
      return InvalidNotificationNumber;
    }
    var selected := notifications[notificationNumber - 1];
    db.DeleteNotification(selected);
    o := NotificationDeleted(selected, FindActive(db.notifications, chatId, TruncateToMinute(clock.timeOfDay)));
  }

  /** A valid ordinal removes exactly the chosen reminder and keeps every other row. */
  lemma SelectionDeletesExactlyOne(ns: seq<Notification>, chatId: ChatId, now: LocalTime, k: int)
    requires UniqueNotificationIds(ns)
    requires 0 <= k < |FindActive(ns, chatId, now)|
    ensures var chosen := FindActive(ns, chatId, now)[k];
      multiset(WithoutNotifications(ns, {chosen.id})) == multiset(ns) - multiset{chosen}
  {
    var chosen := FindActive(ns, chatId, now)[k];
    FindActiveMember(ns, chatId, now, chosen);
    WithoutNotificationsRemovesOne(ns, chosen);
  }

  /**
   * The ordinal a user reads in a list names a different reminder once a
   * listed reminder has passed: "1" is the 10:01 reminder b at 10:00 and
   * the 10:05 reminder a at 10:02.
   */
  lemma OrdinalShiftsAsTimePasses(a: Notification, b: Notification)
    requires a.chatId == b.chatId
    requires a.notificationTime == OfHourMinute(10, 5) && b.notificationTime == OfHourMinute(10, 1)
    ensures FindActive([a, b], a.chatId, OfHourMinute(10, 0)) == [b, a]
    ensures FindActive([a, b], a.chatId, OfHourMinute(10, 2)) == [a]
  {
    assert IsBefore(OfHourMinute(10, 0), OfHourMinute(10, 1));
    assert IsBefore(OfHourMinute(10, 2), OfHourMinute(10, 5));
    assert !IsBefore(OfHourMinute(10, 2), OfHourMinute(10, 1));
    BothActiveOfTwo(a, b, a.chatId, OfHourMinute(10, 0));
    FirstActiveOfTwo(a, b, a.chatId, OfHourMinute(10, 2));
  }

  /** Two active reminders of a chat, the later first in the table: the list puts the earlier first. */
  lemma BothActiveOfTwo(a: Notification, b: Notification, chatId: ChatId, now: LocalTime)
    requires IsActive(a, chatId, now) && IsActive(b, chatId, now)
    requires b.notificationTime < a.notificationTime
    ensures FindActive([a, b], chatId, now) == [b, a]
  {
    var ns := [a, b];
    assert ns[1..] == [b] && [b][1..] == [];
    assert Seqs.Filter(ns, (n: Notification) => IsActive(n, chatId, now)) == [a, b];
    assert Seqs.SortBy([b], TimeKey) == [b];
    assert Seqs.SortBy(ns, TimeKey) == Seqs.InsertBy(a, [b], TimeKey);
  }

  /** Of two reminders only the first still active: the list is that one alone. */
  lemma FirstActiveOfTwo(a: Notification, b: Notification, chatId: ChatId, now: LocalTime)
    requires IsActive(a, chatId, now) && !IsActive(b, chatId, now)
    ensures FindActive([a, b], chatId, now) == [a]
  {
    var ns := [a, b];
    assert ns[1..] == [b] && [b][1..] == [];
    assert Seqs.Filter(ns, (n: Notification) => IsActive(n, chatId, now)) == [a];
    assert Seqs.SortBy([a], TimeKey) == [a];
  }

  /** The reminder messages the sweep sends for ns, in order. */
  function Reminders(ns: seq<Notification>): (r: seq<Outgoing>)
    ensures |r| == |ns|
    ensures forall i :: 0 <= i < |ns| ==> r[i] == Outgoing(ns[i].chatId, Reminder(ns[i]), Deletion.REMINDER_TTL)
  {
    seq(|ns|, i requires 0 <= i < |ns| => Outgoing(ns[i].chatId, Reminder(ns[i]), Deletion.REMINDER_TTL))
  }

  /**
   * `checkAndSendNotifications()`: every reminder set for the current
   * minute, of any chat, is sent with the reminder TTL and then deleted.
   */
  method CheckAndSendNotifications(db: Database, outbox: Outbox, clock: Clock)
    requires db.Valid()
    modifies db, outbox
    ensures db.Valid()
    ensures var due := FindByTime(old(db.notifications), TruncateToMinute(clock.timeOfDay));
      && db.notifications == WithoutNotifications(old(db.notifications), Seqs.Keys(due, NotificationId))
      && outbox.sent == old(outbox.sent) + Reminders(due)
    ensures db.users == old(db.users) && db.transactions == old(db.transactions)
  {
    var currentTime := TruncateToMinute(clock.timeOfDay);
    var notificationsToSend := FindByTime(db.notifications, currentTime);
    ghost var before := db.notifications;
    ghost var sent0 := outbox.sent;
    WithoutNoNotifications(before);
    assert Seqs.Keys(notificationsToSend[..0], NotificationId) == {};
    var i := 0;
    while i < |notificationsToSend|
      invariant 0 <= i <= |notificationsToSend|
      invariant db.Valid()
      invariant db.notifications == WithoutNotifications(before, Seqs.Keys(notificationsToSend[..i], NotificationId))
      invariant outbox.sent == sent0 + Reminders(notificationsToSend[..i])
      invariant db.users == old(db.users) && db.transactions == old(db.transactions)
    {
      SendAndDelete(db, outbox, before, sent0, notificationsToSend, i);
      i := i + 1;
    }
    assert notificationsToSend[..i] == notificationsToSend;
  }

  /** One turn of the sweep: the i-th due reminder is sent, then its row is deleted. */
  method SendAndDelete(db: Database, outbox: Outbox, ghost before: seq<Notification>, ghost sent0: seq<Outgoing>,
                       due: seq<Notification>, i: nat)
    requires db.Valid() && i < |due|
    requires db.notifications == WithoutNotifications(before, Seqs.Keys(due[..i], NotificationId))
    requires outbox.sent == sent0 + Reminders(due[..i])
    modifies db, outbox
    ensures db.Valid()
    ensures db.notifications == WithoutNotifications(before, Seqs.Keys(due[..i + 1], NotificationId))
    ensures outbox.sent == sent0 + Reminders(due[..i + 1])
    ensures db.users == old(db.users) && db.transactions == old(db.transactions)
  {
    var notification := due[i];
    outbox.Send(notification.chatId, Reminder(notification), Deletion.REMINDER_TTL);
    db.DeleteNotification(notification);
    SweepStep(before, due, i);
  }

  /** One more reminder sent and deleted extends the sweep's prefix by one. */
  lemma SweepStep(before: seq<Notification>, s: seq<Notification>, i: int)
    requires 0 <= i < |s|
    ensures WithoutNotifications(WithoutNotifications(before, Seqs.Keys(s[..i], NotificationId)), {s[i].id})
         == WithoutNotifications(before, Seqs.Keys(s[..i + 1], NotificationId))
    ensures Reminders(s[..i + 1]) == Reminders(s[..i]) + [Outgoing(s[i].chatId, Reminder(s[i]), Deletion.REMINDER_TTL)]
  {
    assert s[..i + 1] == s[..i] + [s[i]];
    assert s[..i + 1][..i] == s[..i];
    assert Seqs.Keys(s[..i + 1], NotificationId) == Seqs.Keys(s[..i], NotificationId) + {s[i].id};
    WithoutNotificationsTwice(before, Seqs.Keys(s[..i], NotificationId), {s[i].id});
  }

  /** With unique ids the sweep deletes exactly the rows set for that minute. */
  lemma SweepDeletesExactlyDue(ns: seq<Notification>, t: LocalTime, x: Notification)
    requires UniqueNotificationIds(ns)
    ensures x in WithoutNotifications(ns, Seqs.Keys(FindByTime(ns, t), NotificationId)) <==> x in ns && x.notificationTime != t
  {
    var due := FindByTime(ns, t);
    WithoutNotificationsMember(ns, Seqs.Keys(due, NotificationId), x);
    FindByTimeMember(ns, t, x);
    if x in ns && x.id in Seqs.Keys(due, NotificationId) {
      Seqs.KeysMember(due, NotificationId, x.id);
      var i :| 0 <= i < |due| && due[i].id == x.id;
      var a :| 0 <= a < |ns| && ns[a] == x;
      var b :| 0 <= b < |ns| && ns[b] == due[i];
      assert a == b;
    }
  }

  /** A second sweep in the same minute finds nothing: each reminder fires at most once. */
  lemma SweepFiresOnce(ns: seq<Notification>, t: LocalTime)
    requires UniqueNotificationIds(ns)
    ensures FindByTime(WithoutNotifications(ns, Seqs.Keys(FindByTime(ns, t), NotificationId)), t) == []
  {
    var after := WithoutNotifications(ns, Seqs.Keys(FindByTime(ns, t), NotificationId));
    forall i | 0 <= i < |after| ensures after[i].notificationTime != t {
      SweepDeletesExactlyDue(ns, t, after[i]);
    }
    Seqs.FilterNone(after, (n: Notification) => n.notificationTime == t);
  }
}
