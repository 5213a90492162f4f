/**
 * The three NotificationRepository queries as functions of the
 * notifications table: the chat's active reminders in time order, every
 * reminder set for one time of day, and the delete that keeps a chat's
 * newest reminders.
 */
module NotificationRepo {
  import opened Base
  import opened LocalTimes
  import opened Store
  import Seqs

  function TimeKey(n: Notification): int {
    n.notificationTime
  }

  /** Sorting by this key ascending is `ORDER BY createdAt DESC`. */
  function NewestKey(n: Notification): int {
    -n.createdAt
  }

  /** The active-query filter: the chat's reminders strictly after currentTime. */
  predicate IsActive(n: Notification, chatId: ChatId, currentTime: LocalTime) {
    n.chatId == chatId && IsBefore(currentTime, n.notificationTime)
  }

  /**
   * `findActiveByUserChatIdOrderByNotificationTimeAsc(chatId, currentTime)`.
   * Rows with equal times come in table order.
   */
  function FindActive(ns: seq<Notification>, chatId: ChatId, currentTime: LocalTime): (r: seq<Notification>)
    ensures Seqs.SortedBy(r, TimeKey)
    ensures forall i :: 0 <= i < |r| ==> r[i].chatId == chatId && r[i].notificationTime > currentTime
    ensures |r| <= |ns|
  {
    var matching := Seqs.Filter(ns, (n: Notification) => IsActive(n, chatId, currentTime));
    var r := Seqs.SortBy(matching, TimeKey);
    assert forall i :: 0 <= i < |r| ==> r[i] in multiset(matching);
    r
  }

  /** The active list holds every active row of the table, with its multiplicity, and nothing else. */
  lemma FindActiveExact(ns: seq<Notification>, chatId: ChatId, currentTime: LocalTime, x: Notification)
    ensures multiset(FindActive(ns, chatId, currentTime))[x]
         == if IsActive(x, chatId, currentTime) then multiset(ns)[x] else 0
  {
    Seqs.FilterCount(ns, (n: Notification) => IsActive(n, chatId, currentTime), x);
  }

  lemma FindActiveMember(ns: seq<Notification>, chatId: ChatId, currentTime: LocalTime, x: Notification)
    ensures x in FindActive(ns, chatId, currentTime)
        <==> x in ns && x.chatId == chatId && x.notificationTime > currentTime
  {
    FindActiveExact(ns, chatId, currentTime, x);
    assert x in FindActive(ns, chatId, currentTime) <==> multiset(FindActive(ns, chatId, currentTime))[x] > 0;
    assert x in ns <==> multiset(ns)[x] > 0;
  }

  /** A reminder at the current minute is due now, so it is not listed as active. */
  lemma CurrentMinuteNotActive(ns: seq<Notification>, chatId: ChatId, now: LocalTime, x: Notification)
    requires x.notificationTime == TruncateToMinute(now)
    ensures x !in FindActive(ns, chatId, TruncateToMinute(now))
  {
    FindActiveMember(ns, chatId, TruncateToMinute(now), x);
  }

  /** `findNotificationsByTime(currentTime)`: every chat's rows at exactly that time, in table order. */
  function FindByTime(ns: seq<Notification>, currentTime: LocalTime): (r: seq<Notification>)
    ensures forall i :: 0 <= i < |r| ==> r[i].notificationTime == currentTime && r[i] in ns
  {
    Seqs.Filter(ns, (n: Notification) => n.notificationTime == currentTime)
  }

  lemma FindByTimeExact(ns: seq<Notification>, currentTime: LocalTime, x: Notification)
    ensures multiset(FindByTime(ns, currentTime))[x]
         == if x.notificationTime == currentTime then multiset(ns)[x] else 0
  {
    Seqs.FilterCount(ns, (n: Notification) => n.notificationTime == currentTime, x);
  }

  lemma FindByTimeMember(ns: seq<Notification>, currentTime: LocalTime, x: Notification)
    ensures x in FindByTime(ns, currentTime) <==> x in ns && x.notificationTime == currentTime
  {
    Seqs.FilterMember(ns, (n: Notification) => n.notificationTime == currentTime, x);
  }

  /** The chat's rows, newest first; rows created at the same instant come in table order. */
  function NewestFirst(ns: seq<Notification>, chatId: ChatId): (r: seq<Notification>)
    ensures Seqs.SortedBy(r, NewestKey)
    ensures multiset(r) == multiset(Seqs.Filter(ns, (n: Notification) => n.chatId == chatId))
  {
    Seqs.SortBy(Seqs.Filter(ns, (n: Notification) => n.chatId == chatId), NewestKey)
  }

  lemma NewestFirstMember(ns: seq<Notification>, chatId: ChatId, x: Notification)
    ensures x in NewestFirst(ns, chatId) <==> x in ns && x.chatId == chatId
  {
    var f := Seqs.Filter(ns, (n: Notification) => n.chatId == chatId);
    Seqs.FilterMember(ns, (n: Notification) => n.chatId == chatId, x);
    assert x in NewestFirst(ns, chatId) <==> multiset(NewestFirst(ns, chatId))[x] > 0;
    assert x in f <==> multiset(f)[x] > 0;
  }

  /**
   * The sub-select `ORDER BY createdAt DESC LIMIT keepCount` over the chat's
   * rows; a negative limit is SQLite's "no limit".
   */
  function KeptNotifications(ns: seq<Notification>, chatId: ChatId, keepCount: int): (k: seq<Notification>)
    ensures var all := |NewestFirst(ns, chatId)|;
      |k| == if keepCount < 0 || keepCount >= all then all else keepCount
    ensures forall i :: 0 <= i < |k| ==> k[i] in ns && k[i].chatId == chatId
  {
    var sorted := NewestFirst(ns, chatId);
    var k := if keepCount < 0 || keepCount >= |sorted| then sorted else sorted[..keepCount];
    assert forall i :: 0 <= i < |k| ==> k[i] == sorted[i];
    forall i | 0 <= i < |k| ensures k[i] in ns && k[i].chatId == chatId {
      NewestFirstMember(ns, chatId, k[i]);
    }
    k
  }

  /** `deleteOldNotifications(chatId, keepCount)`: the table afterwards, in table order. */
  function DeleteOldNotifications(ns: seq<Notification>, chatId: ChatId, keepCount: int): (r: seq<Notification>)
    ensures |r| <= |ns|
    ensures forall i :: 0 <= i < |r| ==> r[i] in ns
  {
    var keptIds := Seqs.Keys(KeptNotifications(ns, chatId, keepCount), NotificationId);
    Seqs.Filter(ns, (n: Notification) => n.chatId != chatId || n.id in keptIds)
  }

  /** Rows of other chats are kept with their multiplicity. */
  lemma DeleteOldKeepsOtherChats(ns: seq<Notification>, chatId: ChatId, keepCount: int, x: Notification)
    requires x.chatId != chatId
    ensures multiset(DeleteOldNotifications(ns, chatId, keepCount))[x] == multiset(ns)[x]
  {
    var keptIds := Seqs.Keys(KeptNotifications(ns, chatId, keepCount), NotificationId);
    Seqs.FilterCount(ns, (n: Notification) => n.chatId != chatId || n.id in keptIds, x);
  }

  /** With unique ids, a row of the chat survives exactly when it is among the kept ones. */
  lemma DeleteOldKeepsExactlyKept(ns: seq<Notification>, chatId: ChatId, keepCount: int, x: Notification)
    requires UniqueNotificationIds(ns)
    requires x in ns && x.chatId == chatId
    ensures x in DeleteOldNotifications(ns, chatId, keepCount) <==> x in KeptNotifications(ns, chatId, keepCount)
  {
    var k := KeptNotifications(ns, chatId, keepCount);
    var keptIds := Seqs.Keys(k, NotificationId);
    Seqs.FilterMember(ns, (n: Notification) => n.chatId != chatId || n.id in keptIds, x);
    if x.id in keptIds {
      Seqs.KeysMember(k, NotificationId, x.id);
      var i :| 0 <= i < |k| && k[i].id == x.id;
      var a :| 0 <= a < |ns| && ns[a] == x;
      var b :| 0 <= b < |ns| && ns[b] == k[i];
      assert a == b;
    }
  }

  /** Every kept row of the chat is at least as new as every row of it that goes. */
  lemma KeptAreNewest(ns: seq<Notification>, chatId: ChatId, keepCount: int, kept: Notification, gone: Notification)
    requires kept in KeptNotifications(ns, chatId, keepCount)
    requires gone in ns && gone.chatId == chatId
    requires gone !in KeptNotifications(ns, chatId, keepCount)
    ensures gone.createdAt <= kept.createdAt
  {
    var sorted := NewestFirst(ns, chatId);
    var k := KeptNotifications(ns, chatId, keepCount);
    NewestFirstMember(ns, chatId, gone);
    var j :| 0 <= j < |sorted| && sorted[j] == gone;
    var i :| 0 <= i < |k| && k[i] == kept;
    assert forall t :: 0 <= t < |k| ==> k[t] == sorted[t];
    assert i < j;
  }
}
