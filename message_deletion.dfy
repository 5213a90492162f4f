/**
 * MessageDeletion: the FIFO queue of messages to delete once their TTL has
 * passed, drained by a worker that stops at the first entry that is not
 * yet due. Time is the parameter `nowMillis`; the ten-second worker tick is
 * an explicit call of ProcessMessageDeletion; the delete requests sent to
 * the Telegram API are recorded in the log `deleteCalls`.
 */
module Deletion {
  import opened Base

  /** Message lifetimes the senders pass in, in seconds (MessageSender and the menus). */
  const NOTIFICATION_CREATED_TTL: int := 2 * 60
  const MENU_TTL: int := 5 * 60
  const REMINDER_TTL: int := 10 * 60 * 60
  const DEFAULT_TTL: int := 24 * 60 * 60

  /** `MessageToDelete`: sentDate in whole epoch seconds, ttl in seconds. */
  datatype MessageToDelete = MessageToDelete(chatId: ChatId, messageId: int, sentDate: int, ttl: int)

  /** One `DeleteMessage` request issued to the Telegram API. */
  datatype DeleteRequest = DeleteRequest(chatId: ChatId, messageId: int)

  /** `sentDate + ttl`: the second from which the message may be deleted. */
  function DeleteTime(m: MessageToDelete): int {
    m.sentDate + m.ttl
  }

  /** The worker's test `currentTime >= deleteTime`. */
  predicate IsDue(m: MessageToDelete, currentTime: int) {
    currentTime >= DeleteTime(m)
  }

  /** The request that deleting m issues. */
  function RequestFor(m: MessageToDelete): DeleteRequest {
    DeleteRequest(m.chatId, m.messageId)
  }

  /** The requests for the entries of q, in queue order. */
  function Requests(q: seq<MessageToDelete>): (r: seq<DeleteRequest>)
    ensures |r| == |q|
    ensures forall i :: 0 <= i < |q| ==> r[i] == RequestFor(q[i])
  {
    if q == [] then [] else [RequestFor(q[0])] + Requests(q[1..])
  }

  /** Length of the longest prefix of q whose entries are all due at currentTime. */
  function DuePrefixLength(q: seq<MessageToDelete>, currentTime: int): (n: nat)
    ensures n <= |q|
    ensures forall i :: 0 <= i < n ==> IsDue(q[i], currentTime)
    ensures n < |q| ==> !IsDue(q[n], currentTime)
  {
    if q == [] || !IsDue(q[0], currentTime) then 0 else 1 + DuePrefixLength(q[1..], currentTime)
  }

  /** Delete times never decrease along q (what a single TTL and in-order enqueueing give). */
  predicate FireTimesNonDecreasing(q: seq<MessageToDelete>) {
    forall i, j :: 0 <= i <= j < |q| ==> DeleteTime(q[i]) <= DeleteTime(q[j])
  }

  class MessageDeletion {
    /** Whether `setTelegramBot` has been called (the `bot != null` test). */
    var botSet: bool
    /** `eraseQueue`, head first. */
    var eraseQueue: seq<MessageToDelete>
    /** The delete requests issued so far, oldest first. */
    var deleteCalls: seq<DeleteRequest>

    constructor ()
      ensures !botSet && eraseQueue == [] && deleteCalls == []
    {
      botSet, eraseQueue, deleteCalls := false, [], [];
    }

    /** `setTelegramBot(bot)`; starting the worker timer is not modelled. */
    method SetTelegramBot()
      modifies this
      ensures botSet
      ensures eraseQueue == old(eraseQueue) && deleteCalls == old(deleteCalls)
    {
      botSet := true;
    }

    /**
     * `scheduleMessageForDeletion(chatId, messageId, ttlSeconds)` at
     * nowMillis: a non-positive TTL enqueues nothing; otherwise one entry
     * stamped with the current whole second goes to the tail.
     */
    method ScheduleMessageForDeletion(chatId: ChatId, messageId: int, ttlSeconds: int, nowMillis: nat)
      modifies this
      ensures ttlSeconds <= 0 ==> eraseQueue == old(eraseQueue)
      ensures ttlSeconds > 0 ==>
        eraseQueue == old(eraseQueue) + [MessageToDelete(chatId, messageId, nowMillis / 1000, ttlSeconds)]
      ensures botSet == old(botSet) && deleteCalls == old(deleteCalls)
    {
      if ttlSeconds > 0 {
        eraseQueue := eraseQueue + [MessageToDelete(chatId, messageId, nowMillis / 1000, ttlSeconds)];
      }
    }

    /**
     * `deleteMessageImmediately(chatId, messageId)`: without a bot nothing
     * happens; otherwise one request is issued (an API failure is caught and
     * logged by the source, and changes nothing here). The queue is never
     * touched.
     */
    method DeleteMessageImmediately(chatId: ChatId, messageId: int)
      modifies this
      ensures deleteCalls == if old(botSet) then old(deleteCalls) + [DeleteRequest(chatId, messageId)] else old(deleteCalls)
      ensures botSet == old(botSet) && eraseQueue == old(eraseQueue)
    {
      if !botSet {
        return;
      }
      deleteCalls := deleteCalls + [DeleteRequest(chatId, messageId)];
    }

    /**
     * `processMessageDeletion()` at nowMillis: without a bot nothing happens;
     * otherwise the longest due prefix of the queue is removed and deleted,
     * in queue order, and the rest of the queue stays as it was.
     */
    method ProcessMessageDeletion(nowMillis: nat)
      modifies this
      ensures botSet == old(botSet)
      ensures !old(botSet) ==> eraseQueue == old(eraseQueue) && deleteCalls == old(deleteCalls)
      ensures old(botSet) ==>
        var n := DuePrefixLength(old(eraseQueue), nowMillis / 1000);
        && eraseQueue == old(eraseQueue)[n..]
        && deleteCalls == old(deleteCalls) + Requests(old(eraseQueue)[..n])
    {
      if !botSet {
        return;
      }
      var currentTime := nowMillis / 1000;
      ghost var q := eraseQueue;
      ghost var n := DuePrefixLength(q, currentTime);
      ghost var k := 0;
      while eraseQueue != []
        invariant botSet
        invariant 0 <= k <= n
        invariant eraseQueue == q[k..]
        invariant deleteCalls == old(deleteCalls) + Requests(q[..k])
        decreases |eraseQueue|
      {
        var message := eraseQueue[0];
        var deleteTime := message.sentDate + message.ttl;
        if currentTime >= deleteTime {
          DrainStep(q, k, currentTime);
          eraseQueue := eraseQueue[1..];
          DeleteMessageImmediately(message.chatId, message.messageId);
          k := k + 1;
        } else {
          break;
        }
      }
      DrainStops(q, k, currentTime);
    }
  }

  /** A due entry at position k of the drained part extends the due prefix and its requests by one. */
  lemma DrainStep(q: seq<MessageToDelete>, k: nat, currentTime: int)
    requires k <= DuePrefixLength(q, currentTime) && k < |q| && IsDue(q[k], currentTime)
    ensures k < DuePrefixLength(q, currentTime)
    ensures q[k + 1..] == q[k..][1..]
    ensures Requests(q[..k + 1]) == Requests(q[..k]) + [RequestFor(q[k])]
  {
    assert q[..k + 1] == q[..k] + [q[k]];
    RequestsAppend(q[..k], q[k]);
  }

  /** The drain stops at an empty queue or an entry not yet due, which is the end of the due prefix. */
  lemma DrainStops(q: seq<MessageToDelete>, k: nat, currentTime: int)
    requires k <= DuePrefixLength(q, currentTime) && k <= |q|
    requires k == |q| || !IsDue(q[k], currentTime)
    ensures k == DuePrefixLength(q, currentTime)
  {
  }

  lemma {:induction false} RequestsAppend(q: seq<MessageToDelete>, m: MessageToDelete)
    ensures Requests(q + [m]) == Requests(q) + [RequestFor(m)]
  {
    var r := Requests(q + [m]);
    var s := Requests(q) + [RequestFor(m)];
    assert |r| == |s|;
    forall i | 0 <= i < |r| ensures r[i] == s[i] {
      if i < |q| {
        assert (q + [m])[i] == q[i];
      }
    }
  }

  /* ------------------ properties of the drain ------------------ */

  /** Draining twice at the same second deletes nothing the second time. */
  lemma DrainTwiceDeletesNothing(q: seq<MessageToDelete>, currentTime: int)
    ensures DuePrefixLength(q[DuePrefixLength(q, currentTime)..], currentTime) == 0
  {
  }

  /** After a drain the head of the queue, if any, is not yet due. */
  lemma DrainLeavesUndueHead(q: seq<MessageToDelete>, currentTime: int)
    ensures var rest := q[DuePrefixLength(q, currentTime)..];
      rest == [] || !IsDue(rest[0], currentTime)
  {
  }

  /**
   * When delete times never decrease along the queue, the drain removes
   * exactly the due entries.
   */
  lemma SortedDrainRemovesExactlyDue(q: seq<MessageToDelete>, currentTime: int, i: int)
    requires FireTimesNonDecreasing(q)
    requires 0 <= i < |q|
    ensures i < DuePrefixLength(q, currentTime) <==> IsDue(q[i], currentTime)
  {
    var n := DuePrefixLength(q, currentTime);
    if i >= n {
      assert DeleteTime(q[n]) <= DeleteTime(q[i]);
    }
  }

  /** One TTL for every entry and sending times that never decrease give a sorted queue. */
  lemma SameTtlInSendOrderIsSorted(q: seq<MessageToDelete>)
    requires forall i :: 0 <= i < |q| ==> q[i].ttl == q[0].ttl
    requires forall i, j :: 0 <= i <= j < |q| ==> q[i].sentDate <= q[j].sentDate
    ensures FireTimesNonDecreasing(q)
  {
  }

  /** Scheduling with the same TTL at a non-decreasing clock keeps the queue sorted. */
  lemma ScheduleKeepsSorted(q: seq<MessageToDelete>, m: MessageToDelete)
    requires FireTimesNonDecreasing(q)
    requires forall i :: 0 <= i < |q| ==> q[i].ttl == m.ttl && q[i].sentDate <= m.sentDate
    ensures FireTimesNonDecreasing(q + [m])
  {
    forall i, j | 0 <= i <= j < |q + [m]| ensures DeleteTime((q + [m])[i]) <= DeleteTime((q + [m])[j]) {
      if j == |q| {
        if i < |q| { assert (q + [m])[i] == q[i]; }
      } else {
        assert (q + [m])[i] == q[i] && (q + [m])[j] == q[j];
      }
    }
  }

  /**
   * Two ticks at t1 <= t2 delete exactly what one tick at t2 deletes: the
   * due prefix at t2 extends the one at t1.
   */
  lemma {:induction false} DrainInTwoTicks(q: seq<MessageToDelete>, t1: int, t2: int)
    requires t1 <= t2
    ensures var n1 := DuePrefixLength(q, t1);
      DuePrefixLength(q, t2) == n1 + DuePrefixLength(q[n1..], t2)
  {
    if q != [] && IsDue(q[0], t1) {
      DrainInTwoTicks(q[1..], t1, t2);
      var n1 := DuePrefixLength(q, t1);
      assert q[1..][n1 - 1..] == q[n1..];
    }
  }

  /**
   * The queue is not ordered by delete time when senders use different
   * TTLs: a reminder (10 h) enqueued before a two-minute message keeps the
   * due two-minute message queued.
   */
  lemma MixedTtlsStarveDueEntry()
    ensures var q := [MessageToDelete(1, 10, 0, REMINDER_TTL), MessageToDelete(1, 11, 0, NOTIFICATION_CREATED_TTL)];
      && IsDue(q[1], 200)
      && DuePrefixLength(q, 200) == 0
  {
  }
}
