/**
 * UserStateService: the per-chat conversation state. Three independent
 * namespaces, each a flag (or dialog string) beside a map of expiry
 * instants in epoch milliseconds. The clock is the parameter `nowMs`; the
 * ten-second background sweep is an explicit call of CleanupExpired.
 */
module UserState {
  import opened Base

  /** `DEFAULT_TTL_MS`: five minutes (5 * 60 * 1000 ms). */
  const DEFAULT_TTL_MS: int := 300_000

  /** The keys of exp whose expiry instant is at or before now. */
  function Expired(exp: map<ChatId, int>, now: int): (ks: set<ChatId>)
    ensures forall c :: c in ks <==> c in exp && exp[c] <= now
  {
    set c | c in exp && exp[c] <= now
  }

  /** All six maps and sets of the service at one instant. */
  datatype StateSnapshot = StateSnapshot(
    states: map<ChatId, string>, stateExpirations: map<ChatId, int>,
    awaitingCategoryDeletion: set<ChatId>, categoryDeletionExpirations: map<ChatId, int>,
    awaitingNotificationDeletion: set<ChatId>, notificationDeletionExpirations: map<ChatId, int>)

  class UserStateService {
    /** Dialog state per chat (`states`) and its expiry (`stateExpirations`). */
    var states: map<ChatId, string>
    var stateExpirations: map<ChatId, int>
    /** Chats awaiting a category number, and the expiry of that wait. */
    var awaitingCategoryDeletion: set<ChatId>
    var categoryDeletionExpirations: map<ChatId, int>
    /** Chats awaiting a reminder number, and the expiry of that wait. */
    var awaitingNotificationDeletion: set<ChatId>
    var notificationDeletionExpirations: map<ChatId, int>

    /** In every namespace the flags and the expiries have the same keys. */
    ghost predicate Valid()
      reads this
    {
      && states.Keys == stateExpirations.Keys
      && awaitingCategoryDeletion == categoryDeletionExpirations.Keys
      && awaitingNotificationDeletion == notificationDeletionExpirations.Keys
    }

    ghost function Snapshot(): StateSnapshot
      reads this
    {
      StateSnapshot(states, stateExpirations, awaitingCategoryDeletion, categoryDeletionExpirations,
                    awaitingNotificationDeletion, notificationDeletionExpirations)
    }

    constructor ()
      ensures Valid()
      ensures states == map[] && stateExpirations == map[]
      ensures awaitingCategoryDeletion == {} && categoryDeletionExpirations == map[]
      ensures awaitingNotificationDeletion == {} && notificationDeletionExpirations == map[]
    {
      states, stateExpirations := map[], map[];
      awaitingCategoryDeletion, categoryDeletionExpirations := {}, map[];
      awaitingNotificationDeletion, notificationDeletionExpirations := {}, map[];
    }

    /* ------------------ dialog states ------------------ */

    /**
     * `setState(chatId, state, ttlMs)`: a null chat or state changes nothing;
     * otherwise the state and the expiry `now + max(0, ttlMs)` replace any
     * earlier ones for that chat.
     */
    method SetState(chatId: Option<ChatId>, state: Option<string>, ttlMs: int, nowMs: int)
      requires Valid()
      modifies this
      ensures Valid()
      ensures chatId.None? || state.None? ==>
        states == old(states) && stateExpirations == old(stateExpirations)
      ensures chatId.Some? && state.Some? ==>
        && states == old(states)[chatId.value := state.value]
        && stateExpirations == old(stateExpirations)[chatId.value := nowMs + Max0(ttlMs)]
      ensures awaitingCategoryDeletion == old(awaitingCategoryDeletion)
      ensures categoryDeletionExpirations == old(categoryDeletionExpirations)
      ensures awaitingNotificationDeletion == old(awaitingNotificationDeletion)
      ensures notificationDeletionExpirations == old(notificationDeletionExpirations)
    {
      if chatId.None? || state.None? {
        return;
      }
      var expireAt := nowMs + Max0(ttlMs);
      states := states[chatId.value := state.value];
      stateExpirations := stateExpirations[chatId.value := expireAt];
    }

    /** `getState(chatId)`: the stored state, expired or not. */
    function GetState(chatId: ChatId): (r: Option<string>)
      reads this
      ensures r.Some? <==> chatId in states
      ensures r.Some? ==> r.value == states[chatId]
    {
      if chatId in states then Some(states[chatId]) else None
    }

    /** `hasState(chatId)`: an expiry is kept exactly for the chats that have a state. */
    predicate HasState(chatId: ChatId)
      reads this
      ensures HasState(chatId) <==> GetState(chatId).Some?
      ensures Valid() ==> (HasState(chatId) <==> chatId in stateExpirations)
    {
      chatId in states
    }

    /** `clearState(chatId)`: the state and its expiry go; nothing else changes. */
    method ClearState(chatId: ChatId)
      requires Valid()
      modifies this
      ensures Valid()
      ensures states == old(states) - {chatId}
      ensures stateExpirations == old(stateExpirations) - {chatId}
      ensures awaitingCategoryDeletion == old(awaitingCategoryDeletion)
      ensures categoryDeletionExpirations == old(categoryDeletionExpirations)
      ensures awaitingNotificationDeletion == old(awaitingNotificationDeletion)
      ensures notificationDeletionExpirations == old(notificationDeletionExpirations)
    {
      states := states - {chatId};
      stateExpirations := stateExpirations - {chatId};
    }

    /* ------------------ awaiting a category number ------------------ */

    /** `setAwaitingCategoryDeletion(chatId, ttlMs)`: a null chat changes nothing. */
    method SetAwaitingCategoryDeletion(chatId: Option<ChatId>, ttlMs: int, nowMs: int)
      requires Valid()
      modifies this
      ensures Valid()
      ensures chatId.None? ==>
        && awaitingCategoryDeletion == old(awaitingCategoryDeletion)
        && categoryDeletionExpirations == old(categoryDeletionExpirations)
      ensures chatId.Some? ==>
        && awaitingCategoryDeletion == old(awaitingCategoryDeletion) + {chatId.value}
        && categoryDeletionExpirations == old(categoryDeletionExpirations)[chatId.value := nowMs + Max0(ttlMs)]
      ensures states == old(states) && stateExpirations == old(stateExpirations)
      ensures awaitingNotificationDeletion == old(awaitingNotificationDeletion)
      ensures notificationDeletionExpirations == old(notificationDeletionExpirations)
    {
      if chatId.None? {
        return;
      }
      awaitingCategoryDeletion := awaitingCategoryDeletion + {chatId.value};
      categoryDeletionExpirations := categoryDeletionExpirations[chatId.value := nowMs + Max0(ttlMs)];
    }

    /** `isAwaitingCategoryDeletion(chatId)`: expiry is not consulted. */
    predicate IsAwaitingCategoryDeletion(chatId: ChatId)
      reads this
      ensures Valid() ==> (IsAwaitingCategoryDeletion(chatId) <==> chatId in categoryDeletionExpirations)
    {
      chatId in awaitingCategoryDeletion
    }

    /** `clearAwaitingCategoryDeletion(chatId)`. */
    method ClearAwaitingCategoryDeletion(chatId: ChatId)
      requires Valid()
      modifies this
      ensures Valid()
      ensures awaitingCategoryDeletion == old(awaitingCategoryDeletion) - {chatId}
      ensures categoryDeletionExpirations == old(categoryDeletionExpirations) - {chatId}
      ensures states == old(states) && stateExpirations == old(stateExpirations)
      ensures awaitingNotificationDeletion == old(awaitingNotificationDeletion)
      ensures notificationDeletionExpirations == old(notificationDeletionExpirations)
    {
      awaitingCategoryDeletion := awaitingCategoryDeletion - {chatId};
      categoryDeletionExpirations := categoryDeletionExpirations - {chatId};
    }

    /* ------------------ awaiting a reminder number ------------------ */

    /** `setAwaitingNotificationDeletion(chatId, ttlMs)`: a null chat changes nothing. */
    method SetAwaitingNotificationDeletion(chatId: Option<ChatId>, ttlMs: int, nowMs: int)
      requires Valid()
      modifies this
      ensures Valid()
      ensures chatId.None? ==>
        && awaitingNotificationDeletion == old(awaitingNotificationDeletion)
        && notificationDeletionExpirations == old(notificationDeletionExpirations)
      ensures chatId.Some? ==>
        && awaitingNotificationDeletion == old(awaitingNotificationDeletion) + {chatId.value}
        && notificationDeletionExpirations == old(notificationDeletionExpirations)[chatId.value := nowMs + Max0(ttlMs)]
      ensures states == old(states) && stateExpirations == old(stateExpirations)
      ensures awaitingCategoryDeletion == old(awaitingCategoryDeletion)
      ensures categoryDeletionExpirations == old(categoryDeletionExpirations)
    {
      if chatId.None? {
        return;
      }
      awaitingNotificationDeletion := awaitingNotificationDeletion + {chatId.value};
      notificationDeletionExpirations := notificationDeletionExpirations[chatId.value := nowMs + Max0(ttlMs)];
    }

    /** `isAwaitingNotificationDeletion(chatId)`: expiry is not consulted. */
    predicate IsAwaitingNotificationDeletion(chatId: ChatId)
      reads this
      ensures Valid() ==> (IsAwaitingNotificationDeletion(chatId) <==> chatId in notificationDeletionExpirations)
    {
      chatId in awaitingNotificationDeletion
    }

    /** `clearAwaitingNotificationDeletion(chatId)`. */
    method ClearAwaitingNotificationDeletion(chatId: ChatId)
      requires Valid()
      modifies this
      ensures Valid()
      ensures awaitingNotificationDeletion == old(awaitingNotificationDeletion) - {chatId}
      ensures notificationDeletionExpirations == old(notificationDeletionExpirations) - {chatId}
      ensures states == old(states) && stateExpirations == old(stateExpirations)
      ensures awaitingCategoryDeletion == old(awaitingCategoryDeletion)
      ensures categoryDeletionExpirations == old(categoryDeletionExpirations)
    {
      awaitingNotificationDeletion := awaitingNotificationDeletion - {chatId};
      notificationDeletionExpirations := notificationDeletionExpirations - {chatId};
    }

    /* ------------------ expiry sweep ------------------ */

    /**
     * `cleanupExpired()` at time nowMs: in each namespace, every entry whose
     * expiry is at or before nowMs is removed with its expiry; every other
     * entry stays with its value.
     */
    method CleanupExpired(nowMs: int)
      requires Valid()
      modifies this
      ensures Valid()
      ensures states == old(states) - Expired(old(stateExpirations), nowMs)
      ensures stateExpirations == old(stateExpirations) - Expired(old(stateExpirations), nowMs)
      ensures awaitingCategoryDeletion == old(awaitingCategoryDeletion) - Expired(old(categoryDeletionExpirations), nowMs)
      ensures categoryDeletionExpirations == old(categoryDeletionExpirations) - Expired(old(categoryDeletionExpirations), nowMs)
      ensures awaitingNotificationDeletion == old(awaitingNotificationDeletion) - Expired(old(notificationDeletionExpirations), nowMs)
      ensures notificationDeletionExpirations == old(notificationDeletionExpirations) - Expired(old(notificationDeletionExpirations), nowMs)
    {
      CleanupStates(nowMs);
      CleanupCategoryDeletion(nowMs);
      CleanupNotificationDeletion(nowMs);
    }

    /** The loop over `stateExpirations.entrySet()`. */
    method CleanupStates(nowMs: int)
      requires Valid()
      modifies this
      ensures Valid()
      ensures states == old(states) - Expired(old(stateExpirations), nowMs)
      ensures stateExpirations == old(stateExpirations) - Expired(old(stateExpirations), nowMs)
      ensures awaitingCategoryDeletion == old(awaitingCategoryDeletion)
      ensures categoryDeletionExpirations == old(categoryDeletionExpirations)
      ensures awaitingNotificationDeletion == old(awaitingNotificationDeletion)
      ensures notificationDeletionExpirations == old(notificationDeletionExpirations)
    {
      ghost var expired := Expired(stateExpirations, nowMs);
      var pending := stateExpirations.Keys;
      while pending != {}
        invariant Valid()
        invariant pending <= old(stateExpirations).Keys
        invariant states == old(states) - (expired - pending)
        invariant stateExpirations == old(stateExpirations) - (expired - pending)
        invariant awaitingCategoryDeletion == old(awaitingCategoryDeletion)
        invariant categoryDeletionExpirations == old(categoryDeletionExpirations)
        invariant awaitingNotificationDeletion == old(awaitingNotificationDeletion)
        invariant notificationDeletionExpirations == old(notificationDeletionExpirations)
        decreases pending
      {
        SomeMember(pending);
        var chatId :| chatId in pending;
        if stateExpirations[chatId] <= nowMs {
          states := states - {chatId};
          stateExpirations := stateExpirations - {chatId};
        }
        pending := pending - {chatId};
      }
    }

    /** The loop over `categoryDeletionExpirations.entrySet()`. */
    method CleanupCategoryDeletion(nowMs: int)
      requires Valid()
      modifies this
      ensures Valid()
      ensures awaitingCategoryDeletion == old(awaitingCategoryDeletion) - Expired(old(categoryDeletionExpirations), nowMs)
      ensures categoryDeletionExpirations == old(categoryDeletionExpirations) - Expired(old(categoryDeletionExpirations), nowMs)
      ensures states == old(states) && stateExpirations == old(stateExpirations)
      ensures awaitingNotificationDeletion == old(awaitingNotificationDeletion)
      ensures notificationDeletionExpirations == old(notificationDeletionExpirations)
    {
      ghost var expired := Expired(categoryDeletionExpirations, nowMs);
      var pending := categoryDeletionExpirations.Keys;
      while pending != {}
        invariant Valid()
        invariant pending <= old(categoryDeletionExpirations).Keys
        invariant awaitingCategoryDeletion == old(awaitingCategoryDeletion) - (expired - pending)
        invariant categoryDeletionExpirations == old(categoryDeletionExpirations) - (expired - pending)
        invariant states == old(states) && stateExpirations == old(stateExpirations)
        invariant awaitingNotificationDeletion == old(awaitingNotificationDeletion)
        invariant notificationDeletionExpirations == old(notificationDeletionExpirations)
        decreases pending
      {
        SomeMember(pending);
        var chatId :| chatId in pending;
        if categoryDeletionExpirations[chatId] <= nowMs {
          awaitingCategoryDeletion := awaitingCategoryDeletion - {chatId};
          categoryDeletionExpirations := categoryDeletionExpirations - {chatId};
        }
        pending := pending - {chatId};
      }
    }

    /** The loop over `notificationDeletionExpirations.entrySet()`. */
    method CleanupNotificationDeletion(nowMs: int)
      requires Valid()
      modifies this
      ensures Valid()
      ensures awaitingNotificationDeletion == old(awaitingNotificationDeletion) - Expired(old(notificationDeletionExpirations), nowMs)
      ensures notificationDeletionExpirations == old(notificationDeletionExpirations) - Expired(old(notificationDeletionExpirations), nowMs)
      ensures states == old(states) && stateExpirations == old(stateExpirations)
      ensures awaitingCategoryDeletion == old(awaitingCategoryDeletion)
      ensures categoryDeletionExpirations == old(categoryDeletionExpirations)
    {
      ghost var expired := Expired(notificationDeletionExpirations, nowMs);
      var pending := notificationDeletionExpirations.Keys;
      while pending != {}
        invariant Valid()
        invariant pending <= old(notificationDeletionExpirations).Keys
        invariant awaitingNotificationDeletion == old(awaitingNotificationDeletion) - (expired - pending)
        invariant notificationDeletionExpirations == old(notificationDeletionExpirations) - (expired - pending)
        invariant states == old(states) && stateExpirations == old(stateExpirations)
        invariant awaitingCategoryDeletion == old(awaitingCategoryDeletion)
        invariant categoryDeletionExpirations == old(categoryDeletionExpirations)
        decreases pending
      {
        SomeMember(pending);
        var chatId :| chatId in pending;
        if notificationDeletionExpirations[chatId] <= nowMs {
          awaitingNotificationDeletion := awaitingNotificationDeletion - {chatId};
          notificationDeletionExpirations := notificationDeletionExpirations - {chatId};
        }
        pending := pending - {chatId};
      }
    }
  }

  /**
   * The getters do not consult the expiry: a state whose expiry has passed
   * is still reported until a sweep removes it, and a sweep at or after
   * the expiry does remove it.
   */
  method ExpiredStateReportedUntilSwept(svc: UserStateService, chatId: ChatId, state: string, ttlMs: int, setAt: int, later: int)
    returns (beforeSweep: Option<string>, afterSweep: Option<string>)
    requires svc.Valid()
    requires later >= setAt + Max0(ttlMs)
    modifies svc
    ensures svc.Valid()
    ensures chatId in Expired(old(svc.stateExpirations)[chatId := setAt + Max0(ttlMs)], later)
    ensures beforeSweep == Some(state) && afterSweep == None
  {
    svc.SetState(Some(chatId), Some(state), ttlMs, setAt);
    beforeSweep := svc.GetState(chatId);
    svc.CleanupExpired(later);
    afterSweep := svc.GetState(chatId);
  }

  /** The same for the awaited category number: the flag is reported until a sweep removes it. */
  method ExpiredCategoryWaitReportedUntilSwept(svc: UserStateService, chatId: ChatId, ttlMs: int, setAt: int, later: int)
    returns (beforeSweep: bool, afterSweep: bool)
    requires svc.Valid()
    requires later >= setAt + Max0(ttlMs)
    modifies svc
    ensures svc.Valid()
    ensures beforeSweep && !afterSweep
  {
    svc.SetAwaitingCategoryDeletion(Some(chatId), ttlMs, setAt);
    beforeSweep := svc.IsAwaitingCategoryDeletion(chatId);
    svc.CleanupExpired(later);
    afterSweep := svc.IsAwaitingCategoryDeletion(chatId);
  }

  /** The same for the awaited reminder number. */
  method ExpiredReminderWaitReportedUntilSwept(svc: UserStateService, chatId: ChatId, ttlMs: int, setAt: int, later: int)
    returns (beforeSweep: bool, afterSweep: bool)
    requires svc.Valid()
    requires later >= setAt + Max0(ttlMs)
    modifies svc
    ensures svc.Valid()
    ensures beforeSweep && !afterSweep
  {
    svc.SetAwaitingNotificationDeletion(Some(chatId), ttlMs, setAt);
    beforeSweep := svc.IsAwaitingNotificationDeletion(chatId);
    svc.CleanupExpired(later);
    afterSweep := svc.IsAwaitingNotificationDeletion(chatId);
  }

  /** A non-empty key set has a member to visit next. */
  lemma SomeMember(s: set<ChatId>)
    requires s != {}
    ensures exists c :: c in s
  {
    if forall c :: c !in s {
      assert false;
    }
  }

  /* ------------------ properties of the sweep, on values ------------------ */

  /** The sweep keeps exactly the entries whose expiry lies after now, values unchanged. */
  lemma SweepKeepsExactlyLive<V>(m: map<ChatId, V>, exp: map<ChatId, int>, now: int, c: ChatId)
    requires m.Keys == exp.Keys
    ensures c in m - Expired(exp, now) <==> c in m && exp[c] > now
    ensures c in m - Expired(exp, now) ==> (m - Expired(exp, now))[c] == m[c]
  {
  }

  /** Sweeping twice at the same instant removes nothing the second time. */
  lemma SweepIdempotent(exp: map<ChatId, int>, now: int)
    ensures Expired(exp - Expired(exp, now), now) == {}
  {
  }

  /** A later sweep removes at least what an earlier one would have. */
  lemma SweepMonotone(exp: map<ChatId, int>, now: int, later: int)
    requires now <= later
    ensures Expired(exp, now) <= Expired(exp, later)
  {
  }

  /**
   * Once a state set at nowMs with ttlMs is swept at any instant at or
   * after nowMs + max(0, ttlMs), it is gone; a sweep before that keeps it.
   */
  lemma SetStateThenSweep(exp: map<ChatId, int>, c: ChatId, nowMs: int, ttlMs: int, sweepAt: int)
    ensures c in Expired(exp[c := nowMs + Max0(ttlMs)], sweepAt) <==> sweepAt >= nowMs + Max0(ttlMs)
  {
  }
}
