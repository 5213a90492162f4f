# Finance tracker bot: conversation state, deferred deletion and reminders

This project models the bookkeeping core of a Telegram finance-tracking bot
and proves properties of the model. The model covers:

- the per-chat conversation state: an open dialog and the two "awaiting a
  number" waits, each with its own expiry map and background sweep;
- the queue of sent messages that are deleted once their lifetime passes;
- reminders: creation from `/notify HH:mm text`, listing, cancellation by
  ordinal and the once-a-minute sweep that fires them;
- the deletion of a category's transactions and the clearing of a chat's
  history;
- the routing of plain messages and of inline-button callbacks between
  these services.

Files:

- `user_state.dfy` (module `UserState`): the class `UserStateService`,
  holding six maps and sets. Setters, clearers and the three sweep loops
  modify them.
- `message_deletion.dfy` (`Deletion`): the class `MessageDeletion`,
  holding the erase queue as a `seq`. It has the draining `while` loop and
  a log of the delete requests it issues.
- `notification_repository.dfy` (`NotificationRepo`): the JPQL queries as
  functions over the notifications table.
- `notification_service.dfy` (`Notifications`): the NotificationService
  handlers and the sweep loop. The sweep sends, then deletes.
- `remove_service.dfy` (`Remove`) and `user_info.dfy` (`UserInfo`): the
  category list and category deletion, history clearing, and
  get-or-create of a user.
- `message_handler.dfy` (`Handler`): `handleMessage` and `handleCallback`.
  Every outgoing message is an entry of an `Outbox` log.
- `store.dfy` (`Store`): the `User`, `Transaction` and `Notification`
  tables. They live in one class `Database` whose save and delete methods
  the services call. Ids come from one counter.
- `text.dfy` (`Text`) and `local_time.dfy` (`LocalTimes`): the parts of
  `String` and `java.time.LocalTime` the handlers rely on. These are
  `trim`, `split("\\s+", limit)`, `Integer.parseInt`, `toLowerCase`,
  `equalsIgnoreCase`, `distinct`, and `HH:mm` parsing and formatting.
- `seqs.dfy` (`Seqs`): the generic filter and stable insertion sort that
  stand for `WHERE` and `ORDER BY`.
- `base.dfy` (`Base`) and `outcomes.dfy` (`Outcomes`): shared
  vocabulary, and the answers the services give.

Behaviours of the code that the model keeps:

- Reminder times are `LocalTime` values at nanosecond resolution.
  Creation compares the requested time with the untruncated current time,
  so at 10:00:30 a reminder for "10:00" is refused (lemma
  `StartOfCurrentMinuteIsPast`). The sweep compares the parsed,
  whole-minute time with the current time truncated to the minute.
- `DateTimeFormatter.ofPattern("HH:mm")` uses the SMART resolver, so
  "24:00" is accepted and means midnight.
- The reminder dialog checks the text after `trim()` but forwards it
  untrimmed, and NotificationService splits on `\s`. A control character
  before the time therefore passes the dialog and is refused afterwards,
  once the dialog is already closed (lemma
  `ControlCharBeforeTimeRefusedAfterForwarding`).
- The erase queue is FIFO and a drain stops at the first entry that is
  not due. Entries with different lifetimes share one queue, so a due
  two-minute message stays queued behind a ten-hour reminder (lemma
  `MixedTtlsStarveDueEntry`).
- The getters of the conversation state do not look at the expiry: an
  expired entry is reported until the next sweep removes it (methods
  `ExpiredStateReportedUntilSwept` and its two companions).

Time is a parameter. The state store and the queue take epoch
milliseconds; each handler takes a `Clock` read once per call. The
background timers become explicit calls of `CleanupExpired`,
`ProcessMessageDeletion` and `CheckAndSendNotifications`.

## Model

Source paths are relative to the repository root.

| member | source | states |
|---|---|---|
| Base.Max0 | src/main/java/com/lina/finance_tracker_bot/services/UserStateService.java:50 | `Math.max(0, x)`: non-negative, at least x, and either x or 0 |
| UserState.Expired | src/main/java/com/lina/finance_tracker_bot/services/UserStateService.java:116-117 | a chat is expired exactly when it has an expiry at or before now |
| UserState.UserStateService.constructor | src/main/java/com/lina/finance_tracker_bot/services/UserStateService.java:22-33 | every namespace starts empty, and the flag/expiry key sets agree |
| UserState.UserStateService.SetState | src/main/java/com/lina/finance_tracker_bot/services/UserStateService.java:48-53 | a null chat or state changes nothing. Otherwise the chat's state and its expiry `now + max(0, ttl)` replace earlier ones, other chats keep theirs, and the awaiting namespaces are untouched |
| UserState.UserStateService.ClearState | src/main/java/com/lina/finance_tracker_bot/services/UserStateService.java:63-66 | removes the chat's state and its expiry. This is a no-op for an absent chat and idempotent, since it is a set difference. The awaiting namespaces are untouched |
| UserState.UserStateService.GetState | src/main/java/com/lina/finance_tracker_bot/services/UserStateService.java:55-57 | the state is reported iff the chat has an entry, and it is the stored one; the expiry is not consulted |
| UserState.UserStateService.HasState | src/main/java/com/lina/finance_tracker_bot/services/UserStateService.java:59-61 | true iff GetState reports a state; under the invariant, iff the chat has an expiry |
| UserState.UserStateService.IsAwaitingCategoryDeletion | src/main/java/com/lina/finance_tracker_bot/services/UserStateService.java:80-82 | under the invariant, true iff the chat has a category-wait expiry |
| UserState.UserStateService.IsAwaitingNotificationDeletion | src/main/java/com/lina/finance_tracker_bot/services/UserStateService.java:101-103 | under the invariant, true iff the chat has a reminder-wait expiry |
| UserState.ExpiredStateReportedUntilSwept | src/main/java/com/lina/finance_tracker_bot/services/UserStateService.java:55-57 | once a state's lifetime has passed it is still reported; after the sweep at that instant it is gone |
| UserState.ExpiredCategoryWaitReportedUntilSwept | src/main/java/com/lina/finance_tracker_bot/services/UserStateService.java:80-82 | an expired category wait is still reported until the sweep removes it |
| UserState.ExpiredReminderWaitReportedUntilSwept | src/main/java/com/lina/finance_tracker_bot/services/UserStateService.java:101-103 | an expired reminder wait is still reported until the sweep removes it |
| UserState.UserStateService.SetAwaitingCategoryDeletion | src/main/java/com/lina/finance_tracker_bot/services/UserStateService.java:74-78 | a null chat changes nothing. Otherwise the chat is flagged with expiry `now + max(0, ttl)`, and the other namespaces are untouched |
| UserState.UserStateService.ClearAwaitingCategoryDeletion | src/main/java/com/lina/finance_tracker_bot/services/UserStateService.java:84-87 | removes the flag and its expiry; the other namespaces are untouched |
| UserState.UserStateService.SetAwaitingNotificationDeletion | src/main/java/com/lina/finance_tracker_bot/services/UserStateService.java:95-99 | a null chat changes nothing. Otherwise the chat is flagged with expiry `now + max(0, ttl)`, and the other namespaces are untouched |
| UserState.UserStateService.ClearAwaitingNotificationDeletion | src/main/java/com/lina/finance_tracker_bot/services/UserStateService.java:105-108 | removes the flag and its expiry; the other namespaces are untouched |
| UserState.UserStateService.CleanupExpired | src/main/java/com/lina/finance_tracker_bot/services/UserStateService.java:112-141 | in all three namespaces, the entries whose expiry is at or before now go with their expiries, and every other entry stays |
| UserState.UserStateService.CleanupStates | src/main/java/com/lina/finance_tracker_bot/services/UserStateService.java:116-122 | the loop over the state expiries removes exactly the expired states, and nothing outside that namespace changes |
| UserState.UserStateService.CleanupCategoryDeletion | src/main/java/com/lina/finance_tracker_bot/services/UserStateService.java:125-131 | the loop removes exactly the expired category waits |
| UserState.UserStateService.CleanupNotificationDeletion | src/main/java/com/lina/finance_tracker_bot/services/UserStateService.java:134-140 | the loop removes exactly the expired reminder waits |
| UserState.SweepKeepsExactlyLive | src/main/java/com/lina/finance_tracker_bot/services/UserStateService.java:112-141 | after the sweep an entry is present exactly when its expiry lies after now, and its value is unchanged |
| UserState.SweepIdempotent | src/main/java/com/lina/finance_tracker_bot/services/UserStateService.java:112-141 | a second sweep at the same instant removes nothing |
| UserState.SweepMonotone | src/main/java/com/lina/finance_tracker_bot/services/UserStateService.java:117 | a later sweep removes at least what an earlier one removes |
| UserState.SetStateThenSweep | src/main/java/com/lina/finance_tracker_bot/services/UserStateService.java:112-141 | an entry set at `now` with ttl is swept exactly by the sweeps at or after `now + max(0, ttl)` |
| Deletion.Requests | src/main/java/com/lina/finance_tracker_bot/bot/MessageDeletion.java:97 | one delete request per drained entry, in queue order |
| Deletion.DuePrefixLength | src/main/java/com/lina/finance_tracker_bot/bot/MessageDeletion.java:85-101 | every entry before the returned position is due, and the entry at it (if any) is not |
| Deletion.MessageDeletion.constructor | src/main/java/com/lina/finance_tracker_bot/bot/MessageDeletion.java:19-24 | no bot, an empty queue, no requests |
| Deletion.MessageDeletion.SetTelegramBot | src/main/java/com/lina/finance_tracker_bot/bot/MessageDeletion.java:30-33 | sets the bot; the queue and the requests are unchanged |
| Deletion.MessageDeletion.ScheduleMessageForDeletion | src/main/java/com/lina/finance_tracker_bot/bot/MessageDeletion.java:41-45 | a TTL of 0 or less leaves the queue unchanged. Otherwise one entry stamped with the current whole second is appended at the tail, and earlier entries are kept |
| Deletion.MessageDeletion.DeleteMessageImmediately | src/main/java/com/lina/finance_tracker_bot/bot/MessageDeletion.java:53-66 | issues nothing without a bot and one request with a bot; never touches the queue |
| Deletion.MessageDeletion.ProcessMessageDeletion | src/main/java/com/lina/finance_tracker_bot/bot/MessageDeletion.java:80-102 | does nothing without a bot. Otherwise it removes the longest due prefix, leaves the suffix after it, and issues the prefix's requests in queue order |
| Deletion.DrainTwiceDeletesNothing | src/main/java/com/lina/finance_tracker_bot/bot/MessageDeletion.java:85-101 | a second drain at the same second deletes nothing |
| Deletion.DrainLeavesUndueHead | src/main/java/com/lina/finance_tracker_bot/bot/MessageDeletion.java:95-100 | after a drain, the head of the queue (if any) is not due |
| Deletion.SortedDrainRemovesExactlyDue | src/main/java/com/lina/finance_tracker_bot/bot/MessageDeletion.java:85-101 | when delete times never decrease along the queue, an entry is drained exactly when it is due |
| Deletion.SameTtlInSendOrderIsSorted | src/main/java/com/lina/finance_tracker_bot/bot/MessageDeletion.java:43 | one TTL and non-decreasing send times give non-decreasing delete times |
| Deletion.ScheduleKeepsSorted | src/main/java/com/lina/finance_tracker_bot/bot/MessageDeletion.java:41-45 | scheduling with the same TTL at a clock that does not go back keeps the queue sorted |
| Deletion.DrainInTwoTicks | src/main/java/com/lina/finance_tracker_bot/bot/MessageDeletion.java:70-76 | ticks at t1 and then t2 (t1 <= t2) drain exactly what one tick at t2 drains |
| Deletion.MixedTtlsStarveDueEntry | src/main/java/com/lina/finance_tracker_bot/bot/MessageDeletion.java:95-100 | a due two-minute message queued behind a ten-hour reminder is not drained |
| NotificationRepo.FindActive | src/main/java/com/lina/finance_tracker_bot/repository/NotificationRepository.java:19-20 | the result is sorted ascending by time, holds only the chat's rows strictly after the given time, and is no longer than the table |
| NotificationRepo.FindActiveExact | src/main/java/com/lina/finance_tracker_bot/repository/NotificationRepository.java:19 | each active row occurs as often as in the table, and each inactive row not at all |
| NotificationRepo.FindActiveMember | src/main/java/com/lina/finance_tracker_bot/repository/NotificationRepository.java:19 | a row is listed iff it is stored, is the chat's, and lies strictly after the given time |
| NotificationRepo.CurrentMinuteNotActive | src/main/java/com/lina/finance_tracker_bot/repository/NotificationRepository.java:19 | a reminder at the current (truncated) minute is not listed |
| NotificationRepo.FindByTime | src/main/java/com/lina/finance_tracker_bot/repository/NotificationRepository.java:22-23 | only stored rows at exactly that time |
| NotificationRepo.FindByTimeExact | src/main/java/com/lina/finance_tracker_bot/repository/NotificationRepository.java:22-23 | every row of every chat at that time, with its multiplicity |
| NotificationRepo.FindByTimeMember | src/main/java/com/lina/finance_tracker_bot/repository/NotificationRepository.java:22-23 | a row is found iff it is stored and set for exactly that time |
| NotificationRepo.NewestFirst | src/main/java/com/lina/finance_tracker_bot/repository/NotificationRepository.java:31 | the chat's rows (as a multiset) sorted by `createdAt` descending |
| NotificationRepo.NewestFirstMember | src/main/java/com/lina/finance_tracker_bot/repository/NotificationRepository.java:31 | a row is in the ordering iff it is the chat's stored row |
| NotificationRepo.KeptNotifications | src/main/java/com/lina/finance_tracker_bot/repository/NotificationRepository.java:31 | exactly `min(keepCount, n)` of the chat's rows are kept (all of them for a negative limit), and all are the chat's stored rows |
| NotificationRepo.DeleteOldNotifications | src/main/java/com/lina/finance_tracker_bot/repository/NotificationRepository.java:28-32 | the table afterwards is no longer than before and holds only rows that were stored |
| NotificationRepo.DeleteOldKeepsOtherChats | src/main/java/com/lina/finance_tracker_bot/repository/NotificationRepository.java:30 | rows of other chats are kept with their multiplicity |
| NotificationRepo.DeleteOldKeepsExactlyKept | src/main/java/com/lina/finance_tracker_bot/repository/NotificationRepository.java:30-31 | with unique ids, a row of the chat survives iff it is among the kept newest rows |
| NotificationRepo.KeptAreNewest | src/main/java/com/lina/finance_tracker_bot/repository/NotificationRepository.java:31 | a kept row is at least as new as every row of the chat that is not kept |
| Notifications.DecideNotify | src/main/java/com/lina/finance_tracker_bot/services/NotificationService.java:74-93 | fewer than three parts show the list, and only then. An unparseable second part is a bad time, and only then. A parsed time before now is refused with that time, and only then. Otherwise the reminder is accepted: its time is the parsed, whole-minute time, not before now, and its text is the third part |
| Notifications.SplitCommand | src/main/java/com/lina/finance_tracker_bot/services/NotificationService.java:74 | command, time and text, single-spaced, split into exactly those three parts |
| Notifications.WellFormedCommandAccepted | src/main/java/com/lina/finance_tracker_bot/services/NotificationService.java:74-95 | a well-formed command whose time is not past is accepted with that time and the whole rest of the line as its text |
| Notifications.StartOfCurrentMinuteIsPast | src/main/java/com/lina/finance_tracker_bot/services/NotificationService.java:86-91 | at 10:00:30, "10:00" is refused as past |
| Notifications.CreatedIsActive | src/main/java/com/lina/finance_tracker_bot/services/NotificationService.java:93-100 | an accepted reminder is in the active list shown after creation, unless its time is the creation instant itself |
| Notifications.ShowUserNotifications | src/main/java/com/lina/finance_tracker_bot/services/NotificationService.java:40-61 | the answer is a list sorted by time, and a reminder is in it iff it is stored, the chat's, and after the current time truncated to the minute |
| Notifications.HandleNotifyCommand | src/main/java/com/lina/finance_tracker_bot/services/NotificationService.java:70-105 | the user exists afterwards. Show-list, bad-time and past-time answers save nothing. An accepted command appends exactly one reminder with the parsed time, the text and the creation instant, and answers with it and the new active list |
| Notifications.HandleDeleteNotificationCommand | src/main/java/com/lina/finance_tracker_bot/services/NotificationService.java:113-142 | no active reminder: "nothing to delete" and no state change. Otherwise the list is the answer and the awaiting-reminder flag is set for DEFAULT_TTL_MS |
| Notifications.SelectNotification | src/main/java/com/lina/finance_tracker_bot/services/NotificationService.java:159-181 | an ordinal outside 1..n deletes nothing and is refused. A valid one deletes element n-1 of the ascending active list, and the answer carries the remaining active list |
| Notifications.HandleNotificationSelection | src/main/java/com/lina/finance_tracker_bot/services/NotificationService.java:151-189 | without the flag, a refusal and no change. With the flag, the flag is cleared and the table and answer are those of SelectNotification. Nothing else changes |
| Notifications.SelectionDeletesExactlyOne | src/main/java/com/lina/finance_tracker_bot/services/NotificationService.java:167-168 | with unique ids, deleting the chosen reminder removes that one row and keeps all others |
| Notifications.OrdinalShiftsAsTimePasses | src/main/java/com/lina/finance_tracker_bot/services/NotificationService.java:159-167 | ordinal 1 names the 10:01 reminder at 10:00 and the 10:05 reminder at 10:02 |
| Notifications.Reminders | src/main/java/com/lina/finance_tracker_bot/services/NotificationService.java:206-210 | one reminder message per due row, to its chat, with REMINDER_TTL, in order |
| Notifications.CheckAndSendNotifications | src/main/java/com/lina/finance_tracker_bot/services/NotificationService.java:197-218 | every row of any chat at the truncated current minute is sent in query order, then deleted. Users and transactions are unchanged |
| Notifications.SendAndDelete | src/main/java/com/lina/finance_tracker_bot/services/NotificationService.java:202-213 | one loop turn extends both the sent prefix and the deleted prefix by the next due row |
| Notifications.SweepDeletesExactlyDue | src/main/java/com/lina/finance_tracker_bot/services/NotificationService.java:199-213 | with unique ids, a row survives the sweep iff its time is not the current minute |
| Notifications.SweepFiresOnce | src/main/java/com/lina/finance_tracker_bot/services/NotificationService.java:199-213 | a second sweep in the same minute finds nothing |
| Remove.MatchingTransactions | src/main/java/com/lina/finance_tracker_bot/services/RemoveService.java:118-120 | only stored transactions of the chat whose category equals the selected one ignoring case |
| Remove.MatchingTransactionsMember | src/main/java/com/lina/finance_tracker_bot/services/RemoveService.java:118-120 | a transaction matches iff it is stored, is the chat's, and its category equals the selection ignoring case |
| Remove.DeletingStoredRows | src/main/java/com/lina/finance_tracker_bot/services/RemoveService.java:123 | with unique ids, `deleteAll(k)` removes exactly the stored rows in k |
| Remove.ClearRemovesExactlyTheChat | src/main/java/com/lina/finance_tracker_bot/services/RemoveService.java:47-53 | clearing deletes all and only the chat's transactions |
| Remove.SelectionRemovesExactlyTheCategory | src/main/java/com/lina/finance_tracker_bot/services/RemoveService.java:117-124 | deleting the selection removes exactly the chat's transactions in that category, ignoring case |
| Remove.DeletedCategoryIsGone | src/main/java/com/lina/finance_tracker_bot/services/RemoveService.java:117-129 | afterwards the deleted category is not in the chat's category list |
| Remove.ClearCommand | src/main/java/com/lina/finance_tracker_bot/services/RemoveService.java:44-59 | the user exists afterwards. With no transactions the answer is "already empty" and nothing is deleted. Otherwise the chat's transactions are deleted and counted |
| Remove.DeleteCommand | src/main/java/com/lina/finance_tracker_bot/services/RemoveService.java:68-92 | no categories: "none" and no flag. An empty category makes capitalising throw, and the catch answers before the flag is set. Otherwise the list is the answer and the awaiting-category flag is set for DEFAULT_TTL_MS |
| Remove.SelectionOutcome | src/main/java/com/lina/finance_tracker_bot/services/RemoveService.java:126-142 | the answer is the caught failure iff the selected or a remaining category is empty (capitalising throws); otherwise it reports the category, the count and the remaining list |
| Remove.SelectCategory | src/main/java/com/lina/finance_tracker_bot/services/RemoveService.java:111-129 | an ordinal outside 1..n deletes nothing and is refused. A valid one deletes the matching transactions of category n-1 and answers with the categories that remain |
| Remove.CategorySelection | src/main/java/com/lina/finance_tracker_bot/services/RemoveService.java:102-143 | without the flag, a refusal and no change. With the flag, the flag is cleared whatever the outcome, the user exists, and the table and answer are those of SelectCategory |
| UserInfo.GetOrCreateFinds | src/main/java/com/lina/finance_tracker_bot/services/UserInfoService.java:38-45 | afterwards the chat's user is the stored one (username not updated), or the new row with that chat id and username |
| UserInfo.GetOrCreateIdempotent | src/main/java/com/lina/finance_tracker_bot/services/UserInfoService.java:38-45 | a second get-or-create for the same chat changes nothing, whatever the username |
| UserInfo.GetOrCreateKeepsUnique | src/main/java/com/lina/finance_tracker_bot/modelSqlLite/User.java:18-19 | get-or-create keeps chat ids unique |
| UserInfo.GetOrCreateUser | src/main/java/com/lina/finance_tracker_bot/services/UserInfoService.java:38-45 | the users table becomes the get-or-create table, and the returned user is the one found for the chat. Other tables are unchanged |
| UserInfo.LowerCategories | src/main/java/com/lina/finance_tracker_bot/services/UserInfoService.java:56-57 | the categories of the transactions in order, each lower-cased |
| UserInfo.GetUserCategories | src/main/java/com/lina/finance_tracker_bot/services/UserInfoService.java:54-60 | no duplicates, every entry lower-case, and entries ordered by their first occurrence among the chat's lower-cased categories |
| UserInfo.GetUserCategoriesMember | src/main/java/com/lina/finance_tracker_bot/services/RemoveService.java:151-157 | a string is listed iff it is the lower-cased category of one of the chat's transactions |
| Handler.ParseAddInput | src/main/java/com/lina/finance_tracker_bot/bot/MessageHandler.java:84-105 | fewer than two tokens, more than two, or neither numeric are each refused, each iff that holds. A parsed entry's amount is a numeric token, its category is the other, and the first token wins when both are numeric |
| Handler.AddInputOfTwoWords | src/main/java/com/lina/finance_tracker_bot/bot/MessageHandler.java:92-105 | "Еда 500" and "500 Еда" give the same entry; of two numbers the first is the amount |
| Handler.AddInputOfThreeWords | src/main/java/com/lina/finance_tracker_bot/bot/MessageHandler.java:85-91 | three tokens are refused as more than one entry |
| Handler.AddAnswer | src/main/java/com/lina/finance_tracker_bot/bot/MessageHandler.java:85-108 | each refusal has its own prompt, iff that refusal occurred; AddService is called iff the input parsed |
| Handler.CheckReminderInput | src/main/java/com/lina/finance_tracker_bot/bot/MessageHandler.java:141-152 | fewer than two parts means missing text, an unparseable first part a bad time, and otherwise well-formed with the parsed time, each iff |
| Handler.ReminderPrompt | src/main/java/com/lina/finance_tracker_bot/bot/MessageHandler.java:142-151 | the format prompt iff text is missing, the time prompt iff the time is bad |
| Handler.ForwardedReminderAgrees | src/main/java/com/lina/finance_tracker_bot/bot/MessageHandler.java:141-154 | "HH:mm text" passes the dialog, and the forwarded `/notify` command is decided on the same time and text |
| Handler.DialogAcceptsTimeAndText | src/main/java/com/lina/finance_tracker_bot/bot/MessageHandler.java:141-150 | "HH:mm text" is well-formed for the dialog, with the parsed time |
| Handler.ForwardedCommandDecidesSameTime | src/main/java/com/lina/finance_tracker_bot/bot/MessageHandler.java:154 | the forwarded `/notify` command is refused as past or accepted with the same time and text, by the time alone |
| Handler.ForwardedCommand | src/main/java/com/lina/finance_tracker_bot/bot/MessageHandler.java:154 | the forwarded text is "/notify ", then the message unchanged |
| Handler.ControlCharBeforeTimeRefusedAfterForwarding | src/main/java/com/lina/finance_tracker_bot/bot/MessageHandler.java:141-154 | a control character before the time passes the dialog's check, but the forwarded command is a bad time format |
| Handler.FallbackReply | src/main/java/com/lina/finance_tracker_bot/bot/MessageHandler.java:166-171 | the main menu iff the text is exactly "/start", the hint otherwise |
| Handler.ShowMainMenu | src/main/java/com/lina/finance_tracker_bot/bot/MessageHandler.java:256-284 | the chat gets a user with no username, and the main menu is sent without a deletion timer |
| Handler.HandleCategoryNumber | src/main/java/com/lina/finance_tracker_bot/bot/MessageHandler.java:51-62 | a non-integer keeps the wait and repeats the prompt, with nothing else changed. An integer ends the wait, applies SelectCategory and sends its answer for two minutes |
| Handler.HandleNotificationNumber | src/main/java/com/lina/finance_tracker_bot/bot/MessageHandler.java:65-75 | a non-integer keeps the wait and repeats the prompt. An integer ends the wait, applies SelectNotification and sends its answer without a timer |
| Handler.HandleAddInput | src/main/java/com/lina/finance_tracker_bot/bot/MessageHandler.java:81-138 | the answer for the parsed input is sent. If the input parsed, the dialog is closed, the user is fetched or created and one transaction with the lower-cased category and the dialog's type is appended; the reminders are unchanged. Otherwise the state and every table are unchanged |
| Handler.HandleReminderInput | src/main/java/com/lina/finance_tracker_bot/bot/MessageHandler.java:139-157 | a refused message keeps the dialog and changes no table. A well-formed one closes the dialog, ensures the user, and forwards `"/notify " + text`; a reminder is saved iff the forwarded command is accepted |
| Handler.HandleMessage | src/main/java/com/lina/finance_tracker_bot/bot/MessageHandler.java:49-172 | the category wait wins over the reminder wait, which wins over an open dialog. Each branch's effect is stated. Outside any dialog only the fall-through reply is sent, and only "/start" creates a user |
| Handler.HandleDialogMessage | src/main/java/com/lina/finance_tracker_bot/bot/MessageHandler.java:78-163 | the add dialogs close only on a parsed entry; the reminder dialog closes only on a well-formed message. An unknown state is dropped, and the message then falls through to the "/start" check |
| Handler.HandleOutsideDialog | src/main/java/com/lina/finance_tracker_bot/bot/MessageHandler.java:166-171 | the fall-through reply is sent, a user is created only for "/start", and transactions and reminders are untouched |
| Handler.ClassifyCallback | src/main/java/com/lina/finance_tracker_bot/bot/MessageHandler.java:176-241 | each case of the switch is chosen iff the data is its literal; `notify_create` opens the `create_notification` dialog |
| Handler.HandleCallback | src/main/java/com/lina/finance_tracker_bot/bot/MessageHandler.java:175-243 | per case: a dialog opens for DEFAULT_TTL_MS, replacing any earlier state. `delete_category` and `notify_delete` set their wait only when there is a list. `clear_history` deletes the chat's history. `back_main` ensures the user. The rest only answer. Exactly one message is sent |
| Handler.OpenDialogFor | src/main/java/com/lina/finance_tracker_bot/bot/MessageHandler.java:177-183 | the chat's state becomes the dialog, expiring DEFAULT_TTL_MS after now; nothing else in the state changes, and the prompt is sent for two minutes |
| Handler.StatelessCallbackReply | src/main/java/com/lina/finance_tracker_bot/bot/MessageHandler.java:185-241 | submenus iff a menu callback; delegated answers iff fact, report or rate; otherwise "unknown". The unknown reply is the only one never deleted |
| Text.Trim | src/main/java/com/lina/finance_tracker_bot/bot/MessageHandler.java:53 | the result is a slice of the input with only trimmable characters before and after it, and it has no trimmable character at either end |
| Text.TrimOfTrimmed | src/main/java/com/lina/finance_tracker_bot/bot/MessageHandler.java:53 | trim leaves a string without trimmable ends unchanged |
| Text.TrimIdempotent | src/main/java/com/lina/finance_tracker_bot/bot/MessageHandler.java:53 | trimming twice is trimming once |
| Text.Split | src/main/java/com/lina/finance_tracker_bot/bot/MessageHandler.java:141 | with a positive limit there are between 1 and limit parts |
| Text.Pieces | src/main/java/com/lina/finance_tracker_bot/bot/MessageHandler.java:84 | at least one piece, at most limit, and every piece before the last has no whitespace |
| Text.PiecesRebuild | src/main/java/com/lina/finance_tracker_bot/bot/MessageHandler.java:84 | the pieces, with the non-empty whitespace runs the matches consumed put back between them, are the input |
| Text.LastPieceNoWhitespace | src/main/java/com/lina/finance_tracker_bot/bot/MessageHandler.java:84 | without a limit the last piece has no whitespace either |
| Text.SplitRebuilds | src/main/java/com/lina/finance_tracker_bot/bot/MessageHandler.java:84 | with a positive limit the parts are the pieces; with limit 0 they are the pieces up to the last non-empty one, only empty pieces are dropped, and the pieces rebuild the input |
| Text.SplitOfTrimmed | src/main/java/com/lina/finance_tracker_bot/bot/MessageHandler.java:84-86 | a trimmed empty text splits into one empty part; a trimmed non-empty text into non-empty parts |
| Text.SplitTwoWords | src/main/java/com/lina/finance_tracker_bot/bot/MessageHandler.java:84 | two words, single-spaced, split into exactly those two |
| Text.SplitTwo | src/main/java/com/lina/finance_tracker_bot/bot/MessageHandler.java:141 | a word and a rest split with limit 2 into exactly those two |
| Text.SplitThree | src/main/java/com/lina/finance_tracker_bot/services/NotificationService.java:74 | two words and a rest split with limit 3 into exactly those three |
| Text.ParseInt | src/main/java/com/lina/finance_tracker_bot/bot/MessageHandler.java:53 | an accepted text starts with a digit or sign and its value is a 32-bit int; the empty text and a lone sign are refused |
| Text.ParseIntOfIntToString | src/main/java/com/lina/finance_tracker_bot/bot/MessageHandler.java:53 | every 32-bit integer survives printing and parsing |
| Text.ToLower | src/main/java/com/lina/finance_tracker_bot/services/RemoveService.java:154 | the lower-cased string has the same length |
| Text.ToLowerIdempotent | src/main/java/com/lina/finance_tracker_bot/services/RemoveService.java:154 | lower-casing twice is lower-casing once |
| Text.EqualsIgnoreCaseIffLowerEqual | src/main/java/com/lina/finance_tracker_bot/services/RemoveService.java:119 | equality ignoring case is equality of the lower-cased strings |
| Text.EqualsIgnoreCase | src/main/java/com/lina/finance_tracker_bot/services/RemoveService.java:119 | equal strings are equal ignoring case, and strings equal ignoring case have the same length |
| Text.Distinct | src/main/java/com/lina/finance_tracker_bot/services/RemoveService.java:155 | the same elements as the input, each once, ordered by first occurrence |
| LocalTimes.TruncateToMinute | src/main/java/com/lina/finance_tracker_bot/services/NotificationService.java:199 | a whole minute, at most t, and within a minute of t |
| LocalTimes.IsBefore | src/main/java/com/lina/finance_tracker_bot/services/NotificationService.java:88 | a time is never before itself |
| LocalTimes.IsBeforeTrichotomy | src/main/java/com/lina/finance_tracker_bot/services/NotificationService.java:88 | of two times one is before the other or they are equal, and not both are before each other |
| LocalTimes.TruncateUnique | src/main/java/com/lina/finance_tracker_bot/services/NotificationService.java:199 | t truncates to the whole minute m iff t lies within that minute |
| LocalTimes.ParseTime | src/main/java/com/lina/finance_tracker_bot/services/NotificationService.java:81 | an accepted text is five characters with a colon in the middle, and its time is a whole minute |
| LocalTimes.Format | src/main/java/com/lina/finance_tracker_bot/services/NotificationService.java:54 | five characters |
| LocalTimes.ParseFormat | src/main/java/com/lina/finance_tracker_bot/services/NotificationService.java:54 | formatting a whole-minute time and parsing it back gives the time |
| LocalTimes.FormatParse | src/main/java/com/lina/finance_tracker_bot/services/NotificationService.java:81 | every accepted text except "24:00" is what formatting its time prints |
| Store.FindUserByChatId | src/main/java/com/lina/finance_tracker_bot/repository/UserRepository.java:11 | a found user is stored with that chat id; none is found only when no user has it |
| Store.TransactionsOf | src/main/java/com/lina/finance_tracker_bot/repository/TransactionRepository.java:15 | only stored transactions of the chat |
| Store.TransactionsOfMember | src/main/java/com/lina/finance_tracker_bot/repository/TransactionRepository.java:15 | a transaction is listed iff it is stored and is the chat's |
| Store.WithoutTransactions | src/main/java/com/lina/finance_tracker_bot/services/RemoveService.java:53 | only stored rows whose id was not deleted |
| Store.WithoutNotifications | src/main/java/com/lina/finance_tracker_bot/services/NotificationService.java:168 | only stored rows whose id was not deleted |
| Store.WithoutNotificationsRemovesOne | src/main/java/com/lina/finance_tracker_bot/services/NotificationService.java:168 | with unique ids, deleting a stored row removes it once and keeps every other row |
| Store.WithoutNotificationsTwice | src/main/java/com/lina/finance_tracker_bot/services/NotificationService.java:212 | deleting by one id set, then another, is deleting by their union |
| Store.Database.SaveUser | src/main/java/com/lina/finance_tracker_bot/services/UserInfoService.java:43-44 | appends the new user with a fresh id; the other tables are unchanged and ids stay unique |
| Store.Database.SaveNotification | src/main/java/com/lina/finance_tracker_bot/services/NotificationService.java:94-95 | appends the new reminder with a fresh id; the other tables are unchanged |
| Store.Database.SaveTransaction | src/main/java/com/lina/finance_tracker_bot/services/AddService.java:57-58 | appends a transaction with a fresh id and the given owner, category and type; the other tables are unchanged |
| Add.AddTransaction | src/main/java/com/lina/finance_tracker_bot/services/AddService.java:48-58 | the users table is that of get-or-create, one transaction with the lower-cased category and the given type is appended, and the reminders are unchanged; the same holds for lines 101-106 |
| Add.AddedCategoryIsListed | src/main/java/com/lina/finance_tracker_bot/services/AddService.java:54-67 | after the entry is saved, its lower-cased category is among the chat's categories |
| Add.AddKeepsListedCategories | src/main/java/com/lina/finance_tracker_bot/services/AddService.java:58-67 | saving an entry removes no category from the chat's list |
| Store.Database.DeleteNotification | src/main/java/com/lina/finance_tracker_bot/services/NotificationService.java:168 | removes the row with that id; everything else is unchanged |
| Store.Database.DeleteTransactions | src/main/java/com/lina/finance_tracker_bot/services/RemoveService.java:53 | removes the rows with those ids; everything else is unchanged |
| Outcomes.Outbox.Send | src/main/java/com/lina/finance_tracker_bot/bot/MessageSender.java:37-50 | appends exactly one message to the log |

## Left out

- AddService: the tables are modelled (Add.AddTransaction), but a transaction row carries no amount and no date. The reply is `AddReply(kind, category, amount)` with the amount as the token it was parsed from; the reply text with its per-type category list is not built. So the failure of `addExpense` when one of the chat's stored expense categories is empty is not modelled: line 83 calls `substring(0, 1)` on it after the row is saved, and the catch answers with the error reply where the model answers `AddReply`.
- Text.ParseInt: only the ASCII digits 0-9 are read. `Integer.parseInt` also reads the other Unicode decimal digits (fullwidth "３", Arabic-Indic digits), so the source accepts such text as a category or reminder number where the model refuses it.
- Text.EqualsIgnoreCaseIffLowerEqual and Remove.DeletedCategoryIsGone: both rely on the model's one-character-to-one-character case mapping. In Java "İ".toLowerCase() has two characters, and "σ".equalsIgnoreCase("ς") holds although their lower-case forms differ, so for such categories the source need not behave as these lemmas state.
- NotificationRepo.FindActive: reminders at the same minute are listed in table order. `ORDER BY notificationTime ASC` leaves ties to the database, so with two reminders at one minute the source may show them either way round and delete either one for ordinal 1. This carries over to SelectNotification, HandleNotificationSelection and OrdinalShiftsAsTimePasses.
- Store.TransactionsOf: a chat's transactions are listed in table order. `findByUserChatId` has no ORDER BY, so the database decides their order, and with it the first-occurrence order of UserInfo.GetUserCategories. In the source an ordinal may therefore name a different category than in the model, in Remove.SelectCategory and Remove.CategorySelection.
- `isNumeric` and `Double.parseDouble` become the parameter `numeric`: comma-decimal parsing, `NaN` and infinities are not modelled.
- ReportService, CurrencyService and FactService answer with `Delegated(data)`: report sums, rates and the HTTP clients are outside the model.
- The menus are `ShowMenu(menu)` without their buttons, and every message's text is left out; only the choice of answer is modelled.
- MessageSender: each send is one `Outbox` entry carrying its TTL. The hand-off of a sent message's id to `scheduleMessageForDeletion` is not wired. Telegram message ids and send failures are not modelled.
- The timers: the ten-second sweeps, the ten-second drain and the `@Scheduled` one-minute reminder sweep are explicit calls. Worker start-up inside `setTelegramBot` and `shutdown` are left out.
- The clock is read once per call. In `handleNotificationSelection` the list shown after the deletion re-reads `LocalTime.now()`; the model uses the same instant for both reads.
- Concurrency of the concurrent maps, sets and the queue: the model is sequential. So is the sweep, which the source runs inside a Spring transaction.
- Exceptions: RemoveService's catch-all blocks are modelled for the one failure it raises on its own data, capitalising an empty category. AddService's catch is not modelled (see the AddService line). Repository failures and null categories, messages or chat ids from the caller are not modelled. Transactional rollback is left out too.
- Integer widths: ids, chat ids and epoch instants are unbounded integers. 64-bit overflow of `now + ttl` is not modelled. `Integer.parseInt` keeps its 32-bit range.
- Text.ToLower: only ASCII and basic Cyrillic capitals (including Ё) are mapped; the rest of Unicode case mapping is not modelled.
- `findTopByUserChatIdOrderByCreatedAtDesc`: this query is not called by the modelled services. Its ordering is `NewestFirst`, and `KeptNotifications` applies the limit to it.
- NotificationRepo.DeleteOldNotifications: rows created at the same instant are kept in table order. The database may order such ties arbitrarily.
- Handler.HandleMessage: branches 1 and 2 state the wait's end and the kind of reply. The exact tables and reply are the contracts of HandleCategoryNumber and HandleNotificationNumber, which it calls. In the reminder dialog the users and reminders tables are those of HandleReminderInput.
- Handler.HandleReminderInput: the forwarded command's answer is stated as some notification reply. Whether a reminder is saved, and with which time and text, is stated exactly.
- Handler.DialogHandled: for a well-formed reminder message it states the closed dialog, the unchanged transactions and one notification reply. It does not state the users or reminders tables, which are those of HandleReminderInput.
