/**
 * What the services answer and what the bot sends. The services return
 * strings in the source; here each answer is the outcome it reports, and
 * the text around it is left out. Every call of
 * `MessageSender.sendText`/`sendTextWithTtl`/`sendMessage` becomes one
 * entry of the Outbox log.
 */
module Outcomes {
  import opened Base
  import opened LocalTimes
  import opened Store

  /** The answers of RemoveService. */
  datatype RemoveOutcome =
    | HistoryAlreadyEmpty
    | HistoryCleared(deleted: nat)
    | NoCategories
    | CategoryList(categories: seq<string>)
    | InvalidCategoryNumber
    | CategoryDeleted(category: string, deleted: nat, remaining: seq<string>)
      /** An exception caught by the service's own `catch`. */
    | RemoveFailed

  /** The answers of NotificationService. */
  datatype NotificationOutcome =
      /** `showUserNotifications`: the active list (empty means "no active reminders"). */
    | ActiveList(active: seq<Notification>)
    | BadTimeFormat
    | PastTime(now: LocalTime, requested: LocalTime)
    | Created(created: Notification, active: seq<Notification>)
    | NothingToDelete
    | DeletionList(active: seq<Notification>)
    | InvalidNotificationNumber
    | NotificationDeleted(deleted: Notification, active: seq<Notification>)

  /** The menus of MessageHandler; their buttons are left out. */
  datatype Menu = MainMenu | ReportsMenu | RatesMenu | NotificationsMenu

  /** The content of one outgoing message. */
  datatype Body =
    | CategoryNumberPrompt
    | NotificationNumberPrompt
    | RemoveReply(remove: RemoveOutcome)
    | NotificationReply(notification: NotificationOutcome)
      /** The prompts of the two-token add dialog. */
    | AddNeedsTwoFields(addKind: TransactionType)
    | AddOneAtATime(addKind: TransactionType)
    | AddNeedsAmount(addKind: TransactionType)
      /** What AddService answers for the parsed input; the amount stays a token. */
    | AddReply(addKind: TransactionType, category: string, amount: string)
    | NotifyFormatPrompt
    | NotifyTimePrompt
    | UnknownState
    | UseMenuHint
    | ShowMenu(menu: Menu)
      /** What a dialog callback asks the user to type next. */
    | DialogPrompt(state: string)
      /** Reports, rates and facts: answered by services outside this model. */
    | Delegated(data: string)
    | UnknownCallback
    | Reminder(reminder: Notification)

  /** One message sent to a chat; ttl 0 is `sendText`, which never schedules a deletion. */
  datatype Outgoing = Outgoing(chatId: ChatId, body: Body, ttl: int)

  class Outbox {
    var sent: seq<Outgoing>

    constructor ()
      ensures sent == []
    {
      sent := [];
    }

    method Send(chatId: ChatId, body: Body, ttl: int)
      modifies this
      ensures sent == old(sent) + [Outgoing(chatId, body, ttl)]
    {
      sent := sent + [Outgoing(chatId, body, ttl)];
    }
  }
}
