/**
 * MessageHandler: routing of plain messages and of inline-button callbacks.
 * A message goes, in this order of priority, to the pending category
 * selection, to the pending reminder selection, to the open dialog
 * (add an expense, add an income, create a reminder), and otherwise to
 * `/start` or a hint. The services it calls are the methods of Remove,
 * Notifications and UserInfo; AddService, ReportService, CurrencyService
 * and FactService are outside this model (see AddReply and Delegated).
 */
module Handler {
  import opened Base
  import opened Text
  import opened LocalTimes
  import opened Store
  import opened UserState
  import opened UserInfo
  import opened Outcomes
  import opened Remove
  import opened Notifications
  import opened NotificationRepo
  import Deletion
  import Add

  /** The dialog states a callback opens. */
  const ADD_EXPENSE: string := "add_expense"
  const ADD_INCOME: string := "add_income"
  const CREATE_NOTIFICATION: string := "create_notification"

  /** The callback data answered by ReportService and CurrencyService. */
  const REPORT_CALLBACKS: set<string> := {"report_all", "report_today", "report_week", "report_year"}
  const RATE_CALLBACKS: set<string> := {"rate_usd", "rate_eur", "rate_cny"}

  /* ------------------ the add dialogs ------------------ */

  /** What the add dialogs make of one message. */
  datatype AddInput =
    | TooFewFields
    | TooManyFields
    | NoAmount
    | AddParsed(category: string, amount: string)

  /**
   * The two-token input of `add_expense` / `add_income`: the trimmed text,
   * split on whitespace runs, must have exactly two tokens, one of which is
   * a number (`isNumeric`, the parameter `numeric`). When both are numbers
   * the first one is the amount.
   */
  function ParseAddInput(messageText: string, numeric: string -> bool): (r: AddInput)
    ensures var parts := Split(Trim(messageText), 0);
      && (r.TooFewFields? <==> |parts| < 2)
      && (r.TooManyFields? <==> |parts| > 2)
      && (r.NoAmount? <==> |parts| == 2 && !numeric(parts[0]) && !numeric(parts[1]))
      && (r.AddParsed? ==>
            && numeric(r.amount)
            && ((r.amount == parts[0] && r.category == parts[1]) || (r.amount == parts[1] && r.category == parts[0]))
            && (numeric(parts[0]) ==> r.amount == parts[0]))
    ensures r.AddParsed? ==> r.category != [] && r.amount != []
    ensures Trim(messageText) == [] ==> r.TooFewFields?
  {
    var parts := Split(Trim(messageText), 0);
    SplitOfTrimmed(Trim(messageText));
    if |parts| < 2 then TooFewFields
    else if |parts| > 2 then TooManyFields
    else if numeric(parts[0]) then AddParsed(parts[1], parts[0])
    else if numeric(parts[1]) then AddParsed(parts[0], parts[1])
    else NoAmount
  }

  /** "Еда 500" and "500 Еда" give the same entry; of two numbers the first is the amount. */
  lemma AddInputOfTwoWords(a: string, b: string, numeric: string -> bool)
    requires a != [] && NoWhitespace(a) && !IsTrimmable(a[0]) && !IsTrimmable(a[|a| - 1])
    requires b != [] && NoWhitespace(b) && !IsTrimmable(b[0]) && !IsTrimmable(b[|b| - 1])
    ensures ParseAddInput(a + " " + b, numeric)
         == if numeric(a) then AddParsed(b, a) else if numeric(b) then AddParsed(a, b) else NoAmount
    ensures numeric(a) && !numeric(b) ==> ParseAddInput(a + " " + b, numeric) == ParseAddInput(b + " " + a, numeric)
  {
    TwoWordsTrimmed(a, b);
    TwoWordsTrimmed(b, a);
    SplitTwoWords(a, b);
    SplitTwoWords(b, a);
  }

  lemma TwoWordsTrimmed(a: string, b: string)
    requires a != [] && b != [] && !IsTrimmable(a[0]) && !IsTrimmable(b[|b| - 1])
    ensures Trim(a + " " + b) == a + [' '] + b
  {
    var s := a + " " + b;
    assert s == a + [' '] + b;
    assert s[0] == a[0] && s[|s| - 1] == b[|b| - 1];
    TrimOfTrimmed(s);
  }

  /** Three tokens are refused: one entry at a time. */
  lemma AddInputOfThreeWords(a: string, b: string, c: string, numeric: string -> bool)
    requires a != [] && NoWhitespace(a) && !IsTrimmable(a[0])
    requires b != [] && NoWhitespace(b)
    requires c != [] && NoWhitespace(c) && !IsTrimmable(c[|c| - 1])
    ensures ParseAddInput(a + " " + b + " " + c, numeric) == TooManyFields
  {
    var bc := b + [' '] + c;
    assert a + " " + b + " " + c == a + " " + bc;
    assert bc[|bc| - 1] == c[|c| - 1];
    TwoWordsTrimmed(a, bc);
    SplitThreeWords(a, b, c);
  }

  lemma SplitThreeWords(a: string, b: string, c: string)
    requires a != [] && NoWhitespace(a) && b != [] && NoWhitespace(b) && c != [] && NoWhitespace(c)
    ensures Split(a + [' '] + (b + [' '] + c), 0) == [a, b, c]
  {
    var bc := b + [' '] + c;
    PiecesOfThreeWords(a, b, c);
    FirstWhitespaceAfterWord(a, [' '] + bc);
    assert a + ([' '] + bc) == a + [' '] + bc;
    assert DropTrailingEmpty([a, b, c]) == [a, b, c];
  }

  lemma PiecesOfThreeWords(a: string, b: string, c: string)
    requires a != [] && NoWhitespace(a) && b != [] && NoWhitespace(b) && c != [] && NoWhitespace(c)
    ensures Pieces(a + [' '] + (b + [' '] + c), 0) == [a, b, c]
  {
    var bc := b + [' '] + c;
    assert bc[0] == b[0];
    PiecesOfWordThenRest(a, ' ', bc, 0);
    PiecesOfTwoWords(b, c);
    assert [a] + [b, c] == [a, b, c];
  }

  /** The prompt or the AddService call the add dialog answers with. */
  function AddAnswer(kind: TransactionType, input: AddInput): (b: Body)
    ensures input.TooFewFields? <==> b == AddNeedsTwoFields(kind)
    ensures input.TooManyFields? <==> b == AddOneAtATime(kind)
    ensures input.NoAmount? <==> b == AddNeedsAmount(kind)
    ensures input.AddParsed? ==> b == AddReply(kind, input.category, input.amount)
    ensures b.AddReply? ==> input.AddParsed?
  {
    match input
    case TooFewFields => AddNeedsTwoFields(kind)
    case TooManyFields => AddOneAtATime(kind)
    case NoAmount => AddNeedsAmount(kind)
    case AddParsed(category, amount) => AddReply(kind, category, amount)
  }

  /* ------------------ the reminder dialog ------------------ */

  /** What the reminder dialog makes of one message. */
  datatype ReminderInput = MissingText | BadTime | WellFormed(time: LocalTime)

  /**
   * The validation in the `create_notification` dialog: the trimmed text split
   * into at most two parts; there must be two, and the first must be a
   * valid `HH:mm`.
   */
  function CheckReminderInput(messageText: string): (r: ReminderInput)
    ensures var parts := Split(Trim(messageText), 2);
      && (r.MissingText? <==> |parts| < 2)
      && (r.BadTime? <==> |parts| == 2 && ParseTime(parts[0]).None?)
      && (r.WellFormed? <==> |parts| == 2 && ParseTime(parts[0]).Some?)
      && (r.WellFormed? ==> ParseTime(parts[0]) == Some(r.time))
    ensures r.WellFormed? ==> r.time % NANOS_PER_MINUTE == 0
  {
    var parts := Split(Trim(messageText), 2);
    if |parts| < 2 then MissingText
    else match ParseTime(parts[0])
      case None => BadTime
      case Some(t) => WellFormed(t)
  }

  /** The prompt of the reminder dialog for a refused message. */
  function ReminderPrompt(input: ReminderInput): (b: Body)
    requires !input.WellFormed?
    ensures input.MissingText? <==> b == NotifyFormatPrompt
    ensures input.BadTime? <==> b == NotifyTimePrompt
  {
    if input.MissingText? then NotifyFormatPrompt else NotifyTimePrompt
  }

  /** The command the dialog forwards to NotificationService: `"/notify " + messageText`, untrimmed. */
  function ForwardedCommand(messageText: string): (r: string)
    ensures |r| == |messageText| + 8 && r[..7] == "/notify" && r[7] == ' ' && r[8..] == messageText
  {
    "/notify " + messageText
  }

  /**
   * A dialog message "HH:mm text" passes the dialog's check, and the
   * forwarded command is decided on the same time and the same text.
   */
  lemma ForwardedReminderAgrees(hhmm: string, msg: string, now: LocalTime)
    requires ParseTime(hhmm).Some?
    requires msg != [] && !IsWhitespace(msg[0]) && !IsTrimmable(msg[|msg| - 1])
    ensures var t := ParseTime(hhmm).value;
      && CheckReminderInput(hhmm + " " + msg) == WellFormed(t)
      && DecideNotify(ForwardedCommand(hhmm + " " + msg), now)
         == if IsBefore(t, now) then RejectPast(t) else Accept(t, msg)
  {
    DialogAcceptsTimeAndText(hhmm, msg);
    ForwardedCommandDecidesSameTime(hhmm, msg, now);
  }

  lemma DialogAcceptsTimeAndText(hhmm: string, msg: string)
    requires ParseTime(hhmm).Some?
    requires msg != [] && !IsWhitespace(msg[0]) && !IsTrimmable(msg[|msg| - 1])
    ensures CheckReminderInput(hhmm + " " + msg) == WellFormed(ParseTime(hhmm).value)
  {
    ParsedTimeIsOneWord(hhmm);
    TwoWordsTrimmed(hhmm, msg);
    SplitTwo(hhmm, msg);
  }

  lemma ForwardedCommandDecidesSameTime(hhmm: string, msg: string, now: LocalTime)
    requires ParseTime(hhmm).Some?
    requires msg != [] && !IsWhitespace(msg[0]) && !IsTrimmable(msg[|msg| - 1])
    ensures var t := ParseTime(hhmm).value;
      DecideNotify(ForwardedCommand(hhmm + " " + msg), now) == if IsBefore(t, now) then RejectPast(t) else Accept(t, msg)
  {
    ParsedTimeIsOneWord(hhmm);
    assert ForwardedCommand(hhmm + " " + msg) == "/notify" + " " + hhmm + " " + msg;
    SplitCommand("/notify", hhmm, msg);
  }

  /**
   * The dialog trims with `trim()` but NotificationService splits on `\s`:
   * a control character before the time (trimmable, yet not whitespace)
   * passes the dialog's check, and the forwarded command is refused as a
   * bad time format after the dialog state has been cleared.
   */
  lemma ControlCharBeforeTimeRefusedAfterForwarding(c: char, hhmm: string, msg: string, now: LocalTime)
    requires IsTrimmable(c) && !IsWhitespace(c)
    requires ParseTime(hhmm).Some?
    requires msg != [] && !IsWhitespace(msg[0]) && !IsTrimmable(msg[|msg| - 1])
    ensures CheckReminderInput([c] + hhmm + " " + msg) == WellFormed(ParseTime(hhmm).value)
    ensures DecideNotify(ForwardedCommand([c] + hhmm + " " + msg), now) == RejectBadTime
  {
    ParsedTimeIsOneWord(hhmm);
    ControlCharTrimmedByDialog(c, hhmm, msg);
    ControlCharKeptByCommand(c, hhmm, msg);
    assert |[c] + hhmm| == 6;
  }

  /** The dialog's `trim()` drops the control character, leaving the time as the first part. */
  lemma ControlCharTrimmedByDialog(c: char, hhmm: string, msg: string)
    requires IsTrimmable(c)
    requires hhmm != [] && NoWhitespace(hhmm) && !IsTrimmable(hhmm[0])
    requires msg != [] && !IsWhitespace(msg[0]) && !IsTrimmable(msg[|msg| - 1])
    ensures Split(Trim([c] + hhmm + " " + msg), 2) == [hhmm, msg]
  {
    var inner := hhmm + " " + msg;
    assert [c] + hhmm + " " + msg == [c] + inner && inner[0] == hhmm[0];
    TwoWordsTrimmed(hhmm, msg);
    TrimDropsLeadingChar(c, inner);
    SplitTwo(hhmm, msg);
  }

  /** The forwarded command keeps the control character glued to the front of the time. */
  lemma ControlCharKeptByCommand(c: char, hhmm: string, msg: string)
    requires !IsWhitespace(c)
    requires hhmm != [] && NoWhitespace(hhmm)
    requires msg != [] && !IsWhitespace(msg[0]) && !IsTrimmable(msg[|msg| - 1])
    ensures Split(Trim(ForwardedCommand([c] + hhmm + " " + msg)), 3) == ["/notify", [c] + hhmm, msg]
  {
    var word := [c] + hhmm;
    NoWhitespacePrepend(c, hhmm);
    assert ForwardedCommand([c] + hhmm + " " + msg) == "/notify" + " " + word + " " + msg;
    SplitCommand("/notify", word, msg);
  }

  /* ------------------ fall-through ------------------ */

  /** When no dialog takes the message: the main menu for exactly "/start", a hint otherwise. */
  function FallbackReply(messageText: string): (b: Body)
    ensures b == ShowMenu(MainMenu) <==> messageText == "/start"
    ensures b != ShowMenu(MainMenu) ==> b == UseMenuHint
  {
    if messageText == "/start" then ShowMenu(MainMenu) else UseMenuHint
  }

  /* ------------------ the branches of handleMessage ------------------ */

  /** `showMainMenu(chatId)`: the chat gets a user (no username) and the main menu, never deleted. */
  method ShowMainMenu(db: Database, outbox: Outbox, chatId: ChatId)
    requires db.Valid()
    modifies db, outbox
    ensures db.Valid()
    ensures db.users == UsersAfterGetOrCreate(old(db.users), old(db.nextId), chatId, None)
    ensures db.transactions == old(db.transactions) && db.notifications == old(db.notifications)
    ensures outbox.sent == old(outbox.sent) + [Outgoing(chatId, ShowMenu(MainMenu), 0)]
  {
    var user := GetOrCreateUser(db, chatId, None);
    outbox.Send(chatId, ShowMenu(MainMenu), 0);
  }

  /**
   * A message while a category number is awaited: a text that is not an
   * integer keeps the wait and repeats the prompt; an integer goes to
   * `categorySelection`, which ends the wait, and its answer is sent.
   */
  method HandleCategoryNumber(db: Database, userState: UserStateService, outbox: Outbox,
                              chatId: ChatId, messageText: string, username: Option<string>)
    requires db.Valid() && userState.Valid()
    requires chatId in userState.awaitingCategoryDeletion
    modifies db, userState, outbox
    ensures db.Valid() && userState.Valid()
    ensures ParseInt(Trim(messageText)).None? ==>
      && unchanged(db) && unchanged(userState)
      && outbox.sent == old(outbox.sent) + [Outgoing(chatId, CategoryNumberPrompt, Deletion.NOTIFICATION_CREATED_TTL)]
    ensures ParseInt(Trim(messageText)).Some? ==>
      userState.Snapshot() == old(userState.Snapshot()).(
           awaitingCategoryDeletion := old(userState.awaitingCategoryDeletion) - {chatId},
           categoryDeletionExpirations := old(userState.categoryDeletionExpirations) - {chatId})
    ensures ParseInt(Trim(messageText)).Some? ==>
      var selection := SelectCategory(old(db.transactions), chatId, ParseInt(Trim(messageText)).value);
      && db.notifications == old(db.notifications)
      && db.users == UsersAfterGetOrCreate(old(db.users), old(db.nextId), chatId, username)
      && db.transactions == selection.0
      && outbox.sent == old(outbox.sent) + [Outgoing(chatId, RemoveReply(selection.1), Deletion.NOTIFICATION_CREATED_TTL)]
  {
    var num := ParseInt(Trim(messageText));
    if num.None? {
      outbox.Send(chatId, CategoryNumberPrompt, Deletion.NOTIFICATION_CREATED_TTL);
      return;
    }
    ghost var before := userState.Snapshot();
    var res := CategorySelection(db, userState, chatId, num.value, username);
    ghost var afterSelection := userState.Snapshot();
    userState.ClearAwaitingCategoryDeletion(chatId);
    assert userState.awaitingCategoryDeletion == before.awaitingCategoryDeletion - {chatId};
    assert userState.categoryDeletionExpirations == before.categoryDeletionExpirations - {chatId};
    assert userState.Snapshot() == afterSelection.(
      awaitingCategoryDeletion := afterSelection.awaitingCategoryDeletion - {chatId},
      categoryDeletionExpirations := afterSelection.categoryDeletionExpirations - {chatId});
    assert userState.Snapshot() == before.(
      awaitingCategoryDeletion := before.awaitingCategoryDeletion - {chatId},
      categoryDeletionExpirations := before.categoryDeletionExpirations - {chatId});
    outbox.Send(chatId, RemoveReply(res), Deletion.NOTIFICATION_CREATED_TTL);
  }

  /**
   * A message while a reminder number is awaited: a text that is not an
   * integer keeps the wait and repeats the prompt; an integer goes to
   * `handleNotificationSelection`, which ends the wait, and its answer is
   * sent without a deletion timer.
   */
  method HandleNotificationNumber(db: Database, userState: UserStateService, outbox: Outbox,
                                  chatId: ChatId, messageText: string, clock: Clock)
    requires db.Valid() && userState.Valid()
    requires chatId in userState.awaitingNotificationDeletion
    modifies db, userState, outbox
    ensures db.Valid() && userState.Valid()
    ensures ParseInt(Trim(messageText)).None? ==>
      && unchanged(db) && unchanged(userState)
      && outbox.sent == old(outbox.sent) + [Outgoing(chatId, NotificationNumberPrompt, Deletion.NOTIFICATION_CREATED_TTL)]
    ensures ParseInt(Trim(messageText)).Some? ==>
      userState.Snapshot() == old(userState.Snapshot()).(
        awaitingNotificationDeletion := old(userState.awaitingNotificationDeletion) - {chatId},
        notificationDeletionExpirations := old(userState.notificationDeletionExpirations) - {chatId})
    ensures ParseInt(Trim(messageText)).Some? ==>
      var selection := SelectNotification(old(db.notifications), chatId, clock.timeOfDay, ParseInt(Trim(messageText)).value);
      && db.users == old(db.users) && db.transactions == old(db.transactions)
      && db.notifications == selection.0
      && outbox.sent == old(outbox.sent) + [Outgoing(chatId, NotificationReply(selection.1), 0)]
  {
    var num := ParseInt(Trim(messageText));
    if num.None? {
      outbox.Send(chatId, NotificationNumberPrompt, Deletion.NOTIFICATION_CREATED_TTL);
      return;
    }
    ghost var before := userState.Snapshot();
    var res := HandleNotificationSelection(db, userState, chatId, num.value, clock);
    ghost var afterSelection := userState.Snapshot();
    userState.ClearAwaitingNotificationDeletion(chatId);
    assert userState.awaitingNotificationDeletion == before.awaitingNotificationDeletion - {chatId};
    assert userState.notificationDeletionExpirations == before.notificationDeletionExpirations - {chatId};
    assert userState.Snapshot() == afterSelection.(
      awaitingNotificationDeletion := afterSelection.awaitingNotificationDeletion - {chatId},
      notificationDeletionExpirations := afterSelection.notificationDeletionExpirations - {chatId});
    assert userState.Snapshot() == before.(
      awaitingNotificationDeletion := before.awaitingNotificationDeletion - {chatId},
      notificationDeletionExpirations := before.notificationDeletionExpirations - {chatId});
    outbox.Send(chatId, NotificationReply(res), 0);
  }

  /**
   * A message in an add dialog: a refused input keeps the dialog open,
   * changes no table and prompts again; a parsed one closes the dialog and
   * goes to AddService, which saves one transaction.
   */
  method HandleAddInput(db: Database, userState: UserStateService, outbox: Outbox, chatId: ChatId, kind: TransactionType,
                        messageText: string, username: Option<string>, numeric: string -> bool)
    requires db.Valid() && userState.Valid()
    modifies db, userState, outbox
    ensures db.Valid() && userState.Valid()
    ensures outbox.sent == old(outbox.sent)
      + [Outgoing(chatId, AddAnswer(kind, ParseAddInput(messageText, numeric)), Deletion.NOTIFICATION_CREATED_TTL)]
    ensures ParseAddInput(messageText, numeric).AddParsed? ==>
      && userState.Snapshot() == old(userState.Snapshot()).(
           states := old(userState.states) - {chatId}, stateExpirations := old(userState.stateExpirations) - {chatId})
      && AddSaved(old(db.users), old(db.nextId), old(db.transactions), db.users, db.transactions,
                  chatId, ParseAddInput(messageText, numeric).category, kind, username)
      && db.notifications == old(db.notifications)
    ensures !ParseAddInput(messageText, numeric).AddParsed? ==> unchanged(userState) && unchanged(db)
  {
    var input := ParseAddInput(messageText, numeric);
    if input.AddParsed? {
      userState.ClearState(chatId);
      var t := Add.AddTransaction(db, chatId, input.category, kind, username);
    }
    outbox.Send(chatId, AddAnswer(kind, input), Deletion.NOTIFICATION_CREATED_TTL);
  }

  /** The users and transactions tables after AddService saved an entry in category c. */
  ghost predicate AddSaved(users0: seq<User>, nextId0: nat, ts0: seq<Transaction>, users: seq<User>, ts: seq<Transaction>,
                           chatId: ChatId, c: string, kind: TransactionType, username: Option<string>)
  {
    && users == UsersAfterGetOrCreate(users0, nextId0, chatId, username)
    && exists id: nat :: ts == ts0 + [Transaction(id, chatId, ToLower(c), kind)]
  }

  /**
   * A message in the reminder dialog: a refused input keeps the dialog
   * open and prompts again; a well-formed one closes the dialog and goes,
   * untrimmed and prefixed with "/notify ", to `handleNotifyCommand`.
   */
  method HandleReminderInput(db: Database, userState: UserStateService, outbox: Outbox,
                             chatId: ChatId, messageText: string, username: Option<string>, clock: Clock)
    requires db.Valid() && userState.Valid()
    modifies db, userState, outbox
    ensures db.Valid() && userState.Valid()
    ensures !CheckReminderInput(messageText).WellFormed? ==>
      && unchanged(db) && unchanged(userState)
      && outbox.sent == old(outbox.sent)
         + [Outgoing(chatId, ReminderPrompt(CheckReminderInput(messageText)), Deletion.NOTIFICATION_CREATED_TTL)]
    ensures CheckReminderInput(messageText).WellFormed? ==>
      && userState.Snapshot() == old(userState.Snapshot()).(
           states := old(userState.states) - {chatId}, stateExpirations := old(userState.stateExpirations) - {chatId})
      && db.users == UsersAfterGetOrCreate(old(db.users), old(db.nextId), chatId, username)
      && db.transactions == old(db.transactions)
      && (exists o :: outbox.sent == old(outbox.sent) + [Outgoing(chatId, NotificationReply(o), Deletion.NOTIFICATION_CREATED_TTL)])
      && match DecideNotify(ForwardedCommand(messageText), clock.timeOfDay)
         case Accept(time, message) =>
           exists id: nat :: db.notifications == old(db.notifications) + [Notification(id, chatId, time, message, clock.epochMillis)]
         case _ => db.notifications == old(db.notifications)
  {
    var input := CheckReminderInput(messageText);
    if !input.WellFormed? {
      outbox.Send(chatId, ReminderPrompt(input), Deletion.NOTIFICATION_CREATED_TTL);
      return;
    }
    userState.ClearState(chatId);
    var res := HandleNotifyCommand(db, chatId, ForwardedCommand(messageText), username, clock);
    outbox.Send(chatId, NotificationReply(res), Deletion.NOTIFICATION_CREATED_TTL);
  }

  /**
   * `handleMessage(chatId, messageText, username)`: the routing contract.
   * The awaited category number wins over the awaited reminder number,
   * which wins over an open dialog; an unknown dialog state is dropped and
   * the message then goes to the fall-through like one outside any dialog.
   * What each branch does to the store is the contract of the branch's
   * method above.
   */
  method HandleMessage(db: Database, userState: UserStateService, outbox: Outbox,
                       chatId: ChatId, messageText: string, username: Option<string>,
                       clock: Clock, numeric: string -> bool)
    requires db.Valid() && userState.Valid()
    modifies db, userState, outbox
    ensures db.Valid() && userState.Valid()
    // 1) a category number is awaited
    ensures chatId in old(userState.awaitingCategoryDeletion) ==>
      if ParseInt(Trim(messageText)).None? then
        && unchanged(db) && unchanged(userState)
        && outbox.sent == old(outbox.sent) + [Outgoing(chatId, CategoryNumberPrompt, Deletion.NOTIFICATION_CREATED_TTL)]
      else
        && db.notifications == old(db.notifications)
        && userState.Snapshot() == old(userState.Snapshot()).(
             awaitingCategoryDeletion := old(userState.awaitingCategoryDeletion) - {chatId},
             categoryDeletionExpirations := old(userState.categoryDeletionExpirations) - {chatId})
        && exists o :: outbox.sent == old(outbox.sent) + [Outgoing(chatId, RemoveReply(o), Deletion.NOTIFICATION_CREATED_TTL)]
    // 2) a reminder number is awaited
    ensures chatId !in old(userState.awaitingCategoryDeletion) && chatId in old(userState.awaitingNotificationDeletion) ==>
      if ParseInt(Trim(messageText)).None? then
        && unchanged(db) && unchanged(userState)
        && outbox.sent == old(outbox.sent) + [Outgoing(chatId, NotificationNumberPrompt, Deletion.NOTIFICATION_CREATED_TTL)]
      else
        && db.users == old(db.users) && db.transactions == old(db.transactions)
        && userState.Snapshot() == old(userState.Snapshot()).(
             awaitingNotificationDeletion := old(userState.awaitingNotificationDeletion) - {chatId},
             notificationDeletionExpirations := old(userState.notificationDeletionExpirations) - {chatId})
        && exists o :: outbox.sent == old(outbox.sent) + [Outgoing(chatId, NotificationReply(o), 0)]
    // 3) a dialog is open
    ensures chatId !in old(userState.awaitingCategoryDeletion) && chatId !in old(userState.awaitingNotificationDeletion)
            && chatId in old(userState.states) ==>
      DialogHandled(old(userState.Snapshot()), userState.Snapshot(), old(db.users), old(db.nextId),
                    old(db.transactions), old(db.notifications), db.users, db.transactions, db.notifications,
                    old(outbox.sent), outbox.sent, chatId, messageText, username, numeric)
    // 4) no dialog at all
    ensures chatId !in old(userState.awaitingCategoryDeletion) && chatId !in old(userState.awaitingNotificationDeletion)
            && chatId !in old(userState.states) ==>
      && unchanged(userState)
      && outbox.sent == old(outbox.sent) + [Outgoing(chatId, FallbackReply(messageText), 0)]
      && db.users == (if messageText == "/start" then UsersAfterGetOrCreate(old(db.users), old(db.nextId), chatId, None)
                      else old(db.users))
      && db.transactions == old(db.transactions) && db.notifications == old(db.notifications)
  {
    if userState.IsAwaitingCategoryDeletion(chatId) {
      HandleCategoryNumber(db, userState, outbox, chatId, messageText, username);
      return;
    }
    if userState.IsAwaitingNotificationDeletion(chatId) {
      HandleNotificationNumber(db, userState, outbox, chatId, messageText, clock);
      return;
    }
    if userState.HasState(chatId) {
      HandleDialogMessage(db, userState, outbox, chatId, messageText, username, clock, numeric);
      return;
    }
    HandleOutsideDialog(db, outbox, chatId, messageText);
  }

  /**
   * What answering a message in an open dialog does to the state, the
   * tables and the outbox: the add dialogs close on a parsed entry, the
   * reminder dialog closes on a well-formed message and forwards it, and
   * an unknown dialog is dropped before the message falls through.
   */
  ghost predicate DialogHandled(before: StateSnapshot, after: StateSnapshot, users0: seq<User>, nextId0: nat,
                                ts0: seq<Transaction>, ns0: seq<Notification>,
                                users: seq<User>, ts: seq<Transaction>, ns: seq<Notification>,
                                sent0: seq<Outgoing>, sent: seq<Outgoing>,
                                chatId: ChatId, messageText: string, username: Option<string>, numeric: string -> bool)
    requires chatId in before.states
  {
    var state := before.states[chatId];
    var closed := before.(states := before.states - {chatId}, stateExpirations := before.stateExpirations - {chatId});
    if state == ADD_EXPENSE || state == ADD_INCOME then
      var kind := if state == ADD_EXPENSE then Expense else Income;
      var input := ParseAddInput(messageText, numeric);
      && ns == ns0
      && (if input.AddParsed? then
            after == closed && AddSaved(users0, nextId0, ts0, users, ts, chatId, input.category, kind, username)
          else after == before && users == users0 && ts == ts0)
      && sent == sent0 + [Outgoing(chatId, AddAnswer(kind, input), Deletion.NOTIFICATION_CREATED_TTL)]
    else if state == CREATE_NOTIFICATION then
      var input := CheckReminderInput(messageText);
      if input.WellFormed? then
        && after == closed
        && ts == ts0
        && exists o :: sent == sent0 + [Outgoing(chatId, NotificationReply(o), Deletion.NOTIFICATION_CREATED_TTL)]
      else
        && users == users0 && ts == ts0 && ns == ns0 && after == before
        && sent == sent0 + [Outgoing(chatId, ReminderPrompt(input), Deletion.NOTIFICATION_CREATED_TTL)]
    else
      && after == closed
      && sent == sent0 + [Outgoing(chatId, UnknownState, 0), Outgoing(chatId, FallbackReply(messageText), 0)]
      && users == (if messageText == "/start" then UsersAfterGetOrCreate(users0, nextId0, chatId, None) else users0)
      && ts == ts0 && ns == ns0
  }

  /** The message while a dialog is open: the `switch` on the dialog state. */
  method HandleDialogMessage(db: Database, userState: UserStateService, outbox: Outbox,
                             chatId: ChatId, messageText: string, username: Option<string>,
                             clock: Clock, numeric: string -> bool)
    requires db.Valid() && userState.Valid() && chatId in userState.states
    modifies db, userState, outbox
    ensures db.Valid() && userState.Valid()
    ensures DialogHandled(old(userState.Snapshot()), userState.Snapshot(), old(db.users), old(db.nextId),
                          old(db.transactions), old(db.notifications), db.users, db.transactions, db.notifications,
                          old(outbox.sent), outbox.sent, chatId, messageText, username, numeric)
  {
    var state := userState.GetState(chatId).value;
    if state == ADD_EXPENSE {
      HandleAddInput(db, userState, outbox, chatId, Expense, messageText, username, numeric);
    } else if state == ADD_INCOME {
      HandleAddInput(db, userState, outbox, chatId, Income, messageText, username, numeric);
    } else if state == CREATE_NOTIFICATION {
      HandleReminderInput(db, userState, outbox, chatId, messageText, username, clock);
    } else {
      userState.ClearState(chatId);
      outbox.Send(chatId, UnknownState, 0);
      HandleOutsideDialog(db, outbox, chatId, messageText);
    }
  }

  /** The message outside every dialog: the main menu for "/start", the menu hint otherwise. */
  method HandleOutsideDialog(db: Database, outbox: Outbox, chatId: ChatId, messageText: string)
    requires db.Valid()
    modifies db, outbox
    ensures db.Valid()
    ensures outbox.sent == old(outbox.sent) + [Outgoing(chatId, FallbackReply(messageText), 0)]
    ensures db.users == (if messageText == "/start" then UsersAfterGetOrCreate(old(db.users), old(db.nextId), chatId, None)
                         else old(db.users))
    ensures db.transactions == old(db.transactions) && db.notifications == old(db.notifications)
  {
    if messageText == "/start" {
      ShowMainMenu(db, outbox, chatId);
      return;
    }
    outbox.Send(chatId, UseMenuHint, 0);
  }

  /* ------------------ handleCallback ------------------ */

  /** The cases of the `handleCallback` switch that touch the state or the store. */
  datatype Callback =
    | OpenDialog(state: string)
    | DeleteCategory
    | ClearHistory
    | ShowReminders
    | DeleteReminder
    | BackToMain
    | AnswerOnly

  /** Which case of the switch a callback string selects. */
  function ClassifyCallback(data: string): (c: Callback)
    ensures c.OpenDialog? <==> data == ADD_EXPENSE || data == ADD_INCOME || data == "notify_create"
    ensures c.OpenDialog? ==> c.state == if data == "notify_create" then CREATE_NOTIFICATION else data
    ensures c == DeleteCategory <==> data == "delete_category"
    ensures c == ClearHistory <==> data == "clear_history"
    ensures c == ShowReminders <==> data == "notify_show"
    ensures c == DeleteReminder <==> data == "notify_delete"
    ensures c == BackToMain <==> data == "back_main"
  {
    if data == ADD_EXPENSE || data == ADD_INCOME then OpenDialog(data)
    else if data == "notify_create" then OpenDialog(CREATE_NOTIFICATION)
    else if data == "delete_category" then DeleteCategory
    else if data == "clear_history" then ClearHistory
    else if data == "notify_show" then ShowReminders
    else if data == "notify_delete" then DeleteReminder
    else if data == "back_main" then BackToMain
    else AnswerOnly
  }

  /**
   * `handleCallback(chatId, data, username)`: one message per callback.
   * The dialog callbacks open a dialog for DEFAULT_TTL_MS; `delete_category`
   * and `notify_delete` may set an awaiting flag; `clear_history` deletes
   * the chat's history; `back_main` ensures the user exists; the others
   * only answer.
   */
  method HandleCallback(db: Database, userState: UserStateService, outbox: Outbox,
                        chatId: ChatId, data: string, username: Option<string>, clock: Clock)
    requires db.Valid() && userState.Valid()
    modifies db, userState, outbox
    ensures db.Valid() && userState.Valid()
    ensures match ClassifyCallback(data)
      case OpenDialog(state) =>
        && unchanged(db)
        && userState.Snapshot() == old(userState.Snapshot()).(
             states := old(userState.states)[chatId := state],
             stateExpirations := old(userState.stateExpirations)[chatId := clock.epochMillis + DEFAULT_TTL_MS])
        && outbox.sent == old(outbox.sent) + [Outgoing(chatId, DialogPrompt(state), Deletion.NOTIFICATION_CREATED_TTL)]
      case DeleteCategory =>
        var cats := GetUserCategories(old(db.transactions), chatId);
        var o := if cats == [] then NoCategories else if "" in cats then RemoveFailed else CategoryList(cats);
        && db.users == UsersAfterGetOrCreate(old(db.users), old(db.nextId), chatId, username)
        && db.transactions == old(db.transactions) && db.notifications == old(db.notifications)
        && userState.Snapshot() == (if o.CategoryList? then old(userState.Snapshot()).(
             awaitingCategoryDeletion := old(userState.awaitingCategoryDeletion) + {chatId},
             categoryDeletionExpirations := old(userState.categoryDeletionExpirations)[chatId := clock.epochMillis + DEFAULT_TTL_MS])
           else old(userState.Snapshot()))
        && outbox.sent == old(outbox.sent) + [Outgoing(chatId, RemoveReply(o), Deletion.NOTIFICATION_CREATED_TTL)]
      case ClearHistory =>
        var mine := TransactionsOf(old(db.transactions), chatId);
        && unchanged(userState)
        && db.users == UsersAfterGetOrCreate(old(db.users), old(db.nextId), chatId, username)
        && db.notifications == old(db.notifications)
        && db.transactions == (if mine == [] then old(db.transactions)
                               else WithoutTransactions(old(db.transactions), Seqs.Keys(mine, TransactionId)))
        && outbox.sent == old(outbox.sent)
           + [Outgoing(chatId, RemoveReply(if mine == [] then HistoryAlreadyEmpty else HistoryCleared(|mine|)), 0)]
      case ShowReminders =>
        && unchanged(db) && unchanged(userState)
        && outbox.sent == old(outbox.sent)
           + [Outgoing(chatId, NotificationReply(ShowUserNotifications(db.notifications, chatId, clock.timeOfDay)),
                       Deletion.NOTIFICATION_CREATED_TTL)]
      case DeleteReminder =>
        var active := FindActive(db.notifications, chatId, TruncateToMinute(clock.timeOfDay));
        && unchanged(db)
        && userState.Snapshot() == (if active == [] then old(userState.Snapshot()) else old(userState.Snapshot()).(
             awaitingNotificationDeletion := old(userState.awaitingNotificationDeletion) + {chatId},
             notificationDeletionExpirations := old(userState.notificationDeletionExpirations)[chatId := clock.epochMillis + DEFAULT_TTL_MS]))
        && outbox.sent == old(outbox.sent) + [Outgoing(chatId,
             NotificationReply(if active == [] then NothingToDelete else DeletionList(active)), Deletion.NOTIFICATION_CREATED_TTL)]
      case BackToMain =>
        && unchanged(userState)
        && db.users == UsersAfterGetOrCreate(old(db.users), old(db.nextId), chatId, None)
        && db.transactions == old(db.transactions) && db.notifications == old(db.notifications)
        && outbox.sent == old(outbox.sent) + [Outgoing(chatId, ShowMenu(MainMenu), 0)]
      case AnswerOnly =>
        && unchanged(db) && unchanged(userState)
        && outbox.sent == old(outbox.sent) + [StatelessCallbackReply(chatId, data)]
  {
    match ClassifyCallback(data) {
      case OpenDialog(state) =>
        OpenDialogFor(userState, outbox, chatId, state, clock);
      case DeleteCategory =>
        var msg := DeleteCommand(db, userState, chatId, username, clock);
        outbox.Send(chatId, RemoveReply(msg), Deletion.NOTIFICATION_CREATED_TTL);
      case ClearHistory =>
        var res := ClearCommand(db, chatId, username);
        outbox.Send(chatId, RemoveReply(res), 0);
      case ShowReminders =>
        var s := ShowUserNotifications(db.notifications, chatId, clock.timeOfDay);
        outbox.Send(chatId, NotificationReply(s), Deletion.NOTIFICATION_CREATED_TTL);
      case DeleteReminder =>
        var msg := HandleDeleteNotificationCommand(db, userState, chatId, clock);
        outbox.Send(chatId, NotificationReply(msg), Deletion.NOTIFICATION_CREATED_TTL);
      case BackToMain =>
        ShowMainMenu(db, outbox, chatId);
      case AnswerOnly =>
        var reply := StatelessCallbackReply(chatId, data);
        outbox.Send(reply.chatId, reply.body, reply.ttl);
    }
  }

  /** A dialog callback: the dialog is opened for DEFAULT_TTL_MS and its prompt is sent. */
  method OpenDialogFor(userState: UserStateService, outbox: Outbox, chatId: ChatId, state: string, clock: Clock)
    requires userState.Valid()
    modifies userState, outbox
    ensures userState.Valid()
    ensures userState.Snapshot() == old(userState.Snapshot()).(
      states := old(userState.states)[chatId := state],
      stateExpirations := old(userState.stateExpirations)[chatId := clock.epochMillis + DEFAULT_TTL_MS])
    ensures outbox.sent == old(outbox.sent) + [Outgoing(chatId, DialogPrompt(state), Deletion.NOTIFICATION_CREATED_TTL)]
  {
    userState.SetState(Some(chatId), Some(state), DEFAULT_TTL_MS, clock.epochMillis);
    assert Max0(DEFAULT_TTL_MS) == DEFAULT_TTL_MS;
    outbox.Send(chatId, DialogPrompt(state), Deletion.NOTIFICATION_CREATED_TTL);
  }

  /**
   * The callbacks that only answer: the three submenus (reports and
   * notifications for five minutes, rates for two), a fact for a day,
   * reports and rates for two minutes, anything else "unknown", kept.
   */
  function StatelessCallbackReply(chatId: ChatId, data: string): (m: Outgoing)
    ensures m.chatId == chatId
    ensures m.body.ShowMenu? <==> data in {"open_reports", "open_rates", "open_notifications"}
    ensures m.body.Delegated? <==> data == "open_fact" || data in REPORT_CALLBACKS || data in RATE_CALLBACKS
    ensures m.body.Delegated? ==> m.body.data == data
    ensures m.body == UnknownCallback <==> !m.body.ShowMenu? && !m.body.Delegated?
    ensures m.ttl == 0 <==> m.body == UnknownCallback
  {
    if data == "open_reports" then Outgoing(chatId, ShowMenu(ReportsMenu), Deletion.MENU_TTL)
    else if data == "open_rates" then Outgoing(chatId, ShowMenu(RatesMenu), Deletion.NOTIFICATION_CREATED_TTL)
    else if data == "open_notifications" then Outgoing(chatId, ShowMenu(NotificationsMenu), Deletion.MENU_TTL)
    else if data == "open_fact" then Outgoing(chatId, Delegated(data), Deletion.DEFAULT_TTL)
    else if data in REPORT_CALLBACKS || data in RATE_CALLBACKS then Outgoing(chatId, Delegated(data), Deletion.NOTIFICATION_CREATED_TTL)
    else Outgoing(chatId, UnknownCallback, 0)
  }
}
