/**
 * RemoveService: clearing a chat's whole history, offering its categories
 * for deletion, and deleting the transactions of the chosen category.
 */
module Remove {
  import opened Base
  import opened Text
  import opened LocalTimes
  import opened Store
  import opened UserState
  import opened UserInfo
  import opened Outcomes
  import Seqs

  /** The chat's transactions whose category equals selected ignoring case (the stream filter). */
  function MatchingTransactions(ts: seq<Transaction>, chatId: ChatId, selected: string): (r: seq<Transaction>)
    ensures forall i :: 0 <= i < |r| ==> r[i] in ts && r[i].chatId == chatId && EqualsIgnoreCase(r[i].category, selected)
  {
    Seqs.Filter(TransactionsOf(ts, chatId), (t: Transaction) => EqualsIgnoreCase(t.category, selected))
  }

  lemma MatchingTransactionsMember(ts: seq<Transaction>, chatId: ChatId, selected: string, t: Transaction)
    ensures t in MatchingTransactions(ts, chatId, selected)
        <==> t in ts && t.chatId == chatId && EqualsIgnoreCase(t.category, selected)
  {
    TransactionsOfMember(ts, chatId, t);
    Seqs.FilterMember(TransactionsOf(ts, chatId), (t: Transaction) => EqualsIgnoreCase(t.category, selected), t);
  }

  /** With unique ids, a stored row's id is among the ids of stored rows k exactly when the row is in k. */
  lemma IdOfStoredRow(ts: seq<Transaction>, k: seq<Transaction>, t: Transaction)
    requires UniqueTransactionIds(ts)
    requires forall i :: 0 <= i < |k| ==> k[i] in ts
    requires t in ts
    ensures t.id in Seqs.Keys(k, TransactionId) <==> t in k
  {
    if t.id in Seqs.Keys(k, TransactionId) {
      Seqs.KeysMember(k, TransactionId, t.id);
      var i :| 0 <= i < |k| && k[i].id == t.id;
      var a :| 0 <= a < |ts| && ts[a] == t;
      var b :| 0 <= b < |ts| && ts[b] == k[i];
      assert a == b;
    }
  }

  /** Deleting the rows of k, all stored, removes exactly the stored rows that are in k. */
  lemma DeletingStoredRows(ts: seq<Transaction>, k: seq<Transaction>, t: Transaction)
    requires UniqueTransactionIds(ts)
    requires forall i :: 0 <= i < |k| ==> k[i] in ts
    ensures t in WithoutTransactions(ts, Seqs.Keys(k, TransactionId)) <==> t in ts && t !in k
  {
    WithoutTransactionsMember(ts, Seqs.Keys(k, TransactionId), t);
    if t in ts {
      IdOfStoredRow(ts, k, t);
    }
  }

  /** Clearing the history deletes all and only this chat's transactions. */
  lemma ClearRemovesExactlyTheChat(ts: seq<Transaction>, chatId: ChatId, t: Transaction)
    requires UniqueTransactionIds(ts)
    ensures t in WithoutTransactions(ts, Seqs.Keys(TransactionsOf(ts, chatId), TransactionId))
        <==> t in ts && t.chatId != chatId
  {
    DeletingStoredRows(ts, TransactionsOf(ts, chatId), t);
    TransactionsOfMember(ts, chatId, t);
  }

  /** Deleting a category removes exactly the chat's transactions in it, ignoring case. */
  lemma SelectionRemovesExactlyTheCategory(ts: seq<Transaction>, chatId: ChatId, selected: string, t: Transaction)
    requires UniqueTransactionIds(ts)
    ensures t in WithoutTransactions(ts, Seqs.Keys(MatchingTransactions(ts, chatId, selected), TransactionId))
        <==> t in ts && !(t.chatId == chatId && EqualsIgnoreCase(t.category, selected))
  {
    DeletingStoredRows(ts, MatchingTransactions(ts, chatId, selected), t);
    MatchingTransactionsMember(ts, chatId, selected, t);
  }

  /** After deleting a listed category it is no longer among the chat's categories. */
  lemma DeletedCategoryIsGone(ts: seq<Transaction>, chatId: ChatId, selected: string)
    requires UniqueTransactionIds(ts)
    requires selected in GetUserCategories(ts, chatId)
    ensures selected !in GetUserCategories(WithoutTransactions(ts, Seqs.Keys(MatchingTransactions(ts, chatId, selected), TransactionId)), chatId)
  {
    var after := WithoutTransactions(ts, Seqs.Keys(MatchingTransactions(ts, chatId, selected), TransactionId));
    var cats := GetUserCategories(ts, chatId);
    assert ToLower(selected) == selected by {
      var k :| 0 <= k < |cats| && cats[k] == selected;
    }
    forall i | 0 <= i < |after| && after[i].chatId == chatId ensures ToLower(after[i].category) != selected {
      SelectionRemovesExactlyTheCategory(ts, chatId, selected, after[i]);
      EqualsIgnoreCaseIffLowerEqual(after[i].category, selected);
    }
    GetUserCategoriesMember(after, chatId, selected);
  }

  /**
   * `clearCommand(chatId, username)`: ensures the user exists; with no
   * transactions the history is already empty, otherwise all of the chat's
   * transactions are deleted and counted.
   */
  method ClearCommand(db: Database, chatId: ChatId, username: Option<string>) returns (o: RemoveOutcome)
    requires db.Valid()
    modifies db
    ensures db.Valid()
    ensures db.users == UsersAfterGetOrCreate(old(db.users), old(db.nextId), chatId, username)
    ensures db.notifications == old(db.notifications)
    ensures var mine := TransactionsOf(old(db.transactions), chatId);
      if mine == [] then o == HistoryAlreadyEmpty && db.transactions == old(db.transactions)
      else o == HistoryCleared(|mine|) && db.transactions == WithoutTransactions(old(db.transactions), Seqs.Keys(mine, TransactionId))
  {
    var user := GetOrCreateUser(db, chatId, username);
    var userTransactions := TransactionsOf(db.transactions, chatId);
    if userTransactions == [] {
      return HistoryAlreadyEmpty;
    }
    db.DeleteTransactions(Seqs.Keys(userTransactions, TransactionId));
    o := HistoryCleared(|userTransactions|);
  }

  /**
   * `deleteCommand(chatId, username)`: lists the chat's categories and sets
   * the awaiting-category flag, unless there are none. Capitalising an
   * empty category throws (`substring(0, 1)`), and the service's catch
   * answers before the flag is set.
   */
  method DeleteCommand(db: Database, userState: UserStateService, chatId: ChatId, username: Option<string>, clock: Clock)
    returns (o: RemoveOutcome)
    requires db.Valid() && userState.Valid()
    modifies db, userState
    ensures db.Valid() && userState.Valid()
    ensures db.users == UsersAfterGetOrCreate(old(db.users), old(db.nextId), chatId, username)
    ensures db.transactions == old(db.transactions) && db.notifications == old(db.notifications)
    ensures var cats := GetUserCategories(old(db.transactions), chatId);
      o == if cats == [] then NoCategories else if "" in cats then RemoveFailed else CategoryList(cats)
    ensures userState.Snapshot() == if !o.CategoryList? then old(userState.Snapshot()) else old(userState.Snapshot()).(
      awaitingCategoryDeletion := old(userState.awaitingCategoryDeletion) + {chatId},
      categoryDeletionExpirations := old(userState.categoryDeletionExpirations)[chatId := clock.epochMillis + DEFAULT_TTL_MS])
  {
    var user := GetOrCreateUser(db, chatId, username);
    var categories := GetUserCategories(db.transactions, chatId);
    if categories == [] {
      return NoCategories;
    }
    if "" in categories {
      return RemoveFailed;
    }
    userState.SetAwaitingCategoryDeletion(Some(chatId), DEFAULT_TTL_MS, clock.epochMillis);
    assert Max0(DEFAULT_TTL_MS) == DEFAULT_TTL_MS;
    o := CategoryList(categories);
  }

  /** The answer of a category selection once the deletion, if any, is done. */
  function SelectionOutcome(selected: string, deleted: nat, remaining: seq<string>): (o: RemoveOutcome)
    ensures o == RemoveFailed <==> selected == "" || "" in remaining
    ensures o != RemoveFailed ==> o == CategoryDeleted(selected, deleted, remaining)
  {
    if selected == "" || "" in remaining then RemoveFailed else CategoryDeleted(selected, deleted, remaining)
  }

  /**
   * The table and the answer of choosing ordinal n from the chat's category
   * list while the wait is on: an ordinal outside 1..|categories| deletes
   * nothing and is refused; a valid one deletes every transaction of the
   * chat whose category equals the chosen one ignoring case.
   */
  function SelectCategory(ts: seq<Transaction>, chatId: ChatId, n: int): (r: (seq<Transaction>, RemoveOutcome))
    ensures var cats := GetUserCategories(ts, chatId);
      if n < 1 || n > |cats| then r == (ts, InvalidCategoryNumber)
      else
        var matching := MatchingTransactions(ts, chatId, cats[n - 1]);
        && r.0 == WithoutTransactions(ts, Seqs.Keys(matching, TransactionId))
        && r.1 == SelectionOutcome(cats[n - 1], |matching|, GetUserCategories(r.0, chatId))
  {
    var cats := GetUserCategories(ts, chatId);
    if n < 1 || n > |cats| then (ts, InvalidCategoryNumber)
    else
      var matching := MatchingTransactions(ts, chatId, cats[n - 1]);
      var after := WithoutTransactions(ts, Seqs.Keys(matching, TransactionId));
      (after, SelectionOutcome(cats[n - 1], |matching|, GetUserCategories(after, chatId)))
  }

  /**
   * `categorySelection(chatId, categoryNumber, username)`. Without the
   * awaiting flag nothing changes. Otherwise the flag is cleared first;
   * an ordinal outside 1..|categories| deletes nothing; a valid one deletes
   * every transaction of the chat whose category equals the chosen one
   * ignoring case. Capitalising an empty category afterwards throws, and the
   * catch answers with the deletion already done.
   */
  method CategorySelection(db: Database, userState: UserStateService, chatId: ChatId, categoryNumber: int, username: Option<string>)
    returns (o: RemoveOutcome)
    requires db.Valid() && userState.Valid()
    modifies db, userState
    ensures db.Valid() && userState.Valid()
    ensures db.notifications == old(db.notifications)
    ensures userState.states == old(userState.states) && userState.stateExpirations == old(userState.stateExpirations)
    ensures userState.awaitingNotificationDeletion == old(userState.awaitingNotificationDeletion)
    ensures userState.notificationDeletionExpirations == old(userState.notificationDeletionExpirations)
    ensures userState.awaitingCategoryDeletion == old(userState.awaitingCategoryDeletion) - {chatId}
    ensures userState.categoryDeletionExpirations == old(userState.categoryDeletionExpirations) - {chatId}
    ensures chatId !in old(userState.awaitingCategoryDeletion) ==>
      o == InvalidCategoryNumber && db.users == old(db.users) && db.transactions == old(db.transactions)
    ensures chatId in old(userState.awaitingCategoryDeletion) ==>
      db.users == UsersAfterGetOrCreate(old(db.users), old(db.nextId), chatId, username)
    ensures chatId in old(userState.awaitingCategoryDeletion) ==>
      (db.transactions, o) == SelectCategory(old(db.transactions), chatId, categoryNumber)
  {
    if !userState.IsAwaitingCategoryDeletion(chatId) {
      return InvalidCategoryNumber;
    }
    userState.ClearAwaitingCategoryDeletion(chatId);
    var user := GetOrCreateUser(db, chatId, username);
    var categories := GetUserCategories(db.transactions, chatId);
    if categoryNumber < 1 || categoryNumber > |categories| {
      return InvalidCategoryNumber;
    }
    var selectedCategory := categories[categoryNumber - 1];
    var transactionsToDelete := MatchingTransactions(db.transactions, chatId, selectedCategory);
    if transactionsToDelete != [] {
      db.DeleteTransactions(Seqs.Keys(transactionsToDelete, TransactionId));
    } else {
      Seqs.FilterAll(db.transactions, (t: Transaction) => t.id !in Seqs.Keys(transactionsToDelete, TransactionId));
    }
    var updatedCategories := GetUserCategories(db.transactions, chatId);
    o := SelectionOutcome(selectedCategory, |transactionsToDelete|, updatedCategories);
  }
}
