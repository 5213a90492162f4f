/**
 * AddService's effect on the tables when a dialog hands it a parsed entry:
 * the user is fetched or created, and one transaction with the lower-cased
 * category is saved. The amount and the reply text are not modelled.
 */
module Add {
  import opened Base
  import opened Text
  import opened Store
  import opened UserInfo

  /**
   * `addExpense(chatId, category, amount, username)` and `addIncome(...)`:
   * get-or-create the user, then save one transaction of the given type
   * whose category is the lower-cased category.
   */
  method AddTransaction(db: Database, chatId: ChatId, category: string, kind: TransactionType, username: Option<string>)
    returns (t: Transaction)
    requires db.Valid()
    modifies db
    ensures db.Valid()
    ensures db.users == UsersAfterGetOrCreate(old(db.users), old(db.nextId), chatId, username)
    ensures t.chatId == chatId && t.category == ToLower(category) && t.kind == kind
    ensures db.transactions == old(db.transactions) + [t]
    ensures db.notifications == old(db.notifications)
  {
    var user := GetOrCreateUser(db, chatId, username);
    t := db.SaveTransaction(chatId, ToLower(category), kind);
  }

  /** After an entry is added, its lower-cased category is among the chat's categories. */
  lemma AddedCategoryIsListed(ts: seq<Transaction>, t: Transaction, category: string)
    requires t.category == ToLower(category)
    ensures ToLower(category) in GetUserCategories(ts + [t], t.chatId)
  {
    ToLowerIdempotent(category);
    assert (ts + [t])[|ts|] == t;
    GetUserCategoriesMember(ts + [t], t.chatId, ToLower(category));
  }

  /** Adding an entry leaves every category that was listed before in the list. */
  lemma AddKeepsListedCategories(ts: seq<Transaction>, t: Transaction, chatId: ChatId, c: string)
    requires c in GetUserCategories(ts, chatId)
    ensures c in GetUserCategories(ts + [t], chatId)
  {
    GetUserCategoriesMember(ts, chatId, c);
    var i :| 0 <= i < |ts| && ts[i].chatId == chatId && ToLower(ts[i].category) == c;
    assert (ts + [t])[i] == ts[i];
    GetUserCategoriesMember(ts + [t], chatId, c);
  }
}
