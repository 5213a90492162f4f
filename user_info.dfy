/**
 * UserInfoService: the get-or-insert of a chat's user and the chat's
 * category list (lower-cased, duplicates dropped, first occurrence first).
 * RemoveService keeps a private copy of the same category stream; both
 * are this `GetUserCategories`.
 */
module UserInfo {
  import opened Base
  import opened Text
  import opened Store

  /** The users table after `getOrCreateUser(chatId, username)`. */
  function UsersAfterGetOrCreate(users: seq<User>, nextId: nat, chatId: ChatId, username: Option<string>): seq<User> {
    if FindUserByChatId(users, chatId).Some? then users else users + [User(nextId, chatId, username)]
  }

  lemma {:induction false} FindAfterAppend(users: seq<User>, v: User, chatId: ChatId)
    ensures FindUserByChatId(users + [v], chatId)
         == if FindUserByChatId(users, chatId).Some? then FindUserByChatId(users, chatId)
            else if v.chatId == chatId then Some(v) else None
  {
    if users == [] {
      assert users + [v] == [v];
    } else {
      assert (users + [v])[0] == users[0] && (users + [v])[1..] == users[1..] + [v];
      FindAfterAppend(users[1..], v, chatId);
    }
  }

  /**
   * The chat has a user afterwards: the stored one when there was one
   * (its username is not updated), otherwise the new row with that chat id
   * and username.
   */
  lemma GetOrCreateFinds(users: seq<User>, nextId: nat, chatId: ChatId, username: Option<string>)
    ensures var after := UsersAfterGetOrCreate(users, nextId, chatId, username);
      FindUserByChatId(after, chatId)
        == if FindUserByChatId(users, chatId).Some? then FindUserByChatId(users, chatId)
           else Some(User(nextId, chatId, username))
  {
    FindAfterAppend(users, User(nextId, chatId, username), chatId);
  }

  /** A second get-or-insert for the same chat changes nothing, whatever its username. */
  lemma GetOrCreateIdempotent(users: seq<User>, n1: nat, n2: nat, chatId: ChatId, name1: Option<string>, name2: Option<string>)
    ensures var once := UsersAfterGetOrCreate(users, n1, chatId, name1);
      UsersAfterGetOrCreate(once, n2, chatId, name2) == once
  {
    GetOrCreateFinds(users, n1, chatId, name1);
  }

  /** Get-or-insert keeps chat ids unique, so a chat never gets a second user. */
  lemma GetOrCreateKeepsUnique(users: seq<User>, nextId: nat, chatId: ChatId, username: Option<string>)
    requires UniqueChatIds(users)
    ensures UniqueChatIds(UsersAfterGetOrCreate(users, nextId, chatId, username))
  {
  }

  /**
   * `getOrCreateUser(chatId, username)`: returns the chat's stored user, or
   * saves and returns a new one.
   */
  method GetOrCreateUser(db: Database, chatId: ChatId, username: Option<string>) returns (u: User)
    requires db.Valid()
    modifies db
    ensures db.Valid()
    ensures db.users == UsersAfterGetOrCreate(old(db.users), old(db.nextId), chatId, username)
    ensures FindUserByChatId(db.users, chatId) == Some(u)
    ensures db.transactions == old(db.transactions) && db.notifications == old(db.notifications)
    ensures db.nextId >= old(db.nextId)
  {
    var existing := FindUserByChatId(db.users, chatId);
    if existing.Some? {
      return existing.value;
    }
    u := db.SaveUser(chatId, username);
    FindAfterAppend(old(db.users), u, chatId);
  }

  /** The categories of ts, lower-cased, in order. */
  function LowerCategories(ts: seq<Transaction>): (r: seq<string>)
    ensures |r| == |ts|
    ensures forall i :: 0 <= i < |ts| ==> r[i] == ToLower(ts[i].category)
  {
    seq(|ts|, i requires 0 <= i < |ts| => ToLower(ts[i].category))
  }

  /**
   * `getUserCategories(chatId)`: the categories of the chat's transactions,
   * lower-cased, each once, ordered by where each first occurs.
   */
  function GetUserCategories(ts: seq<Transaction>, chatId: ChatId): (r: seq<string>)
    ensures NoDuplicates(r)
    ensures forall i :: 0 <= i < |r| ==> ToLower(r[i]) == r[i]
    ensures var all := LowerCategories(TransactionsOf(ts, chatId));
      forall i, j :: 0 <= i < j < |r| ==> r[i] in all && r[j] in all && FirstIndex(all, r[i]) < FirstIndex(all, r[j])
  {
    var all := LowerCategories(TransactionsOf(ts, chatId));
    var r := Distinct(all);
    forall i | 0 <= i < |r| ensures ToLower(r[i]) == r[i] {
      var k :| 0 <= k < |all| && all[k] == r[i];
      ToLowerIdempotent(TransactionsOf(ts, chatId)[k].category);
    }
    r
  }

  /** A string is listed exactly when it is the lower-cased category of one of the chat's transactions. */
  lemma GetUserCategoriesMember(ts: seq<Transaction>, chatId: ChatId, c: string)
    ensures c in GetUserCategories(ts, chatId)
        <==> exists i :: 0 <= i < |ts| && ts[i].chatId == chatId && ToLower(ts[i].category) == c
  {
    var mine := TransactionsOf(ts, chatId);
    var all := LowerCategories(mine);
    var r := GetUserCategories(ts, chatId);
    assert c in r <==> c in all;
    if c in all {
      var k :| 0 <= k < |all| && all[k] == c;
      TransactionsOfMember(ts, chatId, mine[k]);
      var i :| 0 <= i < |ts| && ts[i] == mine[k];
      assert ts[i].chatId == chatId && ToLower(ts[i].category) == c;
    }
    if exists i :: 0 <= i < |ts| && ts[i].chatId == chatId && ToLower(ts[i].category) == c {
      var i :| 0 <= i < |ts| && ts[i].chatId == chatId && ToLower(ts[i].category) == c;
      TransactionsOfMember(ts, chatId, ts[i]);
      var k :| 0 <= k < |mine| && mine[k] == ts[i];
      assert all[k] == c;
    }
  }
}
