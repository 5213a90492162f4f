/**
 * The relational store as in-memory tables: the `User`, `Transaction` and
 * `Notification` entities, the derived queries of UserRepository and
 * TransactionRepository, and the `save`/`delete` calls the services make.
 * Ids come from one counter, as an IDENTITY column would hand them out.
 */
module Store {
  import opened Base
  import opened LocalTimes
  import Seqs

  /** `User`: the chat id is unique (`@Column(unique = true)`); the username may be null. */
  datatype User = User(id: nat, chatId: ChatId, username: Option<string>)

  /** `TransactionType`: an expense or an income. */
  datatype TransactionType = Expense | Income

  /** `Transaction`, without its amount and date: owner, category and type. */
  datatype Transaction = Transaction(id: nat, chatId: ChatId, category: string, kind: TransactionType)

  /**
   * `Notification`: the owner is stored as the chat id of its user, the
   * time of day as a LocalTime, `createdAt` as an instant on the store's clock.
   */
  datatype Notification = Notification(id: nat, chatId: ChatId, notificationTime: LocalTime, message: string, createdAt: int)

  predicate UniqueChatIds(users: seq<User>) {
    forall i, j :: 0 <= i < j < |users| ==> users[i].chatId != users[j].chatId
  }

  /** The primary keys of the two tables. */
  function TransactionId(t: Transaction): nat { t.id }

  function NotificationId(n: Notification): nat { n.id }

  predicate UniqueTransactionIds(ts: seq<Transaction>) {
    Seqs.UniqueKeys(ts, TransactionId)
  }

  predicate UniqueNotificationIds(ns: seq<Notification>) {
    Seqs.UniqueKeys(ns, NotificationId)
  }

  /** `userRepository.findByChatId(chatId)`. */
  function FindUserByChatId(users: seq<User>, chatId: ChatId): (r: Option<User>)
    ensures r.Some? ==> r.value in users && r.value.chatId == chatId
    ensures r.None? ==> forall i :: 0 <= i < |users| ==> users[i].chatId != chatId
  {
    if users == [] then None
    else if users[0].chatId == chatId then Some(users[0])
    else FindUserByChatId(users[1..], chatId)
  }

  /** `transactionRepository.findByUserChatId(chatId)`, in table order. */
  function TransactionsOf(ts: seq<Transaction>, chatId: ChatId): (r: seq<Transaction>)
    ensures forall i :: 0 <= i < |r| ==> r[i].chatId == chatId && r[i] in ts
  {
    Seqs.Filter(ts, (t: Transaction) => t.chatId == chatId)
  }

  lemma TransactionsOfMember(ts: seq<Transaction>, chatId: ChatId, t: Transaction)
    ensures t in TransactionsOf(ts, chatId) <==> t in ts && t.chatId == chatId
  {
    Seqs.FilterMember(ts, (t: Transaction) => t.chatId == chatId, t);
  }

  /** The table without the rows whose id is in ids (`deleteAll`). */
  function WithoutTransactions(ts: seq<Transaction>, ids: set<nat>): (r: seq<Transaction>)
    ensures forall i :: 0 <= i < |r| ==> r[i].id !in ids && r[i] in ts
  {
    Seqs.Filter(ts, (t: Transaction) => t.id !in ids)
  }

  lemma WithoutTransactionsMember(ts: seq<Transaction>, ids: set<nat>, t: Transaction)
    ensures t in WithoutTransactions(ts, ids) <==> t in ts && t.id !in ids
  {
    Seqs.FilterMember(ts, (t: Transaction) => t.id !in ids, t);
  }

  /** The table without the rows whose id is in ids (`delete`, `deleteAll`). */
  function WithoutNotifications(ns: seq<Notification>, ids: set<nat>): (r: seq<Notification>)
    ensures forall i :: 0 <= i < |r| ==> r[i].id !in ids && r[i] in ns
  {
    Seqs.Filter(ns, (n: Notification) => n.id !in ids)
  }

  lemma WithoutNotificationsMember(ns: seq<Notification>, ids: set<nat>, n: Notification)
    ensures n in WithoutNotifications(ns, ids) <==> n in ns && n.id !in ids
  {
    Seqs.FilterMember(ns, (n: Notification) => n.id !in ids, n);
  }

  lemma WithoutNotificationsCount(ns: seq<Notification>, ids: set<nat>, x: Notification)
    ensures multiset(WithoutNotifications(ns, ids))[x] == if x.id in ids then 0 else multiset(ns)[x]
  {
    Seqs.FilterCount(ns, (n: Notification) => n.id !in ids, x);
  }

  lemma {:induction false} WithoutNoNotifications(ns: seq<Notification>)
    ensures WithoutNotifications(ns, {}) == ns
  {
    if ns != [] {
      WithoutNoNotifications(ns[1..]);
    }
  }

  /** Deleting by one id set and then by another is deleting by their union. */
  lemma WithoutNotificationsTwice(ns: seq<Notification>, a: set<nat>, b: set<nat>)
    ensures WithoutNotifications(WithoutNotifications(ns, a), b) == WithoutNotifications(ns, a + b)
  {
    Seqs.FilterFilter(ns, (n: Notification) => n.id !in a, (n: Notification) => n.id !in b, (n: Notification) => n.id !in a + b);
  }

  /** With unique ids, deleting a stored row removes that one row and keeps every other. */
  lemma WithoutNotificationsRemovesOne(ns: seq<Notification>, n: Notification)
    requires UniqueNotificationIds(ns) && n in ns
    ensures multiset(WithoutNotifications(ns, {n.id})) == multiset(ns) - multiset{n}
  {
    var r := WithoutNotifications(ns, {n.id});
    forall x ensures multiset(r)[x] == (multiset(ns) - multiset{n})[x] {
      WithoutNotificationsCount(ns, {n.id}, x);
      if x.id == n.id && x in ns {
        var i :| 0 <= i < |ns| && ns[i] == x;
        var j :| 0 <= j < |ns| && ns[j] == n;
        assert i == j;
        UniqueCountOne(ns, i);
      }
    }
  }

  /** In a table with unique ids every row occurs once. */
  lemma {:induction false} UniqueCountOne(ns: seq<Notification>, i: int)
    requires UniqueNotificationIds(ns) && 0 <= i < |ns|
    ensures multiset(ns)[ns[i]] == 1
  {
    if i == 0 {
      assert ns == [ns[0]] + ns[1..];
      forall k | 0 <= k < |ns[1..]| ensures ns[1..][k] != ns[0] {
        assert ns[1..][k] == ns[k + 1];
      }
    } else {
      assert ns == [ns[0]] + ns[1..];
      UniqueCountOne(ns[1..], i - 1);
      assert ns[1..][i - 1] == ns[i];
      assert ns[0] != ns[i];
    }
  }

  class Database {
    var users: seq<User>
    var transactions: seq<Transaction>
    var notifications: seq<Notification>
    /** The next id an insert hands out. */
    var nextId: nat

    ghost predicate Valid()
      reads this
    {
      && UniqueChatIds(users)
      && UniqueTransactionIds(transactions)
      && UniqueNotificationIds(notifications)
      && (forall i :: 0 <= i < |users| ==> users[i].id < nextId)
      && (forall i :: 0 <= i < |transactions| ==> transactions[i].id < nextId)
      && (forall i :: 0 <= i < |notifications| ==> notifications[i].id < nextId)
    }

    constructor ()
      ensures Valid()
      ensures users == [] && transactions == [] && notifications == []
    {
      users, transactions, notifications, nextId := [], [], [], 0;
    }

    /** `userRepository.save(new User(chatId, username))` for a chat without a user. */
    method SaveUser(chatId: ChatId, username: Option<string>) returns (u: User)
      requires Valid()
      requires FindUserByChatId(users, chatId).None?
      modifies this
      ensures Valid()
      ensures u == User(old(nextId), chatId, username)
      ensures users == old(users) + [u]
      ensures transactions == old(transactions) && notifications == old(notifications)
      ensures nextId > old(nextId)
    {
      u := User(nextId, chatId, username);
      users := users + [u];
      nextId := nextId + 1;
    }

    /** `notificationRepository.save(new Notification(time, message, user))`. */
    method SaveNotification(chatId: ChatId, time: LocalTime, message: string, createdAt: int) returns (n: Notification)
      requires Valid()
      modifies this
      ensures Valid()
      ensures n == Notification(old(nextId), chatId, time, message, createdAt)
      ensures notifications == old(notifications) + [n]
      ensures users == old(users) && transactions == old(transactions)
      ensures nextId > old(nextId)
    {
      n := Notification(nextId, chatId, time, message, createdAt);
      notifications := notifications + [n];
      nextId := nextId + 1;
    }

    /** `transactionRepository.save(new Transaction(amount, category, type, user))`; the amount is not kept. */
    method SaveTransaction(chatId: ChatId, category: string, kind: TransactionType) returns (t: Transaction)
      requires Valid()
      modifies this
      ensures Valid()
      ensures t == Transaction(old(nextId), chatId, category, kind)
      ensures transactions == old(transactions) + [t]
      ensures users == old(users) && notifications == old(notifications)
      ensures nextId > old(nextId)
    {
      t := Transaction(nextId, chatId, category, kind);
      transactions := transactions + [t];
      nextId := nextId + 1;
    }

    /** `notificationRepository.delete(n)`: removes the row with n's id. */
    method DeleteNotification(n: Notification)
      requires Valid()
      modifies this
      ensures Valid()
      ensures notifications == WithoutNotifications(old(notifications), {n.id})
      ensures users == old(users) && transactions == old(transactions) && nextId == old(nextId)
    {
      var ids := {n.id};
      notifications := WithoutNotifications(notifications, ids);
      Seqs.FilterKeepsUniqueKeys(old(notifications), NotificationId, (n: Notification) => n.id !in ids);
    }

    /** `transactionRepository.deleteAll(ts)`: removes the rows with those ids. */
    method DeleteTransactions(ids: set<nat>)
      requires Valid()
      modifies this
      ensures Valid()
      ensures transactions == WithoutTransactions(old(transactions), ids)
      ensures users == old(users) && notifications == old(notifications) && nextId == old(nextId)
    {
      transactions := WithoutTransactions(transactions, ids);
      Seqs.FilterKeepsUniqueKeys(old(transactions), TransactionId, (t: Transaction) => t.id !in ids);
    }
  }
}
