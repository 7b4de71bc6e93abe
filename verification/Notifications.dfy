/**
 Per-user notifications: the keyset-paginated feed, optionally of unread rows only, the mark-read
 statements and the unread count, and what a client sees paging through them.
 */
module Notifications {
  import opened Keyset
  import opened Text
  import opened Wrappers

  type Id = nat
  type User = nat
  type Time = int

  /** uuid.Nil, which no user or notification has. */
  const NIL: nat := 0
  const DEFAULT_LIST_LIMIT := 20
  const MAX_LIST_LIMIT := 100

  datatype Notification = Notification(
    user: User, kind: string, title: string, body: string, metadata: map<string, string>,
    readAt: Option<Time>, createdAt: Time)

  type Table = map<Id, Notification>

  predicate Wanted(n: Notification, user: User, unreadOnly: bool) {
    n.user == user && (!unreadOnly || n.readAt.None?)
  }

  function Keys(rows: Table, user: User, unreadOnly: bool): set<Key> {
    set id | id in rows && Wanted(rows[id], user, unreadOnly) :: Key(rows[id].createdAt, id)
  }

  /** The ids of the user's unread notifications. */
  function Unread(rows: Table, user: User): set<Id> {
    set id | id in rows && Wanted(rows[id], user, true)
  }

  // ----- The statements -----

  function MarkedRead(rows: Table, user: User, id: Id, now: Time): Table {
    if id in Unread(rows, user) then rows[id := rows[id].(readAt := Some(now))] else rows
  }

  function MarkedAllRead(rows: Table, user: User, now: Time): Table {
    map id | id in rows :: if id in Unread(rows, user) then rows[id].(readAt := Some(now)) else rows[id]
  }

  /** The statements change nobody else's rows, no order and no read row. */
  lemma MarkingOnlyMarks(rows: Table, user: User, id: Id, now: Time, other: Id)
    requires other in rows
    ensures forall next :: next in {MarkedRead(rows, user, id, now), MarkedAllRead(rows, user, now)} ==>
      && next.Keys == rows.Keys
      && next[other] == rows[other].(readAt := next[other].readAt)
      && (rows[other].user != user || rows[other].readAt.Some? ==> next[other] == rows[other])
  {
    assert MarkedRead(rows, user, id, now).Keys == rows.Keys;
  }

  /** Each statement takes exactly the rows it marks out of the user's unread ones. */
  lemma MarkingEmptiesUnread(rows: Table, user: User, id: Id, now: Time, other: User)
    ensures Unread(MarkedRead(rows, user, id, now), other) == Unread(rows, other) - if other == user then {id} else {}
    ensures Unread(MarkedAllRead(rows, user, now), other) == if other == user then {} else Unread(rows, other)
  {
  }

  /** The rows are table rows at the given positions, in that order. */
  ghost predicate RowsAt(rows: Table, listed: seq<(Id, Notification)>, keys: seq<Key>) {
    && |listed| == |keys|
    && forall i :: 0 <= i < |listed| ==>
         && listed[i].0 in rows && listed[i].1 == rows[listed[i].0]
         && Key(listed[i].1.createdAt, listed[i].0) == keys[i]
  }

  lemma OneRowMore(rows: Table, listed: seq<(Id, Notification)>, keys: seq<Key>, i: nat)
    requires i < |keys| && RowsAt(rows, listed, keys[..i])
    requires keys[i].id in rows && rows[keys[i].id].createdAt == keys[i].at
    ensures RowsAt(rows, listed + [(keys[i].id, rows[keys[i].id])], keys[..i + 1])
  {
  }

  class NotificationStore {
    var rows: Table

    constructor ()
      ensures rows == map[]
    {
      rows := map[];
    }

    method Create(id: Id, notification: Notification)
      requires id !in rows && notification.readAt.None?
      modifies this
      ensures rows == old(rows)[id := notification]
    {
      rows := rows[id := notification];
    }

    method CountUnread(user: User) returns (count: nat)
      ensures count == |Unread(rows, user)|
    {
      count := |Unread(rows, user)|;
    }

    method MarkRead(user: User, id: Id, now: Time) returns (affected: nat)
      modifies this
      ensures rows == MarkedRead(old(rows), user, id, now)
      ensures affected == if id in Unread(old(rows), user) then 1 else 0
    {
      affected := 0;
      if id in rows && rows[id].user == user && rows[id].readAt.None? {
        rows := rows[id := rows[id].(readAt := Some(now))];
        affected := 1;
      }
    }

    method MarkAllRead(user: User, now: Time) returns (affected: nat)
      modifies this
      ensures rows == MarkedAllRead(old(rows), user, now)
      ensures affected == |Unread(old(rows), user)|
    {
      var unread := Unread(rows, user);
      affected := |unread|;
      rows := map id | id in rows :: if id in unread then rows[id].(readAt := Some(now)) else rows[id];
    }

    method ListNotifications(user: User, unreadOnly: bool, cursor: Option<Key>, rowLimit: nat)
      returns (listed: seq<(Id, Notification)>)
      ensures RowsAt(rows, listed, Take(Sorted(Past(Keys(rows, user, unreadOnly), cursor)), rowLimit))
    {
      var keys := SelectNewest(Past(Keys(rows, user, unreadOnly), cursor), rowLimit);
      listed := [];
      for i := 0 to |keys|
        invariant RowsAt(rows, listed, keys[..i])
      {
        assert keys[i] in keys;
        OneRowMore(rows, listed, keys, i);
        listed := listed + [(keys[i].id, rows[keys[i].id])];
      }
      assert keys[..|keys|] == keys;
    }
  }

  // ----- The service -----

  datatype Error = InvalidInput

  datatype ListResult = ListResult(notifications: seq<(Id, Notification)>, limit: int, hasMore: bool, unreadCount: nat)

  predicate LimitOk(limit: int, provided: bool) {
    provided ==> 1 <= limit <= MAX_LIST_LIMIT
  }

  lemma UnreadIs(rows: Table, user: User)
    ensures Unread(rows, user) == set id | id in rows && rows[id].user == user && rows[id].readAt == None
  {
  }

  lemma ListedAreOwn(rows: Table, user: User, unreadOnly: bool, cursor: Option<Key>, limit: nat, listed: seq<(Id, Notification)>)
    requires limit > 0 && RowsAt(rows, listed, Fetch(Keys(rows, user, unreadOnly), cursor, limit).items)
    ensures forall row :: row in listed ==> row.1.user == user && (unreadOnly ==> row.1.readAt == None)
  {
    FetchTakesTheNewest(Keys(rows, user, unreadOnly), cursor, limit);
    var keys := Fetch(Keys(rows, user, unreadOnly), cursor, limit).items;
    forall i | 0 <= i < |listed| ensures Wanted(listed[i].1, user, unreadOnly) {
      assert keys[i] in keys;
    }
  }

  class Service {
    const store: NotificationStore

    constructor (store: NotificationStore)
      ensures this.store == store
    {
      this.store := store;
    }

    method List(user: User, limit: int, limitProvided: bool, unreadOnly: bool, cursor: Option<Key>)
      returns (r: Result<ListResult, Error>)
      ensures r.Err? <==> user == NIL || (limitProvided && !(1 <= limit <= 100))
      ensures r.Ok? ==> r.value.limit == if limitProvided then limit else 20
      ensures r.Ok? ==>
        var page := Fetch(Keys(store.rows, user, unreadOnly), cursor, r.value.limit);
        && RowsAt(store.rows, r.value.notifications, page.items)
        && r.value.hasMore == page.hasMore
        && r.value.unreadCount == |Unread(store.rows, user)|
      ensures r.Ok? ==> forall row :: row in r.value.notifications ==>
        row.1.user == user && (unreadOnly ==> row.1.readAt == None)
      ensures r.Ok? ==>
        r.value.unreadCount == |set id | id in store.rows && store.rows[id].user == user && store.rows[id].readAt == None|
    {
      UnreadIs(store.rows, user);
      if user == NIL {
        return Err(InvalidInput);
      }
      var limit := NormalizeLimit(limit, limitProvided);
      if limit.Err? {
        return Err(limit.error);
      }
      var rows := store.ListNotifications(user, unreadOnly, cursor, limit.value + 1);
      var result := ListResult(rows, 0, false, 0);
      if |result.notifications| > limit.value {
        result := result.(notifications := result.notifications[..limit.value], hasMore := true);
      }
      result := result.(limit := limit.value);
      ListedAreOwn(store.rows, user, unreadOnly, cursor, limit.value, result.notifications);
      var unread := store.CountUnread(user);
      return Ok(result.(unreadCount := unread));
    }

    static method NormalizeLimit(limit: int, provided: bool) returns (r: Result<int, Error>)
      ensures r == if !LimitOk(limit, provided) then Err(InvalidInput)
                   else Ok(if provided then limit else DEFAULT_LIST_LIMIT)
    {
      if !provided {
        return Ok(DEFAULT_LIST_LIMIT);
      }
      if limit < 1 || limit > MAX_LIST_LIMIT {
        return Err(InvalidInput);
      }
      return Ok(limit);
    }

    /** Idempotent: a missing, foreign or already read notification changes nothing and is no error. */
    method MarkRead(user: User, id: Id, now: Time) returns (r: Result<nat, Error>)
      modifies store
      ensures r.Err? <==> user == NIL || id == NIL
      ensures r.Err? ==> store.rows == old(store.rows)
      ensures r.Ok? ==> store.rows == MarkedRead(old(store.rows), user, id, now)
      ensures r.Ok? ==>
        if id in old(store.rows) && old(store.rows)[id].user == user && old(store.rows)[id].readAt == None
        then store.rows == old(store.rows)[id := old(store.rows)[id].(readAt := Some(now))]
        else store.rows == old(store.rows)
      ensures r.Ok? ==> r.value == |Unread(old(store.rows), user) - {id}|
    {
      if user == NIL || id == NIL {
        return Err(InvalidInput);
      }
      MarkingEmptiesUnread(store.rows, user, id, now, user);
      var _ := store.MarkRead(user, id, now);
      var unread := store.CountUnread(user);
      return Ok(unread);
    }

    method MarkAllRead(user: User, now: Time) returns (r: Result<nat, Error>)
      modifies store
      ensures r.Err? <==> user == NIL
      ensures r.Err? ==> store.rows == old(store.rows)
      ensures r.Ok? ==> r.value == 0 && store.rows == MarkedAllRead(old(store.rows), user, now)
      ensures r.Ok? ==> store.rows.Keys == old(store.rows).Keys && forall id :: id in store.rows ==>
        store.rows[id] ==
          if old(store.rows)[id].user == user && old(store.rows)[id].readAt == None
          then old(store.rows)[id].(readAt := Some(now)) else old(store.rows)[id]
    {
      if user == NIL {
        return Err(InvalidInput);
      }
      MarkingEmptiesUnread(store.rows, user, NIL, now, user);
      var _ := store.MarkAllRead(user, now);
      var unread := store.CountUnread(user);
      return Ok(unread);
    }

    /** A new notification is unread. The id and the clock are the store adapter's. */
    method Create(id: Id, user: User, kind: string, title: string, body: string, metadata: map<string, string>, now: Time)
      returns (r: Result<Notification, Error>)
      requires id !in store.rows
      modifies store
      ensures r.Err? <==> user == NIL || TrimSpace(kind) == "" || TrimSpace(title) == ""
      ensures r.Err? ==> store.rows == old(store.rows)
      ensures r.Ok? ==> r.value == Notification(user, kind, title, body, metadata, None, now)
      ensures r.Ok? ==> store.rows == old(store.rows)[id := r.value]
    {
      if user == NIL {
        return Err(InvalidInput);
      }
      if TrimSpace(kind) == "" || TrimSpace(title) == "" {
        return Err(InvalidInput);
      }
      var notification := Notification(user, kind, title, body, metadata, None, now);
      store.Create(id, notification);
      return Ok(notification);
    }
  }

  // ----- Paging through a changing feed -----

  datatype Change =
    | Arrive(id: Id, notification: Notification)
    | Read(user: User, id: Id, now: Time)
    | ReadAll(user: User, now: Time)

  function After(rows: Table, change: Change): Table {
    match change
    case Arrive(id, n) => if id in rows then rows else rows[id := n]
    case Read(user, id, now) => MarkedRead(rows, user, id, now)
    case ReadAll(user, now) => MarkedAllRead(rows, user, now)
  }

  /** A notification that arrives is in its user's feeds and in nobody else's; it is on the first page
      exactly while fewer than the page holds are newer. */
  lemma ArrivalIsListed(rows: Table, id: Id, n: Notification, user: User, unreadOnly: bool, limit: nat)
    requires id !in rows && n.readAt == None && limit > 0
    ensures user != n.user ==> Keys(After(rows, Arrive(id, n)), user, unreadOnly) == Keys(rows, user, unreadOnly)
    ensures user == n.user ==>
      var key := Key(n.createdAt, id);
      (key in Fetch(Keys(After(rows, Arrive(id, n)), user, unreadOnly), None, limit).items <==>
        |NewerIn(Keys(rows, user, unreadOnly), key)| < limit)
  {
    var next, key := After(rows, Arrive(id, n)), Key(n.createdAt, id);
    KeysOfArrived(rows, id, n, user, unreadOnly);
    if user == n.user {
      OnFirstPageIff(Keys(next, user, unreadOnly), key, limit);
      NewerThanItself(Keys(rows, user, unreadOnly), key);
    }
  }

  lemma KeysOfArrived(rows: Table, id: Id, n: Notification, user: User, unreadOnly: bool)
    requires id !in rows && n.readAt == None
    ensures Keys(After(rows, Arrive(id, n)), user, unreadOnly) ==
      Keys(rows, user, unreadOnly) + if user == n.user then {Key(n.createdAt, id)} else {}
  {
    var next := rows[id := n];
    forall key ensures key in Keys(next, user, unreadOnly) <==>
      key in Keys(rows, user, unreadOnly) || (user == n.user && key == Key(n.createdAt, id))
    {
      if key in Keys(rows, user, unreadOnly) {
        assert key.id in next && Wanted(next[key.id], user, unreadOnly);
      }
      if user == n.user && key == Key(n.createdAt, id) {
        assert key.id in next && Wanted(next[key.id], user, unreadOnly) && next[key.id].createdAt == key.at;
      }
    }
  }

  function KeysOf(user: User, unreadOnly: bool): Table -> set<Key> {
    rows => Keys(rows, user, unreadOnly)
  }

  /** None of the changes marks the notification read. */
  ghost predicate NeverRead(user: User, id: Id, changes: seq<Change>) {
    forall i :: 0 <= i < |changes| ==>
      && !(changes[i].Read? && changes[i].user == user && changes[i].id == id)
      && !(changes[i].ReadAll? && changes[i].user == user)
  }

  predicate SameIdentity(a: Notification, b: Notification) {
    a.user == b.user && a.createdAt == b.createdAt
  }

  lemma {:induction false} StaysWanted(rows: Table, changes: seq<Change>, user: User, unreadOnly: bool, id: Id)
    requires id in rows && Wanted(rows[id], user, unreadOnly)
    requires unreadOnly ==> NeverRead(user, id, changes)
    ensures var next := Changed<Table, Change>(After, rows, changes);
      id in next && SameIdentity(next[id], rows[id]) && Wanted(next[id], user, unreadOnly)
    decreases |changes|
  {
    if changes != [] {
      StaysWanted(After(rows, changes[0]), changes[1..], user, unreadOnly, id);
    }
  }

  lemma {:induction false} StaysInEveryTable(
      rows: Table, changes: seq<seq<Change>>, user: User, unreadOnly: bool, id: Id, i: nat)
    requires id in rows && Wanted(rows[id], user, unreadOnly) && i <= |changes|
    requires unreadOnly ==> forall j :: 0 <= j < |changes| ==> NeverRead(user, id, changes[j])
    ensures Key(rows[id].createdAt, id) in Keys(Versions<Table, Change>(After, rows, changes)[i], user, unreadOnly)
    decreases i
  {
    if i > 0 {
      StaysWanted(rows, changes[0], user, unreadOnly, id);
      StaysInEveryTable(Changed<Table, Change>(After, rows, changes[0]), changes[1..], user, unreadOnly, id, i - 1);
    }
  }

  /** Whatever arrives and is marked read while a client pages through a user's feed, the client sees
      older and older notifications and sees exactly once each that was there at the start: all of
      them in the full feed, those not marked read meanwhile in the unread feed. */
  lemma ClientSeesEachNotificationOnce(
      rows: Table, changes: seq<seq<Change>>, user: User, unreadOnly: bool, limits: seq<nat>, id: Id)
    requires LimitsFor(limits, Versions<Table, Change>(After, rows, changes)) && id in rows
    requires rows[id].user == user && (unreadOnly ==> rows[id].readAt == None)
    requires unreadOnly ==> forall j :: 0 <= j < |changes| ==> NeverRead(user, id, changes[j])
    ensures var pages := Traverse(KeySets(KeysOf(user, unreadOnly), Versions<Table, Change>(After, rows, changes)), None, limits);
      && Descending(Items(pages))
      && (Finished(pages) ==> multiset(Items(pages))[Key(rows[id].createdAt, id)] == 1)
  {
    var key := Key(rows[id].createdAt, id);
    forall i | 0 <= i <= |changes| ensures key in Keys(Versions<Table, Change>(After, rows, changes)[i], user, unreadOnly) {
      StaysInEveryTable(rows, changes, user, unreadOnly, id, i);
    }
    LastingRowIsListedOnce(KeysOf(user, unreadOnly), Versions<Table, Change>(After, rows, changes), limits, key);
  }

  /** Each page lists only the user's own notifications, and in the unread feed only those unread when it was
      read. */
  lemma ClientSeesOnlyTheirOwn(tables: seq<Table>, user: User, unreadOnly: bool, limits: seq<nat>, i: nat, key: Key)
    requires LimitsFor(limits, tables)
    requires i < |Traverse(KeySets(KeysOf(user, unreadOnly), tables), None, limits)|
    requires key in Traverse(KeySets(KeysOf(user, unreadOnly), tables), None, limits)[i].items
    ensures key.id in tables[i] && tables[i][key.id].createdAt == key.at
    ensures tables[i][key.id].user == user && (unreadOnly ==> tables[i][key.id].readAt == None)
  {
    PagesComeFromTheirTables(KeySets(KeysOf(user, unreadOnly), tables), None, limits, i, key);
  }
}
