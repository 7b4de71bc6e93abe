/**
 The audit log: its store, the two keyset-paginated reads, and what a client that pages through the
 log sees while events are recorded and old ones are purged.
 */
module SystemEvents {
  import opened Keyset
  import opened Search
  import opened Text
  import opened Wrappers

  type Id = nat
  type Time = int

  const DEFAULT_LIST_LIMIT := 20
  const MAX_LIST_LIMIT := 100

  datatype Event = Event(eventType: string, message: string, metadata: map<string, string>, createdAt: Time)

  type Table = map<Id, Event>

  /** A row as the list queries return it. */
  datatype Row = Row(id: Id, event: Event) {
    function Key(): Key {
      Keyset.Key.Key(event.createdAt, id)
    }
  }

  /** Which rows a query asks for: the filtered log, or one user's own auth events. */
  datatype Feed =
    | Audit(eventType: Option<string>, after: Option<Time>, before: Option<Time>)
    | Activity(user: string)

  predicate Wanted(e: Event, feed: Feed) {
    match feed
    case Audit(eventType, after, before) =>
      && (eventType.None? || e.eventType == eventType.value)
      && (after.None? || e.createdAt >= after.value)
      && (before.None? || e.createdAt < before.value)
    case Activity(user) =>
      && IsAuthEvent(e.eventType)
      && "user_id" in e.metadata && e.metadata["user_id"] == user
  }

  /** event_type LIKE 'auth.%'. */
  predicate IsAuthEvent(eventType: string)
    ensures IsAuthEvent(eventType) <==> "auth." <= eventType
  {
    assert "auth." + "%" == "auth.%";
    PlainPrefix("auth.", eventType);
    Like("auth.%", eventType)
  }

  /** The positions of the rows a query asks for. */
  function Keys(events: Table, feed: Feed): set<Key> {
    set id | id in events && Wanted(events[id], feed) :: Key(events[id].createdAt, id)
  }

  lemma KeyOfWanted(events: Table, feed: Feed, id: Id)
    requires id in events && Wanted(events[id], feed)
    ensures Key(events[id].createdAt, id) in Keys(events, feed)
  {
  }

  lemma WantedOfKey(events: Table, feed: Feed, key: Key)
    requires key in Keys(events, feed)
    ensures key.id in events && Wanted(events[key.id], feed) && key.at == events[key.id].createdAt
  {
  }

  /** The rows are table rows at the given positions, in that order. */
  ghost predicate RowsAt(events: Table, rows: seq<Row>, keys: seq<Key>) {
    && |rows| == |keys|
    && forall i :: 0 <= i < |rows| ==>
         rows[i].id in events && rows[i].event == events[rows[i].id] && rows[i].Key() == keys[i]
  }

  lemma OneRowMore(events: Table, rows: seq<Row>, keys: seq<Key>, i: nat)
    requires i < |keys| && RowsAt(events, rows, keys[..i])
    requires keys[i].id in events && events[keys[i].id].createdAt == keys[i].at
    ensures RowsAt(events, rows + [Row(keys[i].id, events[keys[i].id])], keys[..i + 1])
  {
  }

  // ----- The store -----

  class EventStore {
    var events: Table

    constructor ()
      ensures events == map[]
    {
      events := map[];
    }

    method CreateEvent(id: Id, event: Event)
      requires id !in events
      modifies this
      ensures events == old(events)[id := event]
    {
      events := events[id := event];
    }

    /** DELETE FROM system_events WHERE created_at < cutoff. */
    method DeleteEventsBefore(cutoff: Time) returns (deleted: nat)
      modifies this
      ensures events == Purged(old(events), cutoff)
      ensures deleted == |old(events)| - |events|
    {
      var stale := set id | id in events && events[id].createdAt < cutoff;
      assert events.Keys == (events.Keys - stale) + stale;
      assert (events - stale).Keys == events.Keys - stale;
      deleted := |stale|;
      events := events - stale;
      assert events == Purged(old(events), cutoff);
    }

    /** The page query: the wanted rows past the cursor, newest first, at most rowLimit of them. */
    method ListPage(feed: Feed, cursor: Option<Key>, rowLimit: nat) returns (rows: seq<Row>)
      ensures RowsAt(events, rows, Take(Sorted(Past(Keys(events, feed), cursor)), rowLimit))
    {
      var keys := SelectNewest(Past(Keys(events, feed), cursor), rowLimit);
      rows := [];
      for i := 0 to |keys|
        invariant RowsAt(events, rows, keys[..i])
      {
        assert keys[i] in keys;
        WantedOfKey(events, feed, keys[i]);
        OneRowMore(events, rows, keys, i);
        rows := rows + [Row(keys[i].id, events[keys[i].id])];
      }
      assert keys[..|keys|] == keys;
    }
  }

  // ----- The service -----

  datatype Error = InvalidInput

  datatype ListResult = ListResult(events: seq<Row>, limit: int, hasMore: bool) {
    /** The cursor the handler encodes for the next page. */
    function NextCursor(): Option<Key> {
      if hasMore && events != [] then Some(events[|events| - 1].Key()) else None
    }
  }

  function NormalizeLimit(limit: int, provided: bool): (r: Result<int, Error>)
    ensures r.Ok? ==> 1 <= r.value <= MAX_LIST_LIMIT
    ensures r.Err? <==> provided && !(1 <= limit <= MAX_LIST_LIMIT)
  {
    if !provided then Ok(DEFAULT_LIST_LIMIT)
    else if limit < 1 || limit > MAX_LIST_LIMIT then Err(InvalidInput)
    else Ok(limit)
  }

  function NormalizeEventType(value: string): Option<string> {
    var trimmed := TrimSpace(value);
    if trimmed == "" then None else Some(trimmed)
  }

  datatype ListEventsInput = ListEventsInput(
    limit: int, limitProvided: bool, eventType: string, after: Option<Time>, before: Option<Time>, cursor: Option<Key>)
  {
    /** The log the request describes: a blank event type asks for every type. */
    function Feed(): Feed {
      Audit(NormalizeEventType(eventType), after, before)
    }
  }

  /** The result is that page of the feed, whose end is reported truly. */
  ghost predicate IsPage(r: ListResult, events: Table, feed: Feed, cursor: Option<Key>) {
    && 1 <= r.limit <= MAX_LIST_LIMIT && (r.hasMore ==> |r.events| == r.limit)
    && RowsAt(events, r.events, Fetch(Keys(events, feed), cursor, r.limit).items)
    && r.hasMore == Fetch(Keys(events, feed), cursor, r.limit).hasMore
    && (r.NextCursor().Some? <==> r.hasMore)
    && (r.hasMore ==> r.NextCursor() == Some(Key(r.events[r.limit - 1].event.createdAt, r.events[r.limit - 1].id)))
  }

  lemma CutIsPage(events: Table, feed: Feed, cursor: Option<Key>, limit: int, rows: seq<Row>)
    requires 1 <= limit <= MAX_LIST_LIMIT
    requires RowsAt(events, rows, Take(Sorted(Past(Keys(events, feed), cursor)), limit + 1))
    ensures |rows| > limit ==> IsPage(ListResult(rows[..limit], limit, true), events, feed, cursor)
    ensures |rows| <= limit ==> IsPage(ListResult(rows, limit, false), events, feed, cursor)
  {
    FetchSize(Keys(events, feed), cursor, limit);
  }

  /** The event is what the request asks for. */
  ghost predicate Asked(e: Event, input: ListEventsInput) {
    && (TrimSpace(input.eventType) == "" || e.eventType == TrimSpace(input.eventType))
    && (input.after == None || input.after.value <= e.createdAt)
    && (input.before == None || e.createdAt < input.before.value)
  }

  lemma AskedIsWanted(events: Table, input: ListEventsInput)
    ensures Keys(events, input.Feed()) == set id | id in events && Asked(events[id], input) :: Key(events[id].createdAt, id)
  {
  }

  /** An auth event that names the user. */
  ghost predicate IsOf(e: Event, user: string) {
    "auth." <= e.eventType && ("user_id", user) in e.metadata.Items
  }

  lemma OwnIsWanted(events: Table, user: string)
    ensures Keys(events, Activity(user)) == set id | id in events && IsOf(events[id], user) :: Key(events[id].createdAt, id)
  {
  }

  class Service {
    const store: EventStore

    constructor (store: EventStore)
      ensures this.store == store
    {
      this.store := store;
    }

    method ListEvents(input: ListEventsInput) returns (r: Result<ListResult, Error>)
      ensures r.Err? <==>
        || (input.limitProvided && !(1 <= input.limit <= 100))
        || (input.after.Some? && input.before.Some? && input.after.value >= input.before.value)
      ensures r.Ok? ==> IsPage(r.value, store.events, input.Feed(), input.cursor)
      ensures r.Ok? ==>
        var asked := set id | id in store.events && Asked(store.events[id], input) :: Key(store.events[id].createdAt, id);
        RowsAt(store.events, r.value.events, Fetch(asked, input.cursor, r.value.limit).items)
      ensures r.Ok? ==> r.value.limit == if input.limitProvided then input.limit else 20
    {
      var limit := NormalizeLimit(input.limit, input.limitProvided);
      if limit.Err? {
        return Err(limit.error);
      }
      if input.after.Some? && input.before.Some? && !(input.before.value > input.after.value) {
        return Err(InvalidInput);
      }
      var result := Page(input.Feed(), input.cursor, limit.value);
      AskedIsWanted(store.events, input);
      return Ok(result);
    }

    method ListUserActivity(user: string, limit: int, limitProvided: bool, cursor: Option<Key>)
      returns (r: Result<ListResult, Error>)
      ensures r.Err? <==> limitProvided && !(1 <= limit <= 100)
      ensures r.Ok? ==> IsPage(r.value, store.events, Activity(user), cursor)
      ensures r.Ok? ==>
        var own := set id | id in store.events && IsOf(store.events[id], user) :: Key(store.events[id].createdAt, id);
        RowsAt(store.events, r.value.events, Fetch(own, cursor, r.value.limit).items)
      ensures r.Ok? ==> r.value.limit == if limitProvided then limit else 20
    {
      var limit := NormalizeLimit(limit, limitProvided);
      if limit.Err? {
        return Err(limit.error);
      }
      var result := Page(Activity(user), cursor, limit.value);
      OwnIsWanted(store.events, user);
      return Ok(result);
    }

    /** Ask for one row more than the page holds, and cut it off. */
    method Page(feed: Feed, cursor: Option<Key>, limit: int) returns (result: ListResult)
      requires 1 <= limit <= MAX_LIST_LIMIT
      ensures IsPage(result, store.events, feed, cursor) && result.limit == limit
    {
      var rows := store.ListPage(feed, cursor, limit + 1);
      CutIsPage(store.events, feed, cursor, limit, rows);
      result := ListResult(rows, 0, false);
      if |result.events| > limit {
        result := result.(events := result.events[..limit], hasMore := true);
      }
      result := result.(limit := limit);
    }
  }

  lemma KeysOfRecorded(events: Table, id: Id, event: Event, feed: Feed)
    requires id !in events
    ensures Keys(events[id := event], feed) ==
      Keys(events, feed) + if Wanted(event, feed) then {Key(event.createdAt, id)} else {}
  {
    var next := events[id := event];
    var grown := Keys(events, feed) + if Wanted(event, feed) then {Key(event.createdAt, id)} else {};
    forall key ensures key in Keys(next, feed) <==> key in grown {
      if key in Keys(next, feed) {
        WantedOfKey(next, feed, key);
        if key.id != id {
          KeyOfWanted(events, feed, key.id);
        }
      }
      if key in Keys(events, feed) {
        WantedOfKey(events, feed, key);
        KeyOfWanted(next, feed, key.id);
      }
      if Wanted(event, feed) {
        KeyOfWanted(next, feed, id);
      }
    }
  }

  // ----- Paging through a changing log -----

  datatype Change = Record(id: Id, event: Event) | Purge(cutoff: Time)

  function Purged(events: Table, cutoff: Time): Table {
    map id | id in events && events[id].createdAt >= cutoff :: events[id]
  }

  function After(events: Table, change: Change): Table {
    match change
    case Record(id, event) => if id in events then events else events[id := event]
    case Purge(cutoff) => Purged(events, cutoff)
  }

  /** A recorded event changes no feed it does not belong to; in its own it is on the first page exactly
      while fewer events than the page holds are newer. */
  lemma RecordedEventIsListed(events: Table, id: Id, event: Event, feed: Feed, limit: nat)
    requires id !in events && limit > 0
    ensures !Wanted(event, feed) ==> Keys(After(events, Record(id, event)), feed) == Keys(events, feed)
    ensures Wanted(event, feed) ==>
      var key := Key(event.createdAt, id);
      (key in Fetch(Keys(After(events, Record(id, event)), feed), None, limit).items <==> |NewerIn(Keys(events, feed), key)| < limit)
  {
    KeysOfRecorded(events, id, event, feed);
    if Wanted(event, feed) {
      var key := Key(event.createdAt, id);
      OnFirstPageIff(Keys(events, feed) + {key}, key, limit);
      NewerThanItself(Keys(events, feed), key);
    }
  }

  function KeysOf(feed: Feed): Table -> set<Key> {
    events => Keys(events, feed)
  }

  /** The log as each page finds it. */
  function Logs(events: Table, changes: seq<seq<Change>>): (logs: seq<Table>)
    ensures |logs| == |changes| + 1
  {
    Versions<Table, Change>(After, events, changes)
  }

  ghost predicate NeverPurged(event: Event, changes: seq<Change>) {
    forall i :: 0 <= i < |changes| && changes[i].Purge? ==> changes[i].cutoff <= event.createdAt
  }

  lemma {:induction false} SurvivesChanges(events: Table, changes: seq<Change>, id: Id)
    requires id in events && NeverPurged(events[id], changes)
    ensures id in Changed<Table, Change>(After, events, changes) && Changed<Table, Change>(After, events, changes)[id] == events[id]
    decreases |changes|
  {
    if changes != [] {
      SurvivesChanges(After(events, changes[0]), changes[1..], id);
    }
  }

  lemma {:induction false} SurvivesLogs(events: Table, changes: seq<seq<Change>>, id: Id, i: nat)
    requires id in events && i <= |changes|
    requires forall j :: 0 <= j < |changes| ==> NeverPurged(events[id], changes[j])
    ensures id in Logs(events, changes)[i] && Logs(events, changes)[i][id] == events[id]
    decreases i
  {
    if i > 0 {
      SurvivesChanges(events, changes[0], id);
      SurvivesLogs(Changed<Table, Change>(After, events, changes[0]), changes[1..], id, i - 1);
    }
  }

  /** Whatever is recorded and purged while a client pages through a feed, and whatever limit each request
      has, the client sees strictly older and older events, and sees exactly once each event of the feed that was there at the start
      and was not purged meanwhile. */
  lemma ClientSeesEveryLastingEventOnce(events: Table, changes: seq<seq<Change>>, feed: Feed, limits: seq<nat>, id: Id)
    requires LimitsFor(limits, Logs(events, changes)) && id in events
    requires match feed
      case Audit(eventType, after, before) =>
        && (eventType == None || eventType == Some(events[id].eventType))
        && (after == None || after.value <= events[id].createdAt)
        && (before == None || events[id].createdAt < before.value)
      case Activity(user) => "auth." <= events[id].eventType && ("user_id", user) in events[id].metadata.Items
    requires forall j :: 0 <= j < |changes| ==> NeverPurged(events[id], changes[j])
    ensures var pages := Traverse(KeySets(KeysOf(feed), Logs(events, changes)), None, limits);
      && Descending(Items(pages))
      && (Finished(pages) ==> multiset(Items(pages))[Key(events[id].createdAt, id)] == 1)
  {
    var key := Key(events[id].createdAt, id);
    forall i | 0 <= i <= |changes| ensures key in Keys(Logs(events, changes)[i], feed) {
      SurvivesLogs(events, changes, id, i);
      KeyOfWanted(Logs(events, changes)[i], feed, id);
    }
    LastingRowIsListedOnce(KeysOf(feed), Logs(events, changes), limits, key);
  }

  /** Nothing is ever listed that was not stored when its page was read, or that is not what the request
      asks for: in the log, an event of the type and within the times it gives; in a user's activity, an
      auth event of that user. */
  lemma ClientSeesOnlyTheFeed(logs: seq<Table>, feed: Feed, limits: seq<nat>, i: nat, key: Key)
    requires LimitsFor(limits, logs)
    requires i < |Traverse(KeySets(KeysOf(feed), logs), None, limits)|
    requires key in Traverse(KeySets(KeysOf(feed), logs), None, limits)[i].items
    ensures key.id in logs[i] && key.at == logs[i][key.id].createdAt
    ensures var e := logs[i][key.id];
      match feed
      case Audit(eventType, after, before) =>
        && (eventType.Some? ==> e.eventType == eventType.value)
        && (after.Some? ==> after.value <= e.createdAt) && (before.Some? ==> e.createdAt < before.value)
      case Activity(user) => "auth." <= e.eventType && ("user_id", user) in e.metadata.Items
  {
    PagesComeFromTheirTables(KeySets(KeysOf(feed), logs), None, limits, i, key);
    WantedOfKey(logs[i], feed, key);
  }
}
