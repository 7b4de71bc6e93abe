/**
 Projects: the paginated, searchable list of the projects a user can see, and the access lookup that
 the single-project operations use.
 */
module Projects {
  import opened Keyset
  import opened Pagination
  import opened Search
  import opened Text
  import opened Wrappers

  type Id = nat
  type User = nat
  type Time = int

  datatype Status = Active | Archived
  datatype MemberRole = Viewer | Editor
  datatype AccessRole = OwnerAccess | MemberAccess(role: MemberRole)

  datatype Project = Project(name: string, description: string, status: Status, owner: User, createdAt: Time)

  /** The projects and project_members tables. */
  datatype Tables = Tables(projects: map<Id, Project>, members: map<(Id, User), MemberRole>)

  datatype Error = ProjectsInvalidInput | NotFound | QueryFailed

  /** What a list request asks for, after normalisation. */
  datatype Query = Query(user: User, search: string, status: Option<Status>)

  /** owner_user_id = user OR id IN (SELECT project_id FROM project_members WHERE user_id = user). */
  predicate Visible(db: Tables, id: Id, user: User)
    requires id in db.projects
  {
    db.projects[id].owner == user || (id, user) in db.members
  }

  /** The search and status filters of the list queries. */
  predicate Listed(fold: char -> char, db: Tables, query: Query, id: Id)
    requires IsCaseFolding(fold)
  {
    && id in db.projects && Visible(db, id, query.user)
    && var p, search := db.projects[id], SearchParam(query.search);
    SearchIsSubstring(fold, query.search, p.name);
    && (search.None? || Matches(fold, search, p.name) || Matches(fold, search, p.description))
    && (query.status.None? || p.status == query.status.value)
  }

  function Keys(fold: char -> char, db: Tables, query: Query): set<Key>
    requires IsCaseFolding(fold)
  {
    set id | id in db.projects && Listed(fold, db, query, id) :: Key(db.projects[id].createdAt, id)
  }

  /** The user's role in the project: the column the query computes. */
  function Access(db: Tables, id: Id, user: User): Option<AccessRole> {
    if id !in db.projects || !Visible(db, id, user) then None
    else if db.projects[id].owner == user then Some(OwnerAccess)
    else Some(MemberAccess(db.members[(id, user)]))
  }

  /** Whether the project's name or description contains the trimmed search term, case aside. */
  ghost predicate Mentions(fold: char -> char, p: Project, search: string) {
    var term := Fold(fold, TrimSpace(search));
    Contains(Fold(fold, p.name), term) || Contains(Fold(fold, p.description), term)
  }

  /** The list holds exactly the projects the user owns or is a member of whose text contains the search
      term and whose status is the one asked for. */
  lemma ListedIffAccessible(fold: char -> char, db: Tables, query: Query, key: Key)
    requires IsCaseFolding(fold)
    ensures key in Sorted(Keys(fold, db, query)) <==>
      && key.id in db.projects && key.at == db.projects[key.id].createdAt
      && (db.projects[key.id].owner == query.user || (key.id, query.user) in db.members)
      && Mentions(fold, db.projects[key.id], query.search)
      && (query.status.None? || db.projects[key.id].status == query.status.value)
  {
    SortedIsSorted(Keys(fold, db, query));
    if key.id in db.projects {
      var p := db.projects[key.id];
      SearchIsSubstring(fold, query.search, p.name);
      SearchIsSubstring(fold, query.search, p.description);
    }
    assert key in Keys(fold, db, query) <==>
      (Listed(fold, db, query, key.id) && key.at == db.projects[key.id].createdAt);
  }

  datatype ListResult = ListResult(projects: seq<(Id, Project)>, page: Int64, pageSize: Int64, total: nat)

  /** The rows are table rows at the given positions, in that order. */
  ghost predicate RowsAt(db: Tables, rows: seq<(Id, Project)>, keys: seq<Key>) {
    && |rows| == |keys|
    && forall i :: 0 <= i < |rows| ==>
         && rows[i].0 in db.projects && rows[i].1 == db.projects[rows[i].0]
         && Key(rows[i].1.createdAt, rows[i].0) == keys[i]
  }

  lemma OneRowMore(db: Tables, rows: seq<(Id, Project)>, keys: seq<Key>, i: nat)
    requires i < |keys| && RowsAt(db, rows, keys[..i])
    requires keys[i].id in db.projects && db.projects[keys[i].id].createdAt == keys[i].at
    ensures RowsAt(db, rows + [(keys[i].id, db.projects[keys[i].id])], keys[..i + 1])
  {
  }

  class ProjectStore {
    var db: Tables
    /** The database's case folding. */
    const fold: char -> char

    constructor (fold: char -> char)
      ensures this.fold == fold && db == Tables(map[], map[])
    {
      this.fold := fold;
      db := Tables(map[], map[]);
    }

    method CountProjectsPage(query: Query) returns (total: nat)
      requires IsCaseFolding(fold)
      ensures total == |Keys(fold, db, query)|
    {
      total := |Keys(fold, db, query)|;
    }

    /** ORDER BY created_at DESC, id DESC LIMIT limit OFFSET offset, on 32-bit parameters. */
    method ListProjectsPage(query: Query, offset: int, limit: nat) returns (r: Result<seq<(Id, Project)>, Error>)
      requires IsCaseFolding(fold)
      ensures var rows := Slice(Sorted(Keys(fold, db, query)), offset, limit);
        && (r.Err? <==> rows.None?) && (r.Err? ==> r.error == QueryFailed)
        && (r.Ok? ==> RowsAt(db, r.value, rows.value))
    {
      var keys := SelectRange(Keys(fold, db, query), offset, limit);
      if keys.None? {
        return Err(QueryFailed);
      }
      var items := [];
      for i := 0 to |keys.value|
        invariant RowsAt(db, items, keys.value[..i])
      {
        assert keys.value[i] in keys.value;
        var id := keys.value[i].id;
        OneRowMore(db, items, keys.value, i);
        items := items + [(id, db.projects[id])];
      }
      assert keys.value[..|keys.value|] == keys.value;
      return Ok(items);
    }

    method ListProjects(query: Query, page: Normalized) returns (r: Result<ListResult, Error>)
      requires IsCaseFolding(fold) && 1 <= page.page && 1 <= page.pageSize as int <= MAX_PAGE_SIZE
      requires page.offset == Wrap64((page.page as int - 1) * page.pageSize as int)
      ensures var rows := StorePage(Keys(fold, db, query), page.page as int, page.pageSize as int);
        && (r.Err? <==> rows.None?) && (r.Err? ==> r.error == QueryFailed)
        && (r.Ok? ==>
             && RowsAt(db, r.value.projects, rows.value)
             && r.value.total == |Keys(fold, db, query)|
             && r.value.page == page.page && r.value.pageSize == page.pageSize)
    {
      var total := CountProjectsPage(query);
      var rows := ListProjectsPage(query, Wrap32(page.offset as int), page.pageSize as int);
      if rows.Err? {
        return Err(rows.error);
      }
      return Ok(ListResult(rows.value, page.page, page.pageSize, total));
    }

    /** The owner has the owner's role even when also listed as a member; any other member has the role of
        the membership; nothing tells a project the user cannot see from a missing one. */
    method GetProjectWithAccess(id: Id, user: User) returns (r: Result<(Project, AccessRole), Error>)
      ensures r.Ok? <==> id in db.projects && (db.projects[id].owner == user || (id, user) in db.members)
      ensures r.Err? ==> r.error == NotFound
      ensures r.Ok? ==> r.value.0 == db.projects[id]
      ensures r.Ok? ==> (r.value.1 == OwnerAccess <==> db.projects[id].owner == user)
      ensures r.Ok? && db.projects[id].owner != user ==> r.value.1 == MemberAccess(db.members[(id, user)])
    {
      var access := Access(db, id, user);
      if access.None? {
        return Err(NotFound);
      }
      return Ok((db.projects[id], access.value));
    }
  }

  /** Whatever a page holds is one of the projects the list is of. */
  lemma RowsAreListed(fold: char -> char, db: Tables, query: Query, page: nat, pageSize: nat, rows: seq<(Id, Project)>)
    requires IsCaseFolding(fold) && page >= 1 && StorePage(Keys(fold, db, query), page, pageSize).Some?
    requires RowsAt(db, rows, StorePage(Keys(fold, db, query), page, pageSize).value)
    ensures forall row :: row in rows ==>
      && row in db.projects.Items && (row.1.owner == query.user || (row.0, query.user) in db.members)
      && Mentions(fold, row.1, query.search) && (query.status.Some? ==> row.1.status == query.status.value)
  {
    var keys := StorePage(Keys(fold, db, query), page, pageSize).value;
    forall i | 0 <= i < |rows|
      ensures var row := rows[i];
        && row in db.projects.Items && (row.1.owner == query.user || (row.0, query.user) in db.members)
        && Mentions(fold, row.1, query.search) && (query.status.Some? ==> row.1.status == query.status.value)
    {
      assert keys[i] in keys;
      ListedIffAccessible(fold, db, query, keys[i]);
    }
  }

  lemma TrimmedTwice(s: string)
    ensures TrimSpace(TrimSpace(s)) == TrimSpace(s)
  {
    assert LeftOf(TrimSpace(s), TrimSpace(s), 0);
    TrimSpaceIff(TrimSpace(s), TrimSpace(s));
  }

  class Service {
    const store: ProjectStore
    /** unicode.ToLower. */
    const lower: char -> char

    constructor (store: ProjectStore, lower: char -> char)
      ensures this.store == store && this.lower == lower
    {
      this.store := store;
      this.lower := lower;
    }

    /** The blank filter means every status; only two others are known. */
    function StatusFilter(value: string): Result<Option<Status>, Error> {
      var status := Fold(lower, TrimSpace(value));
      if status == "" then Ok(None)
      else if status == "active" then Ok(Some(Active))
      else if status == "archived" then Ok(Some(Archived))
      else Err(ProjectsInvalidInput)
    }

    /** user is the parsed user id, None when it was missing or malformed. */
    method ListProjects(user: Option<User>, params: Params, status: string) returns (r: Result<ListResult, Error>)
      requires IsCaseFolding(store.fold)
      ensures r == Err(ProjectsInvalidInput) <==> user.None? || Normalize(params).Err? || StatusFilter(status).Err?
      ensures user.Some? && Normalize(params).Ok? && StatusFilter(status).Ok? ==>
        var query := Query(user.value, TrimSpace(params.search), StatusFilter(status).value);
        var page, pageSize := Normalize(params).value.page as int, Normalize(params).value.pageSize as int;
        var rows := StorePage(Keys(store.fold, store.db, query), page, pageSize);
        && (r.Ok? <==> rows.Some?)
        && (r.Ok? ==>
             && RowsAt(store.db, r.value.projects, rows.value)
             && r.value.total == |Keys(store.fold, store.db, query)|)
      ensures r.Ok? ==> forall row :: row in r.value.projects ==>
        && (row.1.owner == user.value || (row.0, user.value) in store.db.members)
        && row in store.db.projects.Items && Mentions(store.fold, row.1, params.search)
        && (Fold(lower, TrimSpace(status)) == "active" ==> row.1.status == Active)
        && (Fold(lower, TrimSpace(status)) == "archived" ==> row.1.status == Archived)
    {
      if user.None? {
        return Err(ProjectsInvalidInput);
      }
      var page := Normalize(params);
      if page.Err? {
        return Err(ProjectsInvalidInput);
      }
      var status := StatusFilter(status);
      if status.Err? {
        return Err(status.error);
      }
      var query := Query(user.value, page.value.search, status.value);
      r := store.ListProjects(query, page.value);
      if r.Ok? {
        RowsAreListed(store.fold, store.db, query, page.value.page as int, page.value.pageSize as int, r.value.projects);
        TrimmedTwice(params.search);
      }
    }
  }

  /** Reading page after page until the total is covered lists every project the user can see that
      matches, newest first and once, and the total is their number. */
  lemma PagesListTheMatches(fold: char -> char, db: Tables, query: Query, n: nat, pageSize: nat)
    requires IsCaseFolding(fold) && pageSize >= 1
    requires n * pageSize >= |Keys(fold, db, query)| && (n - 1) * pageSize <= MAX_INT32
    ensures var list := Pages(Keys(fold, db, query), n, pageSize);
      && |list| == |Keys(fold, db, query)| && Descending(list)
      && (forall key :: key in list <==>
           && key.id in db.projects && key.at == db.projects[key.id].createdAt
           && (db.projects[key.id].owner == query.user || (key.id, query.user) in db.members)
           && Mentions(fold, db.projects[key.id], query.search)
           && (query.status.None? || db.projects[key.id].status == query.status.value))
  {
    var keys := Keys(fold, db, query);
    PagesAreTheList(keys, n, pageSize);
    SortedIsSorted(keys);
    forall key {
      ListedIffAccessible(fold, db, query, key);
    }
  }
}
