/** User summaries: one user at a time, and a page of users with their roles loaded in one batch. */
module UserDirectory {
  import opened Common
  import opened Sorting
  import opened Paging
  import Text

  type UserId = int
  type RoleId = int

  datatype UserStatus = Enabled | Disabled

  datatype User = User(id: UserId, username: string, email: string, status: UserStatus, createdAt: int, updatedAt: int)

  datatype UserResult = UserResult(user: User, roles: seq<string>)

  /** One snapshot of users, roles and user_roles. */
  datatype Directory = Directory(users: map<UserId, User>, roles: map<RoleId, string>, userRoles: set<(UserId, RoleId)>)

  ghost predicate Valid(dir: Directory) {
    forall id :: id in dir.users ==> dir.users[id].id == id
  }

  // The role queries.

  ghost predicate HasRole(dir: Directory, user: UserId, code: string) {
    exists role :: (user, role) in dir.userRoles && role in dir.roles && dir.roles[role] == code
  }

  /** What the single-user query returns: the codes of the user, ascending. Role codes and
      (user, role) pairs are unique keys, so no code comes twice. */
  ghost predicate RolesOf(dir: Directory, user: UserId, codes: seq<string>) {
    StrictlySorted(codes, Text.Less) && forall code :: code in codes <==> HasRole(dir, user, code)
  }

  datatype RoleRow = RoleRow(user: UserId, code: string)

  predicate RowLess(a: RoleRow, b: RoleRow) {
    a.user < b.user || (a.user == b.user && Text.Less(a.code, b.code))
  }

  /** What the batch query returns: the rows of the given users, by user and then by code. */
  ghost predicate BatchOf(dir: Directory, users: seq<UserId>, rows: seq<RoleRow>) {
    StrictlySorted(rows, RowLess) && forall u, code :: RoleRow(u, code) in rows <==> u in users && HasRole(dir, u, code)
  }

  lemma LessAsymmetric()
    ensures Asymmetric(Text.Less)
  {
    forall x, y
      ensures !(Text.Less(x, y) && Text.Less(y, x))
    {
      Text.LessTotal(x, y);
    }
  }

  /** The single-user query has one possible answer. */
  lemma RolesUnique(dir: Directory, user: UserId, a: seq<string>, b: seq<string>)
    requires RolesOf(dir, user, a) && RolesOf(dir, user, b)
    ensures a == b
  {
    LessAsymmetric();
    SortedUnique(a, b, Text.Less);
  }

  /** The codes of one user's rows, in row order. */
  function CodesFor(rows: seq<RoleRow>, user: UserId): (codes: seq<string>)
    ensures forall code :: code in codes <==> RoleRow(user, code) in rows
  {
    if rows == [] then [] else
      var before := CodesFor(rows[..|rows| - 1], user);
      var row := Last(rows);
      assert rows == rows[..|rows| - 1] + [row];
      if row.user == user then before + [row.code] else before
  }

  lemma {:induction false} CodesForSorted(rows: seq<RoleRow>, user: UserId)
    requires StrictlySorted(rows, RowLess)
    ensures StrictlySorted(CodesFor(rows, user), Text.Less)
  {
    if rows != [] {
      var init, row := rows[..|rows| - 1], Last(rows);
      CodesForSorted(init, user);
      if row.user == user {
        forall code | code in CodesFor(init, user)
          ensures Text.Less(code, row.code)
        {
          var i :| 0 <= i < |init| && init[i] == RoleRow(user, code);
          assert RowLess(rows[i], rows[|rows| - 1]);
        }
      }
    }
  }

  /** Picking one user's rows out of the batch gives what the single-user query gives, order included. */
  lemma BatchAgrees(dir: Directory, users: seq<UserId>, rows: seq<RoleRow>, user: UserId)
    requires BatchOf(dir, users, rows) && user in users
    ensures RolesOf(dir, user, CodesFor(rows, user))
  {
    CodesForSorted(rows, user);
  }

  function GroupOf(groups: map<UserId, seq<string>>, user: UserId): seq<string> {
    if user in groups then groups[user] else []
  }

  /** findRolesByUserIDs: one pass over the batch, appending each code to its user's list. */
  method FindRolesByUserIDs(users: seq<User>, rows: seq<RoleRow>) returns (groups: map<UserId, seq<string>>)
    ensures users == [] ==> groups == map[]
    ensures users != [] ==> forall u :: GroupOf(groups, u) == CodesFor(rows, u)
  {
    groups := map[];
    if users == [] {
      return;
    }
    for i := 0 to |rows|
      invariant forall u :: GroupOf(groups, u) == CodesFor(rows[..i], u)
    {
      assert rows[..i + 1][..i] == rows[..i];
      groups := groups[rows[i].user := GroupOf(groups, rows[i].user) + [rows[i].code]];
    }
    assert rows[..|rows|] == rows;
  }

  method ToUserResults(users: seq<User>, groups: map<UserId, seq<string>>) returns (results: seq<UserResult>)
    ensures |results| == |users|
    ensures forall i :: 0 <= i < |users| ==> results[i] == UserResult(users[i], GroupOf(groups, users[i].id))
  {
    results := [];
    for i := 0 to |users|
      invariant |results| == i
      invariant forall j :: 0 <= j < i ==> results[j] == UserResult(users[j], GroupOf(groups, users[j].id))
    {
      results := results + [UserResult(users[i], GroupOf(groups, users[i].id))];
    }
  }

  datatype LookupError = NotFound

  /** GetByID, given what the single-user role query returns. */
  function GetByID(dir: Directory, user: UserId, codes: seq<string>): Result<UserResult, LookupError> {
    if user in dir.users then Ok(UserResult(dir.users[user], codes)) else Err(NotFound)
  }

  // The user list.

  datatype Criteria = Criteria(
    username: string, email: string, status: Option<UserStatus>,
    createdFrom: Option<int>, createdTo: Option<int>, updatedFrom: Option<int>, updatedTo: Option<int>)

  predicate Within(t: int, from: Option<int>, to: Option<int>) {
    (from.Some? ==> t >= from.value) && (to.Some? ==> t <= to.value)
  }

  /** The WHERE clause that the count and the page query share; `like` is the database's substring test. */
  predicate Matches(c: Criteria, like: (string, string) -> bool, u: User) {
    && (c.username != "" ==> like(u.username, c.username))
    && (c.email != "" ==> like(u.email, c.email))
    && (c.status.Some? ==> u.status == c.status.value)
    && Within(u.createdAt, c.createdFrom, c.createdTo) && Within(u.updatedAt, c.updatedFrom, c.updatedTo)
  }

  /** ORDER BY created_at DESC, id DESC. */
  predicate Before(a: User, b: User) {
    a.createdAt > b.createdAt || (a.createdAt == b.createdAt && a.id > b.id)
  }

  /** The whole ordered match list, of which a page query returns a LIMIT/OFFSET window. */
  ghost predicate MatchList(dir: Directory, c: Criteria, like: (string, string) -> bool, list: seq<User>) {
    StrictlySorted(list, Before)
    && forall u :: u in list <==> u.id in dir.users && dir.users[u.id] == u && Matches(c, like, u)
  }

  lemma MatchListUnique(dir: Directory, c: Criteria, like: (string, string) -> bool, a: seq<User>, b: seq<User>)
    requires MatchList(dir, c, like, a) && MatchList(dir, c, like, b)
    ensures a == b
  {
    SortedUnique(a, b, Before);
  }

  /** Each user is in the list at most once. */
  lemma ListedOnce(dir: Directory, c: Criteria, like: (string, string) -> bool, list: seq<User>, i: nat, j: nat)
    requires MatchList(dir, c, like, list) && i < |list| && j < |list| && list[i].id == list[j].id
    ensures i == j
  {
    assert list[i] in list && list[j] in list;
    assert i < j ==> Before(list[i], list[j]);
    assert j < i ==> Before(list[j], list[i]);
  }

  /** The order by creation time and id is total on users with different ids, so the database has a match list
      for every criteria. */
  lemma MatchListExists(dir: Directory, c: Criteria, like: (string, string) -> bool) returns (list: seq<User>)
    requires Valid(dir)
    ensures MatchList(dir, c, like, list)
  {
    var matching := set id | id in dir.users && Matches(c, like, dir.users[id]) :: dir.users[id];
    list := SortedExists(matching, Before);
    forall u
      ensures u in list <==> u.id in dir.users && dir.users[u.id] == u && Matches(c, like, u)
    {
      assert u in list <==> u in matching;
    }
  }

  /** And the batch query has an answer for every list of users. */
  lemma BatchExists(dir: Directory, users: seq<UserId>) returns (rows: seq<RoleRow>)
    ensures BatchOf(dir, users, rows)
  {
    var all := set u, role | u in users && role in dir.roles && (u, role) in dir.userRoles
                 :: RoleRow(u, dir.roles[role]);
    RowsTotal(all);
    rows := SortedExists(all, RowLess);
    forall u, code
      ensures RoleRow(u, code) in rows <==> u in users && HasRole(dir, u, code)
    {
      assert RoleRow(u, code) in rows <==> RoleRow(u, code) in all;
    }
  }

  lemma RowsTotal(all: set<RoleRow>)
    ensures TotalOn(all, RowLess)
  {
    forall x, y | x in all && y in all && x != y
      ensures RowLess(x, y) || RowLess(y, x)
    {
      Text.LessTotal(x.code, y.code);
    }
    forall x, y, z | x in all && y in all && z in all && RowLess(x, y) && RowLess(y, z)
      ensures RowLess(x, z)
    {
      if x.user == y.user == z.user {
        Text.LessTransitive(x.code, y.code, z.code);
      }
    }
  }

  /** Through the pages, and within each page, creation times never rise, and ids fall where they are equal. */
  lemma NewestFirst(dir: Directory, c: Criteria, like: (string, string) -> bool, list: seq<User>, size: nat, p: nat,
                    q: nat, i: nat, j: nat)
    requires MatchList(dir, c, like, list) && 1 <= p <= q && (p < q || i < j)
    ensures i < |Page(list, size, p)| && j < |Page(list, size, q)| ==>
              var a, b := Page(list, size, p)[i], Page(list, size, q)[j];
              a.createdAt >= b.createdAt && (a.createdAt == b.createdAt ==> a.id > b.id)
  {
    if i < |Page(list, size, p)| && j < |Page(list, size, q)| {
      var m := PageAt(list, size, p, i);
      var n := PageAt(list, size, q, j);
      if p < q {
        MulMonotone(p, q - 1, size);
        assert (p - 1) * size + size == p * size;
      }
      assert Before(list[m], list[n]);
    }
  }

  /** So page 1 opens with the newest match, of several the one with the greatest id. */
  lemma PageOneHasNewest(dir: Directory, c: Criteria, like: (string, string) -> bool, list: seq<User>, size: nat,
                         u: User)
    requires MatchList(dir, c, like, list) && size >= 1 && u in list
    ensures Page(list, size, 1) != []
    ensures var first := Page(list, size, 1)[0];
            first.createdAt >= u.createdAt && (first.createdAt == u.createdAt ==> first.id >= u.id)
  {
    var n :| 0 <= n < |list| && list[n] == u;
    PageIsWindow(list, size, 1);
    assert Page(list, size, 1)[0] == list[0];
    assert n > 0 ==> Before(list[0], list[n]);
  }

  datatype Query = Query(
    page: int, size: int, username: string, email: string, status: string,
    createdFrom: Option<int>, createdTo: Option<int>, updatedFrom: Option<int>, updatedTo: Option<int>)

  const DEFAULT_PAGE := 1
  const DEFAULT_SIZE := 20

  /** Zero means the default. */
  function RequestFromQuery(q: Query): Result<Request, PageError> {
    NewRequest(if q.page == 0 then DEFAULT_PAGE else q.page, if q.size == 0 then DEFAULT_SIZE else q.size)
  }

  datatype ListError = BadRequest(error: PageError) | BadStatus | QueryFailed

  /** The queries of a listing that may fail. */
  datatype Call = CountQuery | PageQuery | RoleQuery

  function StatusFromRequired(value: string): Result<UserStatus, ListError> {
    var v := Text.TrimSpace(value);
    if v == "ENABLED" then Ok(Enabled) else if v == "DISABLED" then Ok(Disabled) else Err(BadStatus)
  }

  function StatusFromFilter(value: string): Result<Option<UserStatus>, ListError> {
    if Text.TrimSpace(value) == "" then Ok(None)
    else
      var status := StatusFromRequired(Text.TrimSpace(value));
      if status.Err? then Err(BadStatus) else Ok(Some(status.value))
  }

  function CriteriaFromQuery(q: Query, status: Option<UserStatus>, lower: string -> string): Criteria {
    Criteria(Text.TrimSpace(q.username), lower(Text.TrimSpace(q.email)), status,
             q.createdFrom, q.createdTo, q.updatedFrom, q.updatedTo)
  }

  /** The match list of a query holds exactly the users that its filters let through: text filters apply when
      they are not blank, the bounds on the times include their ends. */
  lemma ListedExactly(dir: Directory, q: Query, lower: string -> string, like: (string, string) -> bool,
                      list: seq<User>, u: User)
    requires StatusFromFilter(q.status).Ok?
    requires MatchList(dir, CriteriaFromQuery(q, StatusFromFilter(q.status).value, lower), like, list)
    ensures var username, email := Text.TrimSpace(q.username), Text.TrimSpace(q.email);
            var status := Text.TrimSpace(q.status);
            u in list <==>
              && u.id in dir.users && dir.users[u.id] == u
              && (username == "" || like(u.username, username)) && (lower(email) == "" || like(u.email, lower(email)))
              && (status == "" || (status == "ENABLED" && u.status == Enabled)
                  || (status == "DISABLED" && u.status == Disabled))
              && (q.createdFrom.Some? ==> q.createdFrom.value <= u.createdAt)
              && (q.createdTo.Some? ==> u.createdAt <= q.createdTo.value)
              && (q.updatedFrom.Some? ==> q.updatedFrom.value <= u.updatedAt)
              && (q.updatedTo.Some? ==> u.updatedAt <= q.updatedTo.value)
  {
    Text.TrimIdempotent(q.status);
  }

  /** What is refused: a page below 1 or a size outside 1 to 100, zero standing for 1 and 20; then an offset
      past 32 bits; then a status that is not blank and neither of the two. */
  lemma RefusedExactly(q: Query)
    ensures var page, size := if q.page == 0 then 1 else q.page, if q.size == 0 then 20 else q.size;
            var status := Text.TrimSpace(q.status);
            && RefusalOf(q) == (if page < 1 then Some(BadRequest(BadPage))
                            else if size < 1 || size > 100 then Some(BadRequest(BadSize))
                            else if (page - 1) * size > 2147483647 then Some(BadRequest(PageTooLarge))
                            else if status != "" && status != "ENABLED" && status != "DISABLED" then Some(BadStatus)
                            else None)
            && (1 <= page && 1 <= size <= 100 ==> RequestFromQuery(q) == Ok(Request(page, size)))
  {
    Text.TrimIdempotent(q.status);
  }

  /** What a listing returns: the page of the match list, every user with exactly the roles the
      single-user form gives, and the metadata of the whole list. */
  ghost predicate ListedPage(dir: Directory, list: seq<User>, r: Request, resp: Response<UserResult>)
    requires r.page >= 1 && r.size >= 1
  {
    var page := Page(list, r.size, r.page);
    && |resp.items| == |page|
    && (forall i :: 0 <= i < |page| ==> resp.items[i].user == page[i] && RolesOf(dir, page[i].id, resp.items[i].roles))
    && resp.page == r.page && resp.size == r.size && resp.total == |list|
    && resp.totalPages == CalculateTotalPages(|list|, r.size)
    && (resp.hasNext <==> Page(list, r.size, r.page + 1) != [])
    && (resp.hasPrevious <==> r.page > 1 && page != [])
  }

  /** What a listing is refused for, if anything: the first of page, offset and status that is bad. */
  function RefusalOf(q: Query): Option<ListError> {
    var request := RequestFromQuery(q);
    if request.Err? then Some(BadRequest(request.error))
    else if Offset(request.value) > MAX_INT32 then Some(BadRequest(PageTooLarge))
    else if StatusFromFilter(q.status).Err? then Some(BadStatus)
    else None
  }

  /** The queries a listing makes: no page query when nothing matches, no role query for an empty page. */
  function Calls(list: seq<User>, r: Request): set<Call>
    requires NewRequest(r.page, r.size).Ok?
  {
    if list == [] then {CountQuery}
    else if Page(list, r.size, r.page) == [] then {CountQuery, PageQuery}
    else {CountQuery, PageQuery, RoleQuery}
  }

  /** The validation before any query. */
  method Validate(q: Query) returns (r: Result<(Request, nat, Option<UserStatus>), ListError>)
    ensures r.Err? ==> RefusalOf(q) == Some(r.error)
    ensures r.Ok? ==>
              RefusalOf(q).None? && RequestFromQuery(q) == Ok(r.value.0) && r.value.1 == Offset(r.value.0)
              && StatusFromFilter(q.status) == Ok(r.value.2)
  {
    var request := RequestFromQuery(q);
    if request.Err? {
      return Err(BadRequest(request.error));
    }
    PageOffsetExact(request.value);
    var offset := PageOffset(request.value);
    if offset.Err? {
      return Err(BadRequest(offset.error));
    }
    var status := StatusFromFilter(q.status);
    if status.Err? {
      return Err(BadStatus);
    }
    r := Ok((request.value, offset.value, status.value));
  }

  /** Summaries of the users of a page, with their roles from one batch query. */
  method Summaries(dir: Directory, users: seq<User>, batch: seq<UserId> -> seq<RoleRow>)
    returns (items: seq<UserResult>)
    requires forall ids :: BatchOf(dir, ids, batch(ids))
    ensures |items| == |users|
    ensures forall i :: 0 <= i < |users| ==> items[i].user == users[i] && RolesOf(dir, users[i].id, items[i].roles)
  {
    var ids := seq(|users|, i requires 0 <= i < |users| => users[i].id);
    var groups := FindRolesByUserIDs(users, batch(ids));
    items := ToUserResults(users, groups);
    forall i | 0 <= i < |users|
      ensures RolesOf(dir, users[i].id, items[i].roles)
    {
      assert ids[i] == users[i].id;
      BatchAgrees(dir, ids, batch(ids), users[i].id);
    }
  }

  lemma PageIsListed(dir: Directory, list: seq<User>, r: Request, items: seq<UserResult>)
    requires NewRequest(r.page, r.size).Ok? && |items| == |Page(list, r.size, r.page)|
    requires var page := Page(list, r.size, r.page);
             forall i :: 0 <= i < |page| ==> items[i].user == page[i] && RolesOf(dir, page[i].id, items[i].roles)
    ensures NewResponse(items, r, |list|).Ok? && ListedPage(dir, list, r, NewResponse(items, r, |list|).value)
  {
    MetadataIsTruthful(list, r);
  }

  /** ListUsers on one snapshot. `list` is the match list the database holds for the criteria, `batch`
      answers the batch role query; the queries in `failing` fail. */
  method ListUsers(dir: Directory, q: Query, lower: string -> string, like: (string, string) -> bool,
                   list: seq<User>, batch: seq<UserId> -> seq<RoleRow>, failing: set<Call>)
    returns (r: Result<Response<UserResult>, ListError>)
    requires Valid(dir)
    requires StatusFromFilter(q.status).Ok? ==>
               MatchList(dir, CriteriaFromQuery(q, StatusFromFilter(q.status).value, lower), like, list)
    requires forall ids :: BatchOf(dir, ids, batch(ids))
    ensures RefusalOf(q).Some? ==> r == Err(RefusalOf(q).value)
    ensures RefusalOf(q).None? ==>
              var request := RequestFromQuery(q).value;
              if failing !! Calls(list, request) then r.Ok? && ListedPage(dir, list, request, r.value)
              else r == Err(QueryFailed)
  {
    var valid := Validate(q);
    if valid.Err? {
      return Err(valid.error);
    }
    var (request, offset, _) := valid.value;
    PageIsWindow(list, request.size, request.page);
    if CountQuery in failing {
      return Err(QueryFailed);
    }
    var items := [];
    if |list| > 0 {
      if PageQuery in failing {
        return Err(QueryFailed);
      }
      var users := Limited(list, request.size, offset);
      if users != [] && RoleQuery in failing {
        return Err(QueryFailed);
      }
      items := Summaries(dir, users, batch);
    }
    PageIsListed(dir, list, request, items);
    r := Ok(NewResponse(items, request, |list|).value);
  }

  /** Every entry of a listing is what GetByID gives for its user, the order of the roles included. */
  lemma ListingAgreesWithGetByID(dir: Directory, c: Criteria,
                                 like: (string, string) -> bool, list: seq<User>, r: Request,
                                 resp: Response<UserResult>, i: nat, codes: seq<string>)
    requires MatchList(dir, c, like, list) && r.page >= 1 && r.size >= 1 && ListedPage(dir, list, r, resp)
    requires i < |resp.items| && RolesOf(dir, resp.items[i].user.id, codes)
    ensures GetByID(dir, resp.items[i].user.id, codes) == Ok(resp.items[i])
  {
    var user := resp.items[i].user;
    PageWithin(list, r.size, r.page, i);
    assert user in list;
    RolesUnique(dir, user.id, codes, resp.items[i].roles);
  }
}
