/** The `/api/users` routes over the SQLite `users` table: listing with offset and
    limit, creation with uniqueness checks, lookup, partial update and deletion. The
    table is a map from id to row plus the ids in rowid order, the order a query
    without `ORDER BY` returns them in. */
module UserRoutes {
  import opened Wrappers
  import opened Seqs
  import opened UserValidation
  import opened UserModel
  import opened Http

  const NotFound := HttpError(404, "User not found")
  const InvalidData := HttpError(400, "Invalid data provided")

  /** A row of the `users` table; `None` is SQL NULL. */
  datatype UserRow = UserRow(email: Option<string>, username: Option<string>, fullName: Option<string>,
                             department: Option<string>, hashedPassword: Option<string>)

  /** `UserResponse`: the row's public columns and its id; the password hash is not
      one of them. */
  datatype UserView = UserView(id: int, email: Option<string>, username: Option<string>,
                               fullName: Option<string>, department: Option<string>)

  /** The columns `UserUpdate` can set. */
  datatype Field = Email | Username | FullName | Department

  /** `setattr(db_user, field, value)`. */
  function Assign(row: UserRow, field: Field, value: Option<string>): UserRow {
    match field
    case Email => row.(email := value)
    case Username => row.(username := value)
    case FullName => row.(fullName := value)
    case Department => row.(department := value)
  }

  /** The row once every explicitly set field of the request is assigned. */
  function Patched(row: UserRow, patch: map<Field, Option<string>>): UserRow {
    UserRow(if Email in patch then patch[Email] else row.email,
            if Username in patch then patch[Username] else row.username,
            if FullName in patch then patch[FullName] else row.fullName,
            if Department in patch then patch[Department] else row.department,
            row.hashedPassword)
  }

  /** Assigning one more field extends the patch by that field. */
  lemma AssignPatched(row: UserRow, patch: map<Field, Option<string>>, field: Field, value: Option<string>)
    ensures Assign(Patched(row, patch), field, value) == Patched(row, patch[field := value])
  {
  }

  /** An empty request changes nothing, a request applied twice is applied once, and two
      requests in a row are their union with the later one winning. */
  lemma PatchAlgebra(row: UserRow, p: map<Field, Option<string>>, q: map<Field, Option<string>>)
    ensures Patched(row, map[]) == row
    ensures Patched(Patched(row, p), p) == Patched(row, p)
    ensures Patched(Patched(row, p), q) == Patched(row, p + q)
  {
  }

  /** The NOT NULL columns hold values. */
  predicate NotNull(row: UserRow) {
    row.email.Some? && row.username.Some? && row.department.Some? && row.hashedPassword.Some?
  }

  /** The constraints the database enforces at commit: NOT NULL columns and the unique
      email and username. */
  predicate Integrity(rows: map<int, UserRow>) {
    (forall id :: id in rows ==> NotNull(rows[id]))
    && (forall i, j :: i in rows && j in rows && i != j ==>
          rows[i].email != rows[j].email && rows[i].username != rows[j].username)
  }

  /** `order` lists the ids of `rows`, each once, increasing, all positive. */
  ghost predicate Ordered(rows: map<int, UserRow>, order: seq<int>) {
    (forall id :: id in rows <==> id in order)
    && (forall i, j :: 0 <= i < j < |order| ==> order[i] < order[j])
    && (forall id :: id in rows ==> id >= 1)
  }

  /** The id SQLite gives a new row: one more than the largest id in use, 1 in an empty
      table. */
  function NewId(order: seq<int>): int {
    if order == [] then 1 else order[|order| - 1] + 1
  }

  /** The new id is larger than every id in use, so it is fresh and the order stays
      increasing. */
  lemma NewIdFresh(rows: map<int, UserRow>, order: seq<int>)
    requires Ordered(rows, order)
    ensures forall i :: 0 <= i < |order| ==> order[i] < NewId(order)
    ensures NewId(order) !in rows && NewId(order) >= 1
    ensures Ordered(rows[NewId(order) := UserRow(None, None, None, None, None)], order + [NewId(order)])
  {
    if order != [] {
      assert forall i :: 0 <= i < |order| - 1 ==> order[i] < order[|order| - 1];
      assert order[|order| - 1] in order;
    }
    var id := NewId(order);
    var rows' := rows[id := UserRow(None, None, None, None, None)];
    var order' := order + [id];
    forall x ensures x in rows' <==> x in order' {
      assert x in order' <==> x in order || x == id;
    }
  }

  /** Ids are reused: deleting the row with the largest id and creating another gives
      the new row the deleted id. */
  lemma LargestIdReused()
    ensures NewId([1, 2]) == 3 && NewId([1]) == 2
  {
  }

  /** `order` without `id`. */
  function Remove(order: seq<int>, id: int): (r: seq<int>)
    ensures forall x :: x in r <==> x in order && x != id
    ensures |r| <= |order|
  {
    if order == [] then []
    else (if order[0] == id then [] else [order[0]]) + Remove(order[1..], id)
  }

  /** Removing an id keeps the rest of the order. */
  lemma {:induction false} RemoveOrdered(order: seq<int>, id: int)
    requires forall i, j :: 0 <= i < j < |order| ==> order[i] < order[j]
    ensures forall i, j :: 0 <= i < j < |Remove(order, id)| ==> Remove(order, id)[i] < Remove(order, id)[j]
    decreases |order|
  {
    if order != [] {
      RemoveOrdered(order[1..], id);
      var rest := Remove(order[1..], id);
      if order[0] != id {
        var r := Remove(order, id);
        assert r == [order[0]] + rest;
        forall k | 0 <= k < |rest| ensures order[0] < rest[k] {
          assert rest[k] in order[1..];
        }
        forall i, j | 0 <= i < j < |r| ensures r[i] < r[j] {
          if i > 0 {
            assert r[i] == rest[i - 1] && r[j] == rest[j - 1];
          } else {
            assert r[j] == rest[j - 1];
          }
        }
      }
    }
  }

  /** A table whose rows satisfy the constraints keeps them when a row leaves. */
  lemma IntegrityWithout(rows: map<int, UserRow>, id: int)
    requires Integrity(rows)
    ensures Integrity(rows - {id})
  {
  }

  /** Some row has this email. */
  predicate EmailTaken(rows: map<int, UserRow>, email: string) {
    exists id :: id in rows && rows[id].email == Some(email)
  }

  /** Some row has this username. */
  predicate UsernameTaken(rows: map<int, UserRow>, username: string) {
    exists id :: id in rows && rows[id].username == Some(username)
  }

  /** The keyword arguments `create_user` passes to `User(...)`. */
  function CreateArgs(email: string, username: string, fullName: Option<string>, department: string,
                      hashed: string): map<string, Value> {
    map["email" := Str(email), "username" := Str(username),
        "full_name" := (if fullName.Some? then Str(fullName.value) else Null),
        "department" := Str(department), "hashed_password" := Str(hashed)]
  }

  /** A new row with all its NOT NULL columns set, added under a fresh id, keeps the
      constraints when its email and username are not taken. */
  lemma InsertKeepsIntegrity(rows: map<int, UserRow>, id: int, row: UserRow)
    requires Integrity(rows) && id !in rows && NotNull(row)
    requires row.email.Some? && !EmailTaken(rows, row.email.value)
    requires row.username.Some? && !UsernameTaken(rows, row.username.value)
    ensures Integrity(rows[id := row])
  {
    var rows' := rows[id := row];
    forall i, j | i in rows' && j in rows' && i != j
      ensures rows'[i].email != rows'[j].email && rows'[i].username != rows'[j].username
    {
      if i == id {
        assert rows'[j] == rows[j];
      } else if j == id {
        assert rows'[i] == rows[i];
      }
    }
  }

  /** A window of the id order holds ids of stored rows, increasing. */
  lemma OrderedSlice(rows: map<int, UserRow>, order: seq<int>, start: nat, end: nat)
    requires Ordered(rows, order) && start <= end <= |order|
    ensures forall i :: 0 <= i < end - start ==> order[start..end][i] in rows
    ensures forall i, j :: 0 <= i < j < end - start ==> order[start..end][i] < order[start..end][j]
  {
    forall i | 0 <= i < end - start
      ensures order[start..end][i] in rows
    {
      assert order[start..end][i] == order[start + i] && order[start + i] in order;
    }
  }

  /** A page with a non-negative offset and limit holds at most `limit` rows. */
  lemma PageBound(count: nat, skip: int, limit: int)
    ensures 0 <= skip && 0 <= limit ==> LimitEnd(count, OffsetStart(count, skip), limit) - OffsetStart(count, skip) <= limit
  {
  }

  /** The responses of a window of the id order are those of its rows, by increasing id. */
  lemma PageViews(rows: map<int, UserRow>, order: seq<int>, start: nat, end: nat)
    requires start <= end <= |order|
    requires forall i :: 0 <= i < end - start ==> order[start..end][i] in rows
    requires forall i, j :: 0 <= i < j < end - start ==> order[start..end][i] < order[start..end][j]
    ensures var users := ViewsOf(rows, order[start..end]);
            |users| == end - start
            && (forall i :: 0 <= i < |users| ==> users[i] == ViewOf(rows, order[start + i]))
            && (forall i, j :: 0 <= i < j < |users| ==> users[i].id < users[j].id)
  {
    var ids := order[start..end];
    var users := ViewsOf(rows, ids);
    assert forall i :: 0 <= i < |users| ==> users[i].id == ids[i] && ids[i] == order[start + i];
  }

  /** The response of the `ids` rows, in order. */
  function ViewsOf(rows: map<int, UserRow>, ids: seq<int>): (r: seq<UserView>)
    requires forall i :: 0 <= i < |ids| ==> ids[i] in rows
    ensures |r| == |ids|
    ensures forall i :: 0 <= i < |ids| ==> r[i] == ViewOf(rows, ids[i])
  {
    if ids == [] then [] else [ViewOf(rows, ids[0])] + ViewsOf(rows, ids[1..])
  }

  function ViewOf(rows: map<int, UserRow>, id: int): UserView
    requires id in rows
  {
    var row := rows[id];
    UserView(id, row.email, row.username, row.fullName, row.department)
  }

  class UserTable {
    var rows: map<int, UserRow>
    var order: seq<int>

    ghost predicate Valid()
      reads this
    {
      Ordered(rows, order) && Integrity(rows)
    }

    constructor ()
      ensures rows == map[] && order == [] && Valid()
    {
      rows, order := map[], [];
    }

    /** `list_users(skip, limit)`: the users from position `skip` on, at most `limit`
        of them, in id order. */
    method ListUsers(skip: int, limit: int) returns (users: seq<UserView>)
      requires Ordered(rows, order)
      ensures 0 <= skip && 0 <= limit ==> |users| <= limit
      ensures |users| == LimitEnd(|order|, OffsetStart(|order|, skip), limit) - OffsetStart(|order|, skip)
      ensures forall i :: 0 <= i < |users| ==>
                users[i] == ViewOf(rows, order[OffsetStart(|order|, skip) + i])
      ensures forall i, j :: 0 <= i < j < |users| ==> users[i].id < users[j].id
    {
      var start := OffsetStart(|order|, skip);
      var end := LimitEnd(|order|, start, limit);
      OrderedSlice(rows, order, start, end);
      users := ViewsOf(rows, order[start..end]);
      PageViews(rows, order, start, end);
      PageBound(|order|, skip, limit);
    }

    /** `get_user(user_id)`: the user's response, or 404. */
    method GetUser(id: int) returns (r: Result<UserView, HttpError>)
      requires Valid()
      ensures r.Err? <==> id !in rows
      ensures r.Err? ==> r.error == NotFound
      ensures r.Ok? ==> r.value.id == id && r.value == ViewOf(rows, id)
    {
      if id !in rows {
        return Err(NotFound);
      }
      return Ok(ViewOf(rows, id));
    }

    /** `create_user`: a taken email, then a taken username, then a field the `User`
        constructor rejects, each end in a 500 carrying the caught error and change
        nothing; otherwise the row is stored under a new id with the password's hash
        and never the password. */
    method CreateUser(email: string, username: string, fullName: Option<string>, department: string,
                      password: string, hash: string -> string) returns (r: Result<UserView, HttpError>)
      requires Valid()
      modifies this
      ensures Valid()
      ensures EmailTaken(old(rows), email) ==>
                r == Err(HttpError(500, Described(HttpError(400, "Email already registered"))))
      ensures !EmailTaken(old(rows), email) && UsernameTaken(old(rows), username) ==>
                r == Err(HttpError(500, Described(HttpError(400, "Username already taken"))))
      ensures !EmailTaken(old(rows), email) && !UsernameTaken(old(rows), username) ==>
                match CheckFields(CreateArgs(email, username, fullName, department, hash(password)))
                case Some(message) => r == Err(HttpError(500, message))
                case None => r.Ok?
      ensures r.Err? ==> rows == old(rows) && order == old(order)
      ensures r.Ok? ==> r.value.id == NewId(old(order)) && r.value.id !in old(rows)
                        && order == old(order) + [r.value.id]
                        && rows == old(rows)[r.value.id := UserRow(Some(email), Some(username), fullName,
                                                                    Some(department), Some(hash(password)))]
                        && r.value == ViewOf(rows, r.value.id)
    {
      if EmailTaken(rows, email) {
        return Err(HttpError(500, Described(HttpError(400, "Email already registered"))));
      }
      if UsernameTaken(rows, username) {
        return Err(HttpError(500, Described(HttpError(400, "Username already taken"))));
      }
      var hashed := hash(password);
      var user := User.New(CreateArgs(email, username, fullName, department, hashed));
      if user.Err? {
        return Err(HttpError(500, Describe(user.error)));
      }
      var id := NewId(order);
      var row := UserRow(Some(email), Some(username), fullName, Some(department), Some(hashed));
      NewIdFresh(rows, order);
      InsertKeepsIntegrity(rows, id, row);
      assert Ordered(rows[id := row], order + [id]) by {
        assert rows[id := row].Keys == rows[id := UserRow(None, None, None, None, None)].Keys;
      }
      rows, order := rows[id := row], order + [id];
      return Ok(ViewOf(rows, id));
    }

    /** `update_user(user_id, user_update)`: 404 for an unknown id; otherwise the
        fields the request sets explicitly are assigned, and the commit either keeps
        them or, when they break a constraint, rolls back and answers 400. */
    method UpdateUser(id: int, patch: map<Field, Option<string>>) returns (r: Result<UserView, HttpError>)
      requires Valid()
      modifies this
      ensures Valid()
      ensures order == old(order)
      ensures id !in old(rows) ==> r == Err(NotFound) && rows == old(rows)
      ensures id in old(rows) && Integrity(old(rows)[id := Patched(old(rows)[id], patch)]) ==>
                rows == old(rows)[id := Patched(old(rows)[id], patch)] && r == Ok(ViewOf(rows, id))
      ensures id in old(rows) && !Integrity(old(rows)[id := Patched(old(rows)[id], patch)]) ==>
                r == Err(InvalidData) && rows == old(rows)
    {
      if id !in rows {
        return Err(NotFound);
      }
      var staged := rows[id];
      var pending := patch.Keys;
      while pending != {}
        invariant pending <= patch.Keys
        invariant rows == old(rows) && order == old(order)
        invariant staged == Patched(rows[id], map f | f in patch.Keys - pending :: patch[f])
        decreases pending
      {
        var field :| field in pending;
        AssignPatched(rows[id], map f | f in patch.Keys - pending :: patch[f], field, patch[field]);
        assert (map f | f in patch.Keys - pending :: patch[f])[field := patch[field]]
            == map f | f in patch.Keys - (pending - {field}) :: patch[f];
        staged := Assign(staged, field, patch[field]);
        pending := pending - {field};
      }
      assert (map f | f in patch.Keys - pending :: patch[f]) == patch;
      if !Integrity(rows[id := staged]) {
        return Err(InvalidData);
      }
      assert forall x :: x in rows[id := staged] <==> x in rows;
      rows := rows[id := staged];
      return Ok(ViewOf(rows, id));
    }

    /** `delete_user(user_id)`: 404 for an unknown id; otherwise the row is gone and a
        later `get_user` on the id answers 404. */
    method DeleteUser(id: int) returns (r: Result<(), HttpError>)
      requires Valid()
      modifies this
      ensures Valid()
      ensures id !in old(rows) ==> r == Err(NotFound) && rows == old(rows) && order == old(order)
      ensures id in old(rows) ==> r == Ok(()) && rows == old(rows) - {id} && order == Remove(old(order), id)
      ensures id !in rows
    {
      if id !in rows {
        return Err(NotFound);
      }
      RemoveOrdered(order, id);
      IntegrityWithout(rows, id);
      rows, order := rows - {id}, Remove(order, id);
      return Ok(());
    }
  }
}
