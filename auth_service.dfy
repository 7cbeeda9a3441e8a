/** The user rules of src/services/auth.service.js. Password hashing,
    password comparison and token signing are opaque functions passed in. */
module AuthService {
  import opened Common
  import opened Database
  import opened AuthUtils

  const FieldsRequired := "All fields are required"
  const UserExists := "User already exists"
  /** The lookup failure of loginUser, spelled as the source spells it. */
  const LoginUserNotFound := "User nit fond"
  const InvalidPassword := "Invalid password"
  /** The lookup failure of getUserId, editUser and deleteUser, spelled as the source spells it. */
  const UserNotFound := "User not fond"
  /** The error the unique index on `email` raises when an update would duplicate an address. */
  const EmailTaken := "Unique constraint failed on the fields: (`email`)"

  /** The body registerUser reads. */
  datatype RegisterBody = RegisterBody(
    username: Option<string>, email: Option<string>, password: Option<string>,
    isGuest: Option<bool>, role: Option<string>)

  /** One own property of an editUser body, in `Object.keys` order; `None`
      is a property whose value is `undefined`. */
  datatype Field = Field(key: string, value: Option<Value>)

  /** The row `prisma.user.create` stores for an accepted registration. */
  function NewUserRow(id: int, b: RegisterBody, hashed: string, now: int): (row: Row)
    requires Truthy(b.username) && Truthy(b.email) && Truthy(b.role)
    ensures "id" in row && row["id"] == VInt(id)
    ensures "email" in row && row["email"] == VStr(b.email.value)
    ensures "password" in row && row["password"] == VStr(hashed)
  {
    var row := map["id" := VInt(id), "username" := VStr(b.username.value), "email" := VStr(b.email.value),
                   "password" := VStr(hashed), "role" := VStr(b.role.value),
                   "createdAt" := VInt(now), "updatedAt" := VInt(now)];
    if b.isGuest.Some? then row["isGuest" := VBool(b.isGuest.value)] else row
  }

  /** registerUser: the four fields are required and the email must be
      unused; the stored password is `hash(password)`, and the answer is the
      stored row without its sensitive columns. A refused request writes nothing. */
  method RegisterUser(db: Store, b: RegisterBody, hash: string -> string, now: int) returns (r: Result<Row>)
    requires db.Valid()
    modifies db`users, db`nextId
    ensures db.Valid()
    ensures !(Truthy(b.username) && Truthy(b.email) && Truthy(b.password) && Truthy(b.role)) ==>
      r == Err(FieldsRequired)
    ensures (Truthy(b.username) && Truthy(b.email) && Truthy(b.password) && Truthy(b.role) &&
             old(db.UserWithEmail(b.email.value)).Some?) ==> r == Err(UserExists)
    ensures r.Err? ==> db.users == old(db.users) && db.nextId == old(db.nextId)
    ensures r.Ok? <==>
      Truthy(b.username) && Truthy(b.email) && Truthy(b.password) && Truthy(b.role) &&
      old(db.UserWithEmail(b.email.value)).None?
    ensures r.Ok? ==>
      && db.users == old(db.users)[old(db.nextId) := NewUserRow(old(db.nextId), b, hash(b.password.value), now)]
      && db.users[old(db.nextId)]["password"] == VStr(hash(b.password.value))
      && r.value == Sanitize(db.users[old(db.nextId)])
      && db.nextId == old(db.nextId) + 1
  {
    if !(Truthy(b.username) && Truthy(b.email) && Truthy(b.password) && Truthy(b.role)) {
      return Err(FieldsRequired);
    }
    var existing := db.UserWithEmail(b.email.value);
    if existing.Some? {
      return Err(UserExists);
    }
    var row := NewUserRow(db.nextId, b, hash(b.password.value), now);
    UniqueEmailInsert(db.users, db.nextId, row, b.email.value);
    InsertUser(db, row);
    r := Ok(Sanitize(row));
  }

  /** The insertion of a new user row under the next id. */
  method InsertUser(db: Store, row: Row)
    requires db.Valid()
    requires "id" in row && row["id"] == VInt(db.nextId)
    requires EmailsUnique(db.users[db.nextId := row])
    modifies db`users, db`nextId
    ensures db.Valid()
    ensures db.users == old(db.users)[old(db.nextId) := row] && db.nextId == old(db.nextId) + 1
  {
    db.users := db.users[db.nextId := row];
    db.nextId := db.nextId + 1;
  }

  /** Adding a row whose email no stored user has keeps emails unique. */
  lemma UniqueEmailInsert(users: map<int, Row>, id: int, row: Row, email: string)
    requires EmailsUnique(users) && id !in users
    requires "email" in row && row["email"] == VStr(email)
    requires !(exists k :: k in users && HasEmail(users[k], email))
    ensures EmailsUnique(users[id := row])
  {
  }

  /** loginUser: both fields are required, the email must be stored, and
      `compare(password, stored hash)` must hold; then the answer is the
      token signed over the user's id and role. */
  function LoginUser(db: Store, email: Option<string>, password: Option<string>,
                     compare: (string, Value) -> bool, sign: (int, Value) -> string): (r: Result<string>)
    reads db
    requires db.Valid()
    ensures r == Err(FieldsRequired) <==> !(Truthy(email) && Truthy(password))
    ensures r == Err(LoginUserNotFound) <==>
      Truthy(email) && Truthy(password) && !(exists k :: k in db.users && HasEmail(db.users[k], email.value))
    ensures r.Ok? ==>
      Truthy(email) && Truthy(password) &&
      exists k :: k in db.users && HasEmail(db.users[k], email.value) &&
        compare(password.value, Column(db.users[k], "password").GetOr(VNull)) &&
        r.value == sign(k, Column(db.users[k], "role").GetOr(VNull))
    ensures forall k :: Truthy(email) && Truthy(password) && k in db.users && HasEmail(db.users[k], email.value) ==>
      if compare(password.value, Column(db.users[k], "password").GetOr(VNull))
      then r == Ok(sign(k, Column(db.users[k], "role").GetOr(VNull)))
      else r == Err(InvalidPassword)
  {
    if !(Truthy(email) && Truthy(password)) then Err(FieldsRequired)
    else match db.UserWithEmail(email.value)
      case None => Err(LoginUserNotFound)
      case Some(k) =>
        var user := db.users[k];
        if !compare(password.value, Column(user, "password").GetOr(VNull)) then Err(InvalidPassword)
        else Ok(sign(k, Column(user, "role").GetOr(VNull)))
  }

  /** getUserId as written: the sanitized copy is computed and dropped, and
      the stored row itself is answered, password hash included. */
  function GetUserIdAsWritten(db: Store, id: int): (r: Result<Row>)
    reads db
    requires db.Valid()
    ensures r.Err? <==> id !in db.users
    ensures r.Err? ==> r.message == UserNotFound
    ensures r.Ok? ==> r.value == db.users[id]
  {
    if id in db.users then Ok(db.users[id]) else Err(UserNotFound)
  }

  /** The answer of getUserId as written carries the password column of any
      user that has one. */
  lemma GetUserIdAsWrittenLeaksPassword(db: Store, id: int)
    requires db.Valid()
    requires id in db.users && "password" in db.users[id]
    ensures GetUserIdAsWritten(db, id).Ok? && "password" in GetUserIdAsWritten(db, id).value
  {
  }

  /** getUserId as evidently intended: the sanitized user, or "User not fond". */
  function GetUserId(db: Store, id: int): (r: Result<Row>)
    reads db
    requires db.Valid()
    ensures r.Err? <==> id !in db.users
    ensures r.Err? ==> r.message == UserNotFound
    ensures r.Ok? ==> r.value == Sanitize(db.users[id]) && r.value["id"] == VInt(id)
    ensures r.Ok? ==> "password" !in r.value && "email" !in r.value
  {
    if id in db.users then Ok(Sanitize(db.users[id])) else Err(UserNotFound)
  }

  /** Some property of the body with key `k` has a defined value. */
  predicate Defines(fields: seq<Field>, k: string) {
    exists i :: 0 <= i < |fields| && fields[i].key == k && fields[i].value.Some?
  }

  /** Each key occurs once, as `Object.keys` lists it. */
  ghost predicate DistinctKeys(fields: seq<Field>) {
    forall i, j :: 0 <= i < j < |fields| ==> fields[i].key != fields[j].key
  }

  /** The user after the `forEach` of editUser has run over the whole body:
      each defined property, in order, is copied onto the user. */
  function Merged(user: Row, fields: seq<Field>): Row
    decreases |fields|
  {
    if |fields| == 0 then user
    else
      var prior := Merged(user, fields[..|fields| - 1]);
      var f := fields[|fields| - 1];
      if f.value.Some? then prior[f.key := f.value.value] else prior
  }

  /** The merge adds exactly the defined keys and keeps every column that no
      defined property names. */
  lemma {:induction false} MergedKeeps(user: Row, fields: seq<Field>)
    ensures forall k :: k in Merged(user, fields) <==> k in user || Defines(fields, k)
    ensures forall k :: k in user && !Defines(fields, k) ==> Merged(user, fields)[k] == user[k]
    decreases |fields|
  {
    if |fields| > 0 {
      var init := fields[..|fields| - 1];
      var f := fields[|fields| - 1];
      MergedKeeps(user, init);
      forall k ensures Defines(fields, k) <==> Defines(init, k) || (f.key == k && f.value.Some?) {
        if Defines(fields, k) {
          var i :| 0 <= i < |fields| && fields[i].key == k && fields[i].value.Some?;
          if i < |fields| - 1 {
            assert init[i] == fields[i];
          }
        }
        if Defines(init, k) {
          var i :| 0 <= i < |init| && init[i].key == k && init[i].value.Some?;
          assert fields[i] == init[i];
        }
      }
    }
  }

  /** With distinct keys, every defined property's value ends up on the user. */
  lemma {:induction false} MergedSets(user: Row, fields: seq<Field>)
    requires DistinctKeys(fields)
    ensures forall i :: 0 <= i < |fields| && fields[i].value.Some? ==>
      fields[i].key in Merged(user, fields) && Merged(user, fields)[fields[i].key] == fields[i].value.value
    decreases |fields|
  {
    if |fields| > 0 {
      var init := fields[..|fields| - 1];
      assert DistinctKeys(init) by {
        forall i, j | 0 <= i < j < |init| ensures init[i].key != init[j].key {
          assert init[i] == fields[i] && init[j] == fields[j];
        }
      }
      MergedSets(user, init);
      forall i | 0 <= i < |fields| && fields[i].value.Some?
        ensures fields[i].key in Merged(user, fields) && Merged(user, fields)[fields[i].key] == fields[i].value.value
      {
        if i < |fields| - 1 {
          assert init[i] == fields[i];
          assert fields[i].key != fields[|fields| - 1].key;
        }
      }
    }
  }

  /** The `forEach` loop of editUser, copying each defined property onto the user in turn. */
  method MergeFields(user: Row, fields: seq<Field>) returns (u: Row)
    ensures u == Merged(user, fields)
  {
    u := user;
    var i := 0;
    while i < |fields|
      invariant 0 <= i <= |fields|
      invariant u == Merged(user, fields[..i])
    {
      assert fields[..i + 1][..i] == fields[..i];
      if fields[i].value.Some? {
        u := u[fields[i].key := fields[i].value.value];
      }
      i := i + 1;
    }
    assert fields[..|fields|] == fields;
  }

  /** Some other stored user already has the email the row would carry. */
  predicate EmailClash(users: map<int, Row>, id: int, row: Row) {
    "email" in row && row["email"].VStr? &&
    exists k | k in users :: k != id && HasEmail(users[k], row["email"].s)
  }

  /** editUser: the body must carry an id and the user must exist (a body
      without one is an id of NaN, which finds no user); every defined body
      property is copied onto it, the rest of its columns are kept, and the
      merged row is stored and answered unsanitized. `id` is the body's
      numeric `id`. */
  method EditUser(db: Store, id: int, fields: seq<Field>) returns (r: Result<Row>)
    requires db.Valid()
    requires forall i :: 0 <= i < |fields| && fields[i].key == "id" ==> fields[i].value == Some(VInt(id))
    modifies db`users
    ensures db.Valid()
    ensures !Defines(fields, "id") || id !in old(db.users) ==> r == Err(UserNotFound)
    ensures (Defines(fields, "id") && id in old(db.users) &&
             EmailClash(old(db.users), id, Merged(old(db.users)[id], fields))) ==>
      r == Err(EmailTaken)
    ensures r.Err? ==> db.users == old(db.users)
    ensures (Defines(fields, "id") && id in old(db.users) &&
             !EmailClash(old(db.users), id, Merged(old(db.users)[id], fields))) ==>
      && r == Ok(Merged(old(db.users)[id], fields))
      && db.users == old(db.users)[id := r.value]
  {
    if !Defines(fields, "id") || id !in db.users {
      return Err(UserNotFound);
    }
    var user := MergeFields(db.users[id], fields);
    if EmailClash(db.users, id, user) {
      return Err(EmailTaken);
    }
    MergedKeeps(db.users[id], fields);
    var i :| 0 <= i < |fields| && fields[i].key == "id" && fields[i].value.Some?;
    MergedFinalId(db.users[id], fields, i, id);
    UniqueEmailReplace(db.users, id, user);
    ReplaceUser(db, id, user);
    r := Ok(user);
  }

  /** The write of an edited user row over the stored one. */
  method ReplaceUser(db: Store, id: int, row: Row)
    requires db.Valid() && id in db.users
    requires "id" in row && row["id"] == VInt(id)
    requires EmailsUnique(db.users[id := row])
    modifies db`users
    ensures db.Valid()
    ensures db.users == old(db.users)[id := row]
  {
    db.users := db.users[id := row];
  }

  /** Replacing a row by one whose email no other user has keeps emails unique. */
  lemma UniqueEmailReplace(users: map<int, Row>, id: int, row: Row)
    requires EmailsUnique(users) && id in users
    requires !EmailClash(users, id, row)
    ensures EmailsUnique(users[id := row])
  {
    var updated := users[id := row];
    forall a, b, e | a in updated && b in updated && HasEmail(updated[a], e) && HasEmail(updated[b], e)
      ensures a == b
    {
    }
  }

  /** A body whose every `id` property is the user's id leaves the id column as that id. */
  lemma {:induction false} MergedFinalId(user: Row, fields: seq<Field>, i: int, id: int)
    requires 0 <= i < |fields| && fields[i].key == "id" && fields[i].value.Some?
    requires forall j :: 0 <= j < |fields| && fields[j].key == "id" ==> fields[j].value == Some(VInt(id))
    ensures "id" in Merged(user, fields) && Merged(user, fields)["id"] == VInt(id)
    decreases |fields|
  {
    var init := fields[..|fields| - 1];
    var f := fields[|fields| - 1];
    if !(f.key == "id" && f.value.Some?) {
      assert i < |fields| - 1;
      assert init[i] == fields[i];
      forall j | 0 <= j < |init| && init[j].key == "id" ensures init[j].value == Some(VInt(id)) {
        assert init[j] == fields[j];
      }
      MergedFinalId(user, init, i, id);
    }
  }

  /** After an accepted edit the user carries each defined property's value
      and keeps every column no defined property names. */
  lemma EditMergesDefinedFields(user: Row, fields: seq<Field>)
    requires DistinctKeys(fields)
    ensures forall i :: 0 <= i < |fields| && fields[i].value.Some? ==>
      fields[i].key in Merged(user, fields) && Merged(user, fields)[fields[i].key] == fields[i].value.value
    ensures forall k :: k in user && !Defines(fields, k) ==> k in Merged(user, fields) && Merged(user, fields)[k] == user[k]
    ensures forall k :: k in Merged(user, fields) ==> k in user || Defines(fields, k)
  {
    MergedSets(user, fields);
    MergedKeeps(user, fields);
  }

  /** deleteUser as written: the `delete` query is built but never awaited,
      so it never runs; the call answers true and the user stays stored. */
  method DeleteUserAsWritten(db: Store, id: int) returns (r: Result<bool>)
    requires db.Valid()
    ensures id !in db.users ==> r == Err(UserNotFound)
    ensures id in db.users ==> r == Ok(true) && id in db.users
  {
    if id !in db.users {
      return Err(UserNotFound);
    }
    r := Ok(true);
  }

  /** deleteUser as evidently intended: the user must exist, and is then removed. */
  method DeleteUser(db: Store, id: int) returns (r: Result<bool>)
    requires db.Valid()
    modifies db`users
    ensures db.Valid()
    ensures id !in old(db.users) ==> r == Err(UserNotFound) && db.users == old(db.users)
    ensures id in old(db.users) ==> r == Ok(true) && db.users == old(db.users) - {id} && id !in db.users
  {
    if id !in db.users {
      return Err(UserNotFound);
    }
    db.users := db.users - {id};
    r := Ok(true);
  }
}
