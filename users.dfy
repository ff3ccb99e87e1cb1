/** The `users` table: lookup by phone number and by id, creation from a phone number,
    and the profile update. */
module Users {
  import opened Common

  /** One row of `users`; `username` and `profile_picture` start out NULL. */
  datatype User = User(id: Id, phoneNumber: string, username: Option<string>, profilePicture: Option<string>)

  /** What a login token carries (`jwt.sign({ id, phoneNumber })`), and what a socket
      holds as its user once the token verifies. */
  datatype Claims = Claims(id: Id, phoneNumber: string)

  function UserIdOf(u: User): int { u.id }

  /** `findByPhone`: the first row with that phone number, or nothing. */
  function FindByPhone(rows: seq<User>, phoneNumber: string): (r: Option<User>)
    ensures r.Some? ==> r.value in rows && r.value.phoneNumber == phoneNumber
    ensures r.None? <==> forall u :: u in rows ==> u.phoneNumber != phoneNumber
  {
    FindFirst(rows, (u: User) => u.phoneNumber == phoneNumber)
  }

  /** `findById`: the row with that id, or nothing. */
  function FindById(rows: seq<User>, id: Id): (r: Option<User>)
    ensures r.Some? ==> r.value in rows && r.value.id == id
    ensures r.None? <==> forall u :: u in rows ==> u.id != id
  {
    FindFirst(rows, (u: User) => u.id == id)
  }

  /** Ids are unique when the table is in id order. */
  lemma {:induction false} UniqueIds(rows: seq<User>, u: User, v: User)
    requires Increasing(rows, UserIdOf)
    requires u in rows && v in rows && u.id == v.id
    ensures u == v
  {
    var i :| 0 <= i < |rows| && rows[i] == u;
    var j :| 0 <= j < |rows| && rows[j] == v;
    assert UserIdOf(rows[i]) == UserIdOf(rows[j]);
  }

  /** The row `create` appends is what `findById` then returns for the new id. */
  lemma CreatedUserIsFound(rows: seq<User>, added: User)
    requires forall u :: u in rows ==> u.id < added.id
    ensures FindById(rows + [added], added.id) == Some(added)
  {
    var r := FindById(rows + [added], added.id);
    assert added in rows + [added];
    assert r.value in rows + [added];
    assert r.value !in rows;
  }

  /** The table after `updateProfile(id, username, profilePicture)`. */
  function ProfileUpdated(rows: seq<User>, id: Id, username: Option<string>, profilePicture: Option<string>): (r: seq<User>)
    ensures |r| == |rows|
    ensures forall i :: 0 <= i < |rows| && rows[i].id != id ==> r[i] == rows[i]
    ensures forall i :: 0 <= i < |rows| && rows[i].id == id ==>
              r[i] == User(id, rows[i].phoneNumber, username, profilePicture)
  {
    seq(|rows|, i requires 0 <= i < |rows| =>
      if rows[i].id == id then rows[i].(username := username, profilePicture := profilePicture) else rows[i])
  }

  /** After a profile update, looking the user up again gives the old row with the new
      username and picture; the phone number and id stay. */
  lemma ProfileUpdateIsVisible(rows: seq<User>, id: Id, username: Option<string>, profilePicture: Option<string>)
    requires Increasing(rows, UserIdOf)
    requires FindById(rows, id).Some?
    ensures var before := FindById(rows, id).value;
            FindById(ProfileUpdated(rows, id, username, profilePicture), id)
              == Some(User(id, before.phoneNumber, username, profilePicture))
  {
    var before := FindById(rows, id).value;
    var after := ProfileUpdated(rows, id, username, profilePicture);
    var i :| 0 <= i < |rows| && rows[i] == before;
    assert after[i] in after;
    var found := FindById(after, id).value;
    var j :| 0 <= j < |after| && after[j] == found;
    assert rows[j].id == id;
    UniqueIds(rows, rows[i], rows[j]);
  }

  class UserTable {
    var rows: seq<User>
    var nextId: Id

    /** Rows are in id order and every id is below the auto-increment counter. */
    ghost predicate Valid()
      reads this
    {
      Increasing(rows, UserIdOf) && forall u :: u in rows ==> u.id < nextId
    }

    constructor ()
      ensures Valid() && rows == [] && nextId == 1
    {
      rows := [];
      nextId := 1;
    }

    /** `create`: insert a user with that phone number under a fresh id; return the id. */
    method Create(phoneNumber: string) returns (id: Id)
      requires Valid()
      modifies this
      ensures Valid()
      ensures id == old(nextId) && nextId == old(nextId) + 1
      ensures rows == old(rows) + [User(id, phoneNumber, None, None)]
      ensures FindById(rows, id) == Some(User(id, phoneNumber, None, None))
    {
      id := nextId;
      CreatedUserIsFound(rows, User(id, phoneNumber, None, None));
      rows := rows + [User(id, phoneNumber, None, None)];
      nextId := nextId + 1;
    }

    /** `updateProfile`: set username and picture of the row with that id; no other row changes. */
    method UpdateProfile(id: Id, username: Option<string>, profilePicture: Option<string>)
      requires Valid()
      modifies this`rows
      ensures Valid()
      ensures rows == ProfileUpdated(old(rows), id, username, profilePicture)
    {
      var before := rows;
      rows := ProfileUpdated(rows, id, username, profilePicture);
      forall u | u in rows ensures u.id < nextId {
        var i :| 0 <= i < |rows| && rows[i] == u;
        assert before[i] in before;
      }
      forall i, j | 0 <= i < j < |rows| ensures UserIdOf(rows[i]) < UserIdOf(rows[j]) {
        assert UserIdOf(before[i]) < UserIdOf(before[j]);
      }
    }
  }
}
