/**
 * The `users` table and its data-access object: insert, password update,
 * lookups by username and id, the non-admin listing, the admin-existence
 * query and delete, each stated as what its SQL does to the rows.
 */
module UserDao {
  import opened Model
  import opened Tables

  function UserId(u: User): int { u.id }

  /** `WHERE username = ?` */
  function Named(username: string): User -> bool { (u: User) => u.username == username }

  /** `WHERE id = ?` */
  function WithId(id: int): User -> bool { (u: User) => u.id == id }

  /** `WHERE id <> ?`, the rows a `DELETE ... WHERE id = ?` keeps. */
  function NotWithId(id: int): User -> bool { (u: User) => u.id != id }

  /** `WHERE role <> 'ADMIN'` */
  function NotAdmin(): User -> bool { (u: User) => u.role != ADMIN }

  /** Some user has role ADMIN. */
  predicate HasAdmin(rows: seq<User>)
  {
    exists i :: 0 <= i < |rows| && rows[i].role == ADMIN
  }

  /** `UPDATE users SET password_hash = ? WHERE id = ?` */
  function WithPassword(rows: seq<User>, id: int, hash: string): (r: seq<User>)
  {
    seq(|rows|, i requires 0 <= i < |rows| =>
      if rows[i].id == id then rows[i].(passwordHash := hash) else rows[i])
  }

  /** The password update rewrites only the password hash, and only on the rows with that id. */
  lemma WithPasswordContract(rows: seq<User>, id: int, hash: string)
    ensures |WithPassword(rows, id, hash)| == |rows|
    ensures forall i :: 0 <= i < |rows| && rows[i].id == id ==>
      WithPassword(rows, id, hash)[i] == rows[i].(passwordHash := hash)
    ensures forall i :: 0 <= i < |rows| && rows[i].id != id ==> WithPassword(rows, id, hash)[i] == rows[i]
  {
  }

  /** `findAllUsersWithoutAdmins` lists exactly the users whose role is not ADMIN. */
  lemma NonAdminListing(rows: seq<User>)
    ensures forall u :: u in Filter(rows, NotAdmin()) <==> u in rows && u.role != ADMIN
    ensures !HasAdmin(rows) ==> Filter(rows, NotAdmin()) == rows
  {
    FilterNoneOrAll(rows, NotAdmin());
  }

  /** `delete` removes the rows with that id and keeps every other row. */
  lemma DeleteContract(rows: seq<User>, id: int)
    ensures forall u :: u in Filter(rows, NotWithId(id)) <==> u in rows && u.id != id
    ensures First(Filter(rows, NotWithId(id)), WithId(id)).None?
    ensures (forall u :: u in rows ==> u.id != id) ==> Filter(rows, NotWithId(id)) == rows
  {
    FilterNoneOrAll(rows, NotWithId(id));
  }

  /** The users table; ids come from an identity column and increase in table order. */
  class UserTable {
    var rows: seq<User>
    var nextId: int

    ghost predicate Valid()
      reads this
    {
      && 1 <= nextId
      && (forall i :: 0 <= i < |rows| ==> 1 <= rows[i].id < nextId)
      && Increasing(rows, UserId)
    }

    constructor ()
      ensures Valid() && rows == [] && nextId == 1
    {
      rows := [];
      nextId := 1;
    }

    /** `create`: inserts one row (the object's own id is not written) and returns the generated id. */
    method Create(user: User) returns (id: int)
      requires Valid()
      modifies this
      ensures Valid() && nextId == old(nextId) + 1
      ensures id == old(nextId)
      ensures rows == old(rows) + [user.(id := id)]
    {
      id := nextId;
      rows := rows + [user.(id := id)];
      nextId := nextId + 1;
    }

    /** `save`: rewrites the password hash of the row with the user's id; no such row is an error. */
    method Save(user: User) returns (outcome: Result<nat>)
      requires Valid()
      modifies this
      ensures Valid() && nextId == old(nextId)
      ensures outcome.Ok? <==> exists i :: 0 <= i < |old(rows)| && old(rows)[i].id == user.id
      ensures outcome.Ok? ==> outcome.value == 1 && rows == WithPassword(old(rows), user.id, user.passwordHash)
      ensures outcome.Err? ==> rows == old(rows) && outcome.fault.Runtime?
    {
      var target := First(rows, WithId(user.id));
      if target.None? {
        assert forall i :: 0 <= i < |rows| ==> rows[i] in rows;
        outcome := Err(Runtime("Saving user password failed, no rows affected."));
        return;
      }
      assert exists i :: 0 <= i < |rows| && rows[i] == target.value;
      rows := WithPassword(rows, user.id, user.passwordHash);
      outcome := Ok(1);
    }

    /** `findByUsername` */
    method FindByUsername(username: string) returns (r: Option<User>)
      ensures r.Some? ==> r.value in rows && r.value.username == username
      ensures r.None? <==> forall u :: u in rows ==> u.username != username
      ensures r == First(rows, Named(username))
    {
      r := First(rows, Named(username));
    }

    /** `findById` */
    method FindById(id: int) returns (r: Option<User>)
      ensures r.Some? ==> r.value in rows && r.value.id == id
      ensures r.None? <==> forall u :: u in rows ==> u.id != id
      ensures r == First(rows, WithId(id))
    {
      r := First(rows, WithId(id));
    }

    /** `findAllUsersWithoutAdmins`: reads the result set row by row into a list. */
    method FindAllUsersWithoutAdmins() returns (users: seq<User>)
      ensures forall u :: u in users <==> u in rows && u.role != ADMIN
      ensures users == Filter(rows, NotAdmin())
    {
      users := [];
      var i := 0;
      while i < |rows|
        invariant 0 <= i <= |rows|
        invariant users == Filter(rows[..i], NotAdmin())
      {
        assert rows[..i + 1][..i] == rows[..i];
        if rows[i].role != ADMIN {
          users := users + [rows[i]];
        }
        i := i + 1;
      }
      assert rows[..i] == rows;
    }

    /** `adminExists`: whether `SELECT 1 ... WHERE role = 'ADMIN' LIMIT 1` yields a row. */
    method AdminExists() returns (exists_: bool)
      ensures exists_ <==> exists u :: u in rows && u.role == ADMIN
      ensures exists_ == HasAdmin(rows)
    {
      exists_ := exists i | 0 <= i < |rows| :: rows[i].role == ADMIN;
    }

    /** `delete`: removes the row with that id; no matching row is not an error. */
    method Delete(id: int)
      requires Valid()
      modifies this
      ensures Valid() && nextId == old(nextId)
      ensures rows == Filter(old(rows), NotWithId(id))
    {
      FilterKeepsIncreasing(rows, NotWithId(id), UserId);
      var kept := Filter(rows, NotWithId(id));
      assert forall i :: 0 <= i < |kept| ==> kept[i] in rows;
      rows := kept;
    }
  }
}
