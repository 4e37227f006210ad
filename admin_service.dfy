/**
 * The administrator's operations: overwriting the OTP settings, listing the
 * non-administrator users, and deleting a user together with the user's codes.
 */
module AdminService {
  import opened Model
  import opened Tables
  import opened OtpCodeDao
  import opened UserDao
  import opened OtpConfigDao

  /** `updateOtpConfig`: stores id 1 with exactly the given length and lifetime; no range is checked. */
  method UpdateOtpConfig(configs: ConfigTable, length: int, ttlSeconds: int)
    modifies configs
    ensures configs.config == OtpConfig(1, length, ttlSeconds)
  {
    var cfg := OtpConfig(1, length, ttlSeconds);
    configs.UpdateConfig(cfg);
  }

  /** `getAllUsersWithoutAdmins`: the data-access object's listing, unchanged. */
  method GetAllUsersWithoutAdmins(users: UserTable) returns (list: seq<User>)
    ensures forall u :: u in list <==> u in users.rows && u.role != ADMIN
    ensures list == Filter(users.rows, NotAdmin())
  {
    list := users.FindAllUsersWithoutAdmins();
  }

  /** Every code row belongs to a user in the users table. */
  predicate CodesOwned(codes: seq<CodeRow>, users: seq<User>)
  {
    forall r :: r in codes ==> exists u :: u in users && u.id == r.userId
  }

  /** `deleteUserAndCodes`: the user's codes first, then the user. */
  method DeleteUserAndCodes(codes: CodeTable, users: UserTable, userId: int)
    requires codes.Valid() && users.Valid()
    modifies codes, users
    ensures codes.Valid() && users.Valid()
    ensures codes.rows == Filter(old(codes.rows), NotOfUser(userId))
    ensures users.rows == Filter(old(users.rows), NotWithId(userId))
  {
    codes.DeleteAllByUserId(userId);
    users.Delete(userId);
  }

  /**
   * After deleting a user with the user's codes, neither a code of that user
   * nor a user with that id remains, every other code and user is kept, and
   * every remaining code still belongs to a remaining user.
   */
  lemma {:induction false} DeleteUserAndCodesLeavesNoTrace(codes: seq<CodeRow>, users: seq<User>, userId: int)
    ensures var codes' := Filter(codes, NotOfUser(userId));
      var users' := Filter(users, NotWithId(userId));
      && (forall r :: r in codes' <==> r in codes && r.userId != userId)
      && (forall u :: u in users' <==> u in users && u.id != userId)
      && (CodesOwned(codes, users) ==> CodesOwned(codes', users'))
  {
    var codes' := Filter(codes, NotOfUser(userId));
    var users' := Filter(users, NotWithId(userId));
    if CodesOwned(codes, users) {
      forall r | r in codes' ensures exists u :: u in users' && u.id == r.userId {
        var u :| u in users && u.id == r.userId;
        assert u in users';
      }
    }
  }

  /** Deleting the user alone, without the codes, can leave a code with no owner. */
  lemma DeleteUserAloneOrphansCodes()
    ensures var codes := [CodeRow(1, 7, 101, "123456", ACTIVE, 0)];
      var users := [User(7, "alice", "h", "alice@example.org", USER)];
      CodesOwned(codes, users) && !CodesOwned(codes, Filter(users, NotWithId(7)))
  {
    var codes := [CodeRow(1, 7, 101, "123456", ACTIVE, 0)];
    var users := [User(7, "alice", "h", "alice@example.org", USER)];
    assert users[0] in users;
    FilterNoneOrAll(users, NotWithId(7));
    assert codes[0] in codes;
  }
}
