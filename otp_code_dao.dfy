/**
 * The `codes` table and its data-access object: one method per SQL
 * statement, each stated as the table it leaves behind. The functions
 * say what each statement's WHERE/SET clauses do to a sequence of rows in
 * table order; the lemmas state the interface's promises about them.
 */
module OtpCodeDao {
  import opened Model
  import opened Tables
  import opened OtpCodeEntity

  /** A row of the codes table (id and created_at are always filled in once stored). */
  datatype CodeRow = CodeRow(id: int, userId: int, operationNumber: int, code: string,
                             status: Status, createdAt: int)

  function RowId(r: CodeRow): int { r.id }

  /** `WHERE user_id = ?` */
  function OfUser(userId: int): CodeRow -> bool { (r: CodeRow) => r.userId == userId }

  /** `WHERE user_id <> ?`, the rows a `DELETE ... WHERE user_id = ?` keeps. */
  function NotOfUser(userId: int): CodeRow -> bool { (r: CodeRow) => r.userId != userId }

  /** Index of the first row (in table order) holding code `c`. */
  function FirstIndexOfCode(rows: seq<CodeRow>, c: string): (r: Option<nat>)
    ensures r.Some? ==> r.value < |rows| && rows[r.value].code == c
    ensures r.Some? ==> forall j :: 0 <= j < r.value ==> rows[j].code != c
    ensures r.None? <==> forall j :: 0 <= j < |rows| ==> rows[j].code != c
    decreases |rows|
  {
    if rows == [] then None
    else if rows[0].code == c then Some(0)
    else match FirstIndexOfCode(rows[1..], c)
      case None => None
      case Some(k) => Some(k + 1)
  }

  /** `SELECT ... WHERE code = ?`, first row read: the first matching row in table order, if any. */
  function FirstWithCode(rows: seq<CodeRow>, c: string): (r: Option<CodeRow>)
  {
    match FirstIndexOfCode(rows, c)
    case None => None
    case Some(i) => Some(rows[i])
  }

  /** Two tables that differ at most in the status column. */
  predicate SameButStatus(a: seq<CodeRow>, b: seq<CodeRow>)
  {
    |a| == |b| && forall i :: 0 <= i < |a| ==> a[i] == b[i].(status := a[i].status)
  }

  /** `UPDATE codes SET status = 'USED' WHERE id = ?` */
  function MarkedUsed(rows: seq<CodeRow>, id: int): (r: seq<CodeRow>)
    ensures SameButStatus(r, rows)
  {
    seq(|rows|, i requires 0 <= i < |rows| =>
      if rows[i].id == id then rows[i].(status := USED) else rows[i])
  }

  /** `UPDATE codes SET status = 'EXPIRED' WHERE status = 'ACTIVE' AND created_at < ?` */
  function ExpiredBefore(rows: seq<CodeRow>, threshold: int): (r: seq<CodeRow>)
    ensures SameButStatus(r, rows)
  {
    seq(|rows|, i requires 0 <= i < |rows| =>
      if rows[i].status == ACTIVE && rows[i].createdAt < threshold then rows[i].(status := EXPIRED)
      else rows[i])
  }

  /** The created_at `save` stores: the object's own, or the current time when it has none. */
  function StampOf(createdAt: Option<int>, now: int): int
  {
    match createdAt
    case Some(t) => t
    case None => now
  }

  /** Every ACTIVE row of `after` is a row of `before`, unchanged: nothing re-activates a row. */
  ghost predicate NoNewActive(before: seq<CodeRow>, after: seq<CodeRow>)
  {
    forall i :: 0 <= i < |after| && after[i].status == ACTIVE ==> after[i] in before
  }

  // ---------------------------------------------------------------------
  // The interface's promises, stated of the statements above.

  /** `findByCode` returns a row holding the code, or nothing exactly when no row holds it. */
  lemma FindByCodeContract(rows: seq<CodeRow>, c: string)
    ensures FirstWithCode(rows, c).Some? ==> FirstWithCode(rows, c).value in rows
    ensures FirstWithCode(rows, c).Some? ==> FirstWithCode(rows, c).value.code == c
    ensures FirstWithCode(rows, c).None? <==> forall r :: r in rows ==> r.code != c
  {
  }

  /** A status-only update leaves the first row holding a code where it was. */
  lemma FirstIndexStable(a: seq<CodeRow>, b: seq<CodeRow>, c: string)
    requires SameButStatus(a, b)
    ensures FirstIndexOfCode(a, c) == FirstIndexOfCode(b, c)
  {
    var ia, ib := FirstIndexOfCode(a, c), FirstIndexOfCode(b, c);
    if ia.Some? {
      assert b[ia.value].code == c;
    }
    if ib.Some? {
      assert a[ib.value].code == c;
    }
  }

  /** `findAllByUser` returns exactly the rows of that user, in table order. */
  lemma FindAllByUserContract(rows: seq<CodeRow>, userId: int)
    ensures forall r :: r in Filter(rows, OfUser(userId)) <==> r in rows && r.userId == userId
  {
  }

  /**
   * `markAsUsed` sets USED on the row with that id whatever its prior status,
   * leaves every other row as it was, and changes nothing for an unknown id.
   */
  lemma MarkAsUsedContract(rows: seq<CodeRow>, id: int)
    ensures |MarkedUsed(rows, id)| == |rows|
    ensures forall i :: 0 <= i < |rows| && rows[i].id == id ==>
      MarkedUsed(rows, id)[i].status == USED && MarkedUsed(rows, id)[i].(status := rows[i].status) == rows[i]
    ensures forall i :: 0 <= i < |rows| && rows[i].id != id ==> MarkedUsed(rows, id)[i] == rows[i]
    ensures (forall r :: r in rows ==> r.id != id) ==> MarkedUsed(rows, id) == rows
  {
  }

  /** As written, an EXPIRED row given to `markAsUsed` becomes USED. */
  lemma MarkAsUsedOverridesExpired(rows: seq<CodeRow>, i: nat)
    requires i < |rows| && rows[i].status == EXPIRED
    ensures MarkedUsed(rows, rows[i].id)[i].status == USED
  {
  }

  /**
   * `markAsExpiredOlderThan` turns exactly the ACTIVE rows created before the
   * threshold into EXPIRED; USED rows, EXPIRED rows and newer rows stay as they were.
   */
  lemma ExpireContract(rows: seq<CodeRow>, threshold: int)
    ensures |ExpiredBefore(rows, threshold)| == |rows|
    ensures forall i :: 0 <= i < |rows| ==>
      ExpiredBefore(rows, threshold)[i].status ==
        (if rows[i].status == ACTIVE && rows[i].createdAt < threshold then EXPIRED else rows[i].status)
    ensures forall i :: 0 <= i < |rows| && !(rows[i].status == ACTIVE && rows[i].createdAt < threshold) ==>
      ExpiredBefore(rows, threshold)[i] == rows[i]
  {
  }

  /**
   * The interface's wording, "every code with createdAt + ttl < now becomes
   * EXPIRED", against the statement's `created_at < now - ttl`: no such row is
   * left ACTIVE, and each one that was not USED is EXPIRED.
   */
  lemma ExpireMatchesInterface(rows: seq<CodeRow>, ttl: int, now: int)
    ensures forall i :: 0 <= i < |rows| && rows[i].createdAt + ttl < now ==>
      ExpiredBefore(rows, now - ttl)[i].status == (if rows[i].status == USED then USED else EXPIRED)
  {
  }

  /** Repeating the bulk expiry at the same instant changes nothing. */
  lemma ExpireIdempotent(rows: seq<CodeRow>, threshold: int)
    ensures ExpiredBefore(ExpiredBefore(rows, threshold), threshold) == ExpiredBefore(rows, threshold)
  {
  }

  /** `deleteAllByUserId` removes exactly that user's rows and keeps every other row. */
  lemma DeleteAllByUserContract(rows: seq<CodeRow>, userId: int)
    ensures forall r :: r in Filter(rows, NotOfUser(userId)) <==> r in rows && r.userId != userId
    ensures Filter(Filter(rows, NotOfUser(userId)), OfUser(userId)) == []
  {
    FilterNoneOrAll(Filter(rows, NotOfUser(userId)), OfUser(userId));
  }

  /** No update statement writes ACTIVE: ACTIVE rows only enter the table by insertion. */
  lemma {:induction false} UpdatesNeverActivate(rows: seq<CodeRow>, id: int, threshold: int, userId: int)
    ensures NoNewActive(rows, MarkedUsed(rows, id))
    ensures NoNewActive(rows, ExpiredBefore(rows, threshold))
    ensures NoNewActive(rows, Filter(rows, NotOfUser(userId)))
  {
    forall i | 0 <= i < |rows| && MarkedUsed(rows, id)[i].status == ACTIVE
      ensures MarkedUsed(rows, id)[i] in rows
    {
      assert MarkedUsed(rows, id)[i] == rows[i];
    }
    forall i | 0 <= i < |rows| && ExpiredBefore(rows, threshold)[i].status == ACTIVE
      ensures ExpiredBefore(rows, threshold)[i] in rows
    {
      assert ExpiredBefore(rows, threshold)[i] == rows[i];
    }
  }

  // ---------------------------------------------------------------------

  /** The codes table; ids come from an identity column and increase in table order. */
  class CodeTable {
    var rows: seq<CodeRow>
    var nextId: int

    ghost predicate Valid()
      reads this
    {
      && 1 <= nextId
      && (forall i :: 0 <= i < |rows| ==> 1 <= rows[i].id < nextId)
      && Increasing(rows, RowId)
    }

    constructor ()
      ensures Valid() && rows == [] && nextId == 1
    {
      rows := [];
      nextId := 1;
    }

    /**
     * `save`: stamps created_at with the current time when the object has
     * none, inserts one row, and writes the generated id back into the object.
     */
    method Save(c: OtpCode, now: int)
      requires Valid()
      modifies this, c
      ensures Valid()
      ensures nextId == old(nextId) + 1
      ensures rows == old(rows) + [CodeRow(old(nextId), old(c.userId), old(c.operationNumber), old(c.code),
                                           old(c.status), StampOf(old(c.createdAt), now))]
      ensures c.id == Some(old(nextId)) && c.createdAt == Some(StampOf(old(c.createdAt), now))
      ensures c.userId == old(c.userId) && c.operationNumber == old(c.operationNumber)
      ensures c.code == old(c.code) && c.status == old(c.status)
    {
      if c.createdAt.None? {
        c.SetCreatedAt(Some(now));
      }
      var row := CodeRow(nextId, c.userId, c.operationNumber, c.code, c.status, c.createdAt.value);
      rows := rows + [row];
      c.SetId(Some(nextId));
      nextId := nextId + 1;
    }

    /** `findByCode`: a row holding the code (the first in table order), or nothing. */
    method FindByCode(code: string) returns (r: Option<CodeRow>)
      ensures r.Some? ==> r.value in rows && r.value.code == code
      ensures r.None? <==> forall x :: x in rows ==> x.code != code
      ensures r == FirstWithCode(rows, code)
    {
      r := FirstWithCode(rows, code);
    }

    /** `findAllByUser`: reads the result set row by row into a list. */
    method FindAllByUser(userId: int) returns (list: seq<CodeRow>)
      ensures forall x :: x in list <==> x in rows && x.userId == userId
      ensures list == Filter(rows, OfUser(userId))
    {
      list := [];
      var i := 0;
      while i < |rows|
        invariant 0 <= i <= |rows|
        invariant list == Filter(rows[..i], OfUser(userId))
      {
        assert rows[..i + 1][..i] == rows[..i];
        if rows[i].userId == userId {
          list := list + [rows[i]];
        }
        i := i + 1;
      }
      assert rows[..i] == rows;
    }

    /** `markAsUsed`: the row with that id becomes USED, whatever its status was. */
    method MarkAsUsed(id: int)
      requires Valid()
      modifies this
      ensures Valid() && nextId == old(nextId)
      ensures rows == MarkedUsed(old(rows), id)
    {
      rows := MarkedUsed(rows, id);
    }

    /** `markAsExpiredOlderThan`: the threshold is the current time minus the TTL. */
    method MarkAsExpiredOlderThan(ttlSeconds: int, now: int)
      requires Valid()
      modifies this
      ensures Valid() && nextId == old(nextId)
      ensures rows == ExpiredBefore(old(rows), now - ttlSeconds)
    {
      var threshold := now - ttlSeconds;
      rows := ExpiredBefore(rows, threshold);
    }

    /** `deleteAllByUserId` */
    method DeleteAllByUserId(userId: int)
      requires Valid()
      modifies this
      ensures Valid() && nextId == old(nextId)
      ensures rows == Filter(old(rows), NotOfUser(userId))
    {
      FilterKeepsIncreasing(rows, NotOfUser(userId), RowId);
      var kept := Filter(rows, NotOfUser(userId));
      assert forall i :: 0 <= i < |kept| ==> kept[i] in rows;
      rows := kept;
    }
  }
}
