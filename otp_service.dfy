/**
 * The OTP engine: issuing a code of the configured length, sending it to the
 * user, the read-only and the consuming validators with their lazy expiry,
 * and the bulk expiry the sweeper runs.
 *
 * The clock is the `now` parameter (seconds), the random digits are the
 * `draws` parameter, and the notification sender's outcome is the
 * `deliveryFault` parameter.
 */
module OtpService {
  import opened Model
  import opened Tables
  import opened OtpCodeEntity
  import opened OtpCodeDao
  import opened UserDao
  import opened OtpConfigDao

  /** Random draws as `SecureRandom.nextInt(10)` produces them. */
  predicate DecimalDraws(draws: seq<int>)
  {
    forall k :: 0 <= k < |draws| ==> 0 <= draws[k] < 10
  }

  /** The code built from the first `n` draws, one decimal digit per draw. */
  function DigitCode(draws: seq<int>, n: nat): (c: string)
    requires n <= |draws| && DecimalDraws(draws)
  {
    seq(n, k requires 0 <= k < n => DigitChar(draws[k]))
  }

  /** A generated code has exactly the configured number of characters, each a decimal digit. */
  lemma DigitCodeShape(draws: seq<int>, n: nat)
    requires n <= |draws| && DecimalDraws(draws)
    ensures |DigitCode(draws, n)| == n
    ensures forall k :: 0 <= k < n ==> IsDigit(DigitCode(draws, n)[k])
  {
  }

  /** The codes table after issuing: one new ACTIVE row, unless the length is negative. */
  function AfterIssue(rows: seq<CodeRow>, nextId: int, length: int, userId: int,
                      operationNumber: int, draws: seq<int>, now: int): seq<CodeRow>
    requires length <= |draws| && DecimalDraws(draws)
  {
    if length < 0 then rows
    else rows + [CodeRow(nextId, userId, operationNumber, DigitCode(draws, length), ACTIVE, now)]
  }

  /** The validators accept `c` at `now`: its row is found, ACTIVE, and `now` is not after createdAt + ttl. */
  predicate Usable(rows: seq<CodeRow>, c: string, ttlSeconds: int, now: int)
  {
    match FirstWithCode(rows, c)
    case None => false
    case Some(r) => r.status == ACTIVE && now <= r.createdAt + ttlSeconds
  }

  /** The validators' lazy-expiry branch: the row is found ACTIVE but `now` is after createdAt + ttl. */
  predicate ExpiryDue(rows: seq<CodeRow>, c: string, ttlSeconds: int, now: int)
  {
    match FirstWithCode(rows, c)
    case None => false
    case Some(r) => r.status == ACTIVE && now > r.createdAt + ttlSeconds
  }

  /** The codes table after a validation that did not consume the code. */
  function AfterCheck(rows: seq<CodeRow>, c: string, ttlSeconds: int, now: int): seq<CodeRow>
  {
    if ExpiryDue(rows, c, ttlSeconds, now) then ExpiredBefore(rows, now - ttlSeconds) else rows
  }

  // ---------------------------------------------------------------------

  /**
   * `generateOtp`: reads the configured length, builds the code digit by digit,
   * stores it ACTIVE, and only then looks the operation up (an unknown
   * operation makes the name lookup throw after the row is stored).
   */
  method GenerateOtp(codes: CodeTable, configs: ConfigTable, operations: map<int, Operation>,
                     userId: int, operationNumber: int, draws: seq<int>, now: int)
    returns (outcome: Result<string>)
    requires codes.Valid() && DecimalDraws(draws) && configs.config.length <= |draws|
    modifies codes
    ensures codes.Valid()
    ensures var n := configs.config.length;
      && codes.rows == AfterIssue(old(codes.rows), old(codes.nextId), n, userId, operationNumber, draws, now)
      && (n < 0 ==> outcome == Err(NegativeArraySize) && codes.nextId == old(codes.nextId))
      && (n >= 0 && operationNumber !in operations ==> outcome == Err(NullPointer))
      && (n >= 0 && operationNumber in operations ==> outcome == Ok(DigitCode(draws, n)))
  {
    var length := configs.config.length;
    if length < 0 {
      return Err(NegativeArraySize);
    }
    var sb: string := "";
    var i := 0;
    while i < length
      invariant 0 <= i <= length
      invariant sb == DigitCode(draws, i)
    {
      sb := sb + [DigitChar(draws[i])];
      i := i + 1;
    }
    var otp := new OtpCode(None, userId, operationNumber, sb, ACTIVE, Some(now));
    codes.Save(otp, now);
    if operationNumber !in operations {
      return Err(NullPointer);
    }
    return Ok(sb);
  }

  /**
   * What `sendOtpToUser` answers: the issuing faults first, then "User not
   * found", then the sender's failure, otherwise what was handed to the sender.
   */
  function SendOutcome(length: int, operations: map<int, Operation>, users: seq<User>, userId: int,
                       operationNumber: int, channel: Channel, draws: seq<int>,
                       deliveryFailure: Option<Fault>): Result<Delivery>
    requires length <= |draws| && DecimalDraws(draws)
  {
    if length < 0 then Err(NegativeArraySize)
    else if operationNumber !in operations then Err(NullPointer)
    else match First(users, WithId(userId))
      case None => Err(IllegalArgument("User not found"))
      case Some(u) =>
        if deliveryFailure.Some? then Err(deliveryFailure.value)
        else Ok(Delivery(channel, u, DigitCode(draws, length), operationNumber))
  }

  /**
   * The code reaches the sender exactly when issuing succeeded, the user exists
   * and delivery did not fail; it goes to that user, with the issued digits and
   * the requested operation. An unknown user is "User not found"; a sender's
   * exception is passed on unchanged, and is the only other way to an
   * IllegalArgumentException.
   */
  lemma SendOutcomeCases(length: int, operations: map<int, Operation>, users: seq<User>, userId: int,
                         operationNumber: int, channel: Channel, draws: seq<int>,
                         deliveryFailure: Option<Fault>)
    requires length <= |draws| && DecimalDraws(draws)
    ensures var r := SendOutcome(length, operations, users, userId, operationNumber, channel, draws, deliveryFailure);
      && (r.Ok? <==> length >= 0 && operationNumber in operations && deliveryFailure.None?
                     && exists u :: u in users && u.id == userId)
      && (r.Ok? ==> r.value.recipient in users && r.value.recipient.id == userId && r.value.channel == channel
                    && r.value.code == DigitCode(draws, length) && r.value.operationNumber == operationNumber)
      && (length >= 0 && operationNumber in operations && (forall u :: u in users ==> u.id != userId) ==>
            r == Err(IllegalArgument("User not found")))
      && ((length >= 0 && operationNumber in operations && (exists u :: u in users && u.id == userId)
           && deliveryFailure.Some?) ==> r == Err(deliveryFailure.value))
      && (r.Err? && r.fault.IllegalArgument? <==>
            length >= 0 && operationNumber in operations
            && ((forall u :: u in users ==> u.id != userId)
                || (deliveryFailure.Some? && deliveryFailure.value.IllegalArgument?)))
  {
  }

  /**
   * `sendOtpToUser`: issues and stores the code first, then looks the user up
   * ("User not found" for an unknown id, with the new code left stored), then
   * hands (user, code, operation) to the channel's sender.
   */
  method SendOtpToUser(codes: CodeTable, configs: ConfigTable, users: UserTable,
                       operations: map<int, Operation>, userId: int, operationNumber: int,
                       channel: Channel, draws: seq<int>, now: int, deliveryFailure: Option<Fault>)
    returns (outcome: Result<Delivery>)
    requires codes.Valid() && DecimalDraws(draws) && configs.config.length <= |draws|
    modifies codes
    ensures codes.Valid()
    ensures codes.rows == AfterIssue(old(codes.rows), old(codes.nextId), configs.config.length, userId,
                                     operationNumber, draws, now)
    ensures outcome == SendOutcome(configs.config.length, operations, users.rows, userId, operationNumber,
                                   channel, draws, deliveryFailure)
  {
    var generated := GenerateOtp(codes, configs, operations, userId, operationNumber, draws, now);
    if generated.Err? {
      return Err(generated.fault);
    }
    var code := generated.value;
    var user := users.FindById(userId);
    if user.None? {
      return Err(IllegalArgument("User not found"));
    }
    if deliveryFailure.Some? {
      return Err(deliveryFailure.value);
    }
    return Ok(Delivery(channel, user.value, code, operationNumber));
  }

  /**
   * `validateOtpAndMark`: false for an unknown or non-ACTIVE code; for an
   * ACTIVE code past its window, runs the bulk expiry and answers false;
   * otherwise marks the row USED and answers true.
   */
  method ValidateOtpAndMark(codes: CodeTable, configs: ConfigTable, inputCode: string, now: int)
    returns (valid: bool)
    requires codes.Valid()
    modifies codes
    ensures codes.Valid() && codes.nextId == old(codes.nextId)
    ensures valid == Usable(old(codes.rows), inputCode, configs.config.ttlSeconds, now)
    ensures valid ==> codes.rows == MarkedUsed(old(codes.rows), FirstWithCode(old(codes.rows), inputCode).value.id)
    ensures !valid ==> codes.rows == AfterCheck(old(codes.rows), inputCode, configs.config.ttlSeconds, now)
  {
    var otp := codes.FindByCode(inputCode);
    if otp.None? {
      return false;
    }
    if otp.value.status != ACTIVE {
      return false;
    }
    var ttl := configs.config.ttlSeconds;
    var expiry := otp.value.createdAt + ttl;
    if now > expiry {
      codes.MarkAsExpiredOlderThan(ttl, now);
      return false;
    }
    codes.MarkAsUsed(otp.value.id);
    return true;
  }

  /** `validateOtp`: the same checks and lazy expiry, without consuming the code. */
  method ValidateOtp(codes: CodeTable, configs: ConfigTable, inputCode: string, now: int)
    returns (valid: bool)
    requires codes.Valid()
    modifies codes
    ensures codes.Valid() && codes.nextId == old(codes.nextId)
    ensures valid == Usable(old(codes.rows), inputCode, configs.config.ttlSeconds, now)
    ensures codes.rows == AfterCheck(old(codes.rows), inputCode, configs.config.ttlSeconds, now)
  {
    var otp := codes.FindByCode(inputCode);
    if otp.None? {
      return false;
    }
    if otp.value.status != ACTIVE {
      return false;
    }
    var ttl := configs.config.ttlSeconds;
    var expiry := otp.value.createdAt + ttl;
    if now > expiry {
      codes.MarkAsExpiredOlderThan(ttl, now);
      return false;
    }
    return true;
  }

  /** `markExpiredOtps`, the sweeper's step: bulk expiry with the TTL read at call time. */
  method MarkExpiredOtps(codes: CodeTable, configs: ConfigTable, now: int)
    requires codes.Valid()
    modifies codes
    ensures codes.Valid() && codes.nextId == old(codes.nextId)
    ensures codes.rows == ExpiredBefore(old(codes.rows), now - configs.config.ttlSeconds)
  {
    var ttl := configs.config.ttlSeconds;
    codes.MarkAsExpiredOlderThan(ttl, now);
  }

  // ---------------------------------------------------------------------
  // Properties of the lifecycle.

  /**
   * A freshly issued code whose value no older row holds is accepted exactly
   * while `now` is within its window; when an older row holds the same value,
   * that older row is the one the validators judge.
   */
  lemma {:induction false} IssuedCodeUsable(rows: seq<CodeRow>, row: CodeRow, ttlSeconds: int, now: int)
    requires row.status == ACTIVE
    ensures (forall r :: r in rows ==> r.code != row.code) ==>
      (Usable(rows + [row], row.code, ttlSeconds, now) <==> now <= row.createdAt + ttlSeconds)
    ensures (exists r :: r in rows && r.code == row.code) ==>
      FirstWithCode(rows + [row], row.code) == FirstWithCode(rows, row.code)
  {
    var all := rows + [row];
    assert all[|rows|].code == row.code;
    assert forall i :: 0 <= i < |rows| ==> all[i] == rows[i] && rows[i] in rows;
    if exists r :: r in rows && r.code == row.code {
      var j := FirstIndexOfCode(rows, row.code);
      assert j.Some?;
    }
  }

  /**
   * The lazy-expiry branch expires the very row it rejected: `now > createdAt + ttl`
   * is `createdAt < now - ttl`, the bulk expiry's condition, so afterwards the
   * code's row reads EXPIRED and is never accepted again.
   */
  lemma {:induction false} LazyExpiryExpiresRejected(rows: seq<CodeRow>, c: string, ttlSeconds: int, now: int,
                                                     later: int)
    requires ExpiryDue(rows, c, ttlSeconds, now)
    ensures var after := AfterCheck(rows, c, ttlSeconds, now);
      && FirstWithCode(after, c) == Some(FirstWithCode(rows, c).value.(status := EXPIRED))
      && !Usable(after, c, ttlSeconds, later)
      && !ExpiryDue(after, c, ttlSeconds, later)
  {
    var after := ExpiredBefore(rows, now - ttlSeconds);
    FirstIndexStable(after, rows, c);
    var i := FirstIndexOfCode(rows, c).value;
    assert rows[i].createdAt < now - ttlSeconds;
    assert after[i] == rows[i].(status := EXPIRED);
  }

  /**
   * A sweep at `sweepAt` expires every ACTIVE code issued before `sweepAt - ttl`;
   * from then on the code's row reads EXPIRED and no validation accepts it or
   * changes anything.
   */
  lemma {:induction false} SweptCodeRejected(rows: seq<CodeRow>, c: string, ttlSeconds: int, sweepAt: int,
                                             laterTtl: int, later: int)
    requires FirstWithCode(rows, c).Some? && FirstWithCode(rows, c).value.status == ACTIVE
    requires FirstWithCode(rows, c).value.createdAt < sweepAt - ttlSeconds
    ensures var swept := ExpiredBefore(rows, sweepAt - ttlSeconds);
      && FirstWithCode(swept, c) == Some(FirstWithCode(rows, c).value.(status := EXPIRED))
      && !Usable(swept, c, laterTtl, later)
      && AfterCheck(swept, c, laterTtl, later) == swept
  {
    var swept := ExpiredBefore(rows, sweepAt - ttlSeconds);
    FirstIndexStable(swept, rows, c);
    var i := FirstIndexOfCode(rows, c).value;
    assert swept[i] == rows[i].(status := EXPIRED);
  }

  /**
   * Consuming a code is final: after the consuming validator accepts it, any
   * later validation of the same code answers false and changes nothing.
   */
  lemma {:induction false} ConsumedCodeRejected(rows: seq<CodeRow>, c: string, ttlSeconds: int, now: int,
                                                laterTtl: int, later: int)
    requires Usable(rows, c, ttlSeconds, now)
    ensures var after := MarkedUsed(rows, FirstWithCode(rows, c).value.id);
      && !Usable(after, c, laterTtl, later)
      && AfterCheck(after, c, laterTtl, later) == after
  {
    var after := MarkedUsed(rows, FirstWithCode(rows, c).value.id);
    FirstIndexStable(after, rows, c);
    var i := FirstIndexOfCode(rows, c).value;
    assert after[i].status == USED;
  }

  /**
   * As written, validate, sweep, complete: a code accepted by the read-only
   * validator, expired by a sweep that runs before the operation completes,
   * and then marked by the unconditional `markAsUsed`, ends up USED, not EXPIRED.
   */
  lemma {:induction false} SweepBetweenValidateAndComplete(rows: seq<CodeRow>, c: string, ttlSeconds: int,
                                                           now: int, sweepAt: int)
    requires Usable(rows, c, ttlSeconds, now)
    requires sweepAt > FirstWithCode(rows, c).value.createdAt + ttlSeconds
    ensures var found := FirstWithCode(rows, c).value;
      var swept := ExpiredBefore(rows, sweepAt - ttlSeconds);
      && FirstWithCode(swept, c) == Some(found.(status := EXPIRED))
      && FirstWithCode(MarkedUsed(swept, found.id), c) == Some(found.(status := USED))
  {
    var found := FirstWithCode(rows, c).value;
    var swept := ExpiredBefore(rows, sweepAt - ttlSeconds);
    var used := MarkedUsed(swept, found.id);
    FirstIndexStable(swept, rows, c);
    FirstIndexStable(used, swept, c);
    var i := FirstIndexOfCode(rows, c).value;
    assert swept[i] == found.(status := EXPIRED);
    assert used[i] == found.(status := USED);
  }

  /** Neither validator nor the sweeper ever makes a row ACTIVE. */
  lemma ValidationNeverActivates(rows: seq<CodeRow>, c: string, ttlSeconds: int, now: int)
    ensures NoNewActive(rows, AfterCheck(rows, c, ttlSeconds, now))
    ensures FirstWithCode(rows, c).Some? ==> NoNewActive(rows, MarkedUsed(rows, FirstWithCode(rows, c).value.id))
  {
    UpdatesNeverActivate(rows, if FirstWithCode(rows, c).Some? then FirstWithCode(rows, c).value.id else 0,
                         now - ttlSeconds, 0);
    assert forall i :: 0 <= i < |rows| ==> rows[i] in rows;
  }
}
