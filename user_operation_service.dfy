/**
 * The step-up operation service: requesting a code for an operation,
 * checking a submitted code without consuming it, and completing the
 * operation the stored code was issued for.
 *
 * The operations reference table is a map from number to operation, the
 * password hash function is the `hash` parameter.
 */
module UserOperationService {
  import opened Model
  import opened Tables
  import opened OtpCodeDao
  import opened UserDao
  import opened OtpConfigDao
  import opened OtpService
  import opened Http

  const MISSING_PARAMETER: string := "Required parameter is missing or invalid."
  const UNKNOWN_OPERATION: string := "Unknown operation number"

  /** `SendReport`: needs a `reportType` member and reports success. */
  function SendReport(payload: Payload): (r: Result<string>)
    ensures r.Ok? <==> "reportType" in payload
    ensures r.Ok? ==> r.value == "success"
    ensures r.Err? ==> r.fault == IllegalArgument(MISSING_PARAMETER)
  {
    if "reportType" in payload then Ok("success") else Err(IllegalArgument(MISSING_PARAMETER))
  }

  /** `MakeTransfer`: needs an `amount` member, and always reports "failed". */
  function MakeTransfer(payload: Payload): (r: Result<string>)
    ensures r.Ok? <==> "amount" in payload
    ensures r.Ok? ==> r.value == "failed"
    ensures r.Err? ==> r.fault == IllegalArgument(MISSING_PARAMETER)
  {
    if "amount" in payload then Ok("failed") else Err(IllegalArgument(MISSING_PARAMETER))
  }

  /**
   * `UpdatePassword`: needs a `password` member; stores the hash of its text
   * as the user's password hash and reports success.
   */
  method UpdatePassword(users: UserTable, userId: int, payload: Payload, hash: string -> string)
    returns (outcome: Result<string>)
    requires users.Valid()
    modifies users
    ensures users.Valid() && users.nextId == old(users.nextId)
    ensures "password" !in payload ==> outcome == Err(IllegalArgument(MISSING_PARAMETER)) && users.rows == old(users.rows)
    ensures "password" in payload && First(old(users.rows), WithId(userId)).None? ==>
      outcome == Err(NullPointer) && users.rows == old(users.rows)
    ensures "password" in payload && First(old(users.rows), WithId(userId)).Some? ==>
      outcome == Ok("success")
      && users.rows == WithPassword(old(users.rows), userId, hash(AsText(payload["password"])))
  {
    if "password" !in payload {
      return Err(IllegalArgument(MISSING_PARAMETER));
    }
    var newPassword := AsText(payload["password"]);
    var user := users.FindById(userId);
    if user.None? {
      return Err(NullPointer);
    }
    var saved := users.Save(user.value.(passwordHash := hash(newPassword)));
    // the row was just found by this id, so the update matches it
    assert saved.Ok?;
    return Ok("success");
  }

  /** What the `switch` makes of an operation number: a handler's outcome, or None for the default branch. */
  function Dispatch(operationNumber: int, payload: Payload): (d: Option<Result<string>>)
    ensures d.None? <==> operationNumber !in {101, 102, 103}
  {
    if operationNumber == 101 then
      Some(if "password" in payload then Ok("success") else Err(IllegalArgument(MISSING_PARAMETER)))
    else if operationNumber == 102 then Some(SendReport(payload))
    else if operationNumber == 103 then Some(MakeTransfer(payload))
    else None
  }

  /** The `result` member: the handler's string, or "failed" when no handler returned one. */
  function ResultText(d: Option<Result<string>>): string
  {
    if d.Some? && d.value.Ok? then d.value.value else "failed"
  }

  /** The code is marked USED unless a handler threw. */
  predicate Consumes(d: Option<Result<string>>)
  {
    !(d.Some? && d.value.Err?)
  }

  /** Everything `completeOperation` does: its answer, both tables afterwards, and the replies it sends itself. */
  datatype CompletionStep = CompletionStep(outcome: Result<Completion>, codes: seq<CodeRow>, users: seq<User>,
                                           replies: seq<Reply>)

  function Completed(codes: seq<CodeRow>, users: seq<User>, operations: map<int, Operation>, inputCode: string,
                     payload: Payload, hash: string -> string): CompletionStep
  {
    match FirstWithCode(codes, inputCode)
    case None => CompletionStep(Err(NullPointer), codes, users, [])
    case Some(row) =>
      if row.operationNumber !in operations then CompletionStep(Err(NullPointer), codes, users, [])
      else match First(users, WithId(row.userId))
        case None => CompletionStep(Err(NullPointer), codes, users, [])
        case Some(owner) =>
          var d := Dispatch(row.operationNumber, payload);
          CompletionStep(
            Ok(Completion(row.operationNumber, operations[row.operationNumber].name, owner.username, ResultText(d))),
            if Consumes(d) then MarkedUsed(codes, row.id) else codes,
            if row.operationNumber == 101 && "password" in payload
            then WithPassword(users, row.userId, hash(AsText(payload["password"])))
            else users,
            if d.None? then [ErrorReply(401, UNKNOWN_OPERATION)] else [])
  }

  /**
   * `confirmOperation` (the service's): issue and send a code for the
   * operation; the service answers nothing (null) on success.
   */
  method ConfirmOperation(codes: CodeTable, configs: ConfigTable, users: UserTable,
                          operations: map<int, Operation>, userId: int, operationNumber: int,
                          channel: Channel, draws: seq<int>, now: int, deliveryFailure: Option<Fault>)
    returns (outcome: Result<Option<string>>)
    requires codes.Valid() && DecimalDraws(draws) && configs.config.length <= |draws|
    modifies codes
    ensures codes.Valid()
    ensures codes.rows == AfterIssue(old(codes.rows), old(codes.nextId), configs.config.length, userId,
                                     operationNumber, draws, now)
    ensures var sent := SendOutcome(configs.config.length, operations, users.rows, userId, operationNumber,
                                    channel, draws, deliveryFailure);
      outcome == if sent.Ok? then Ok(None) else Err(sent.fault)
  {
    var sent := SendOtpToUser(codes, configs, users, operations, userId, operationNumber, channel, draws, now,
                              deliveryFailure);
    if sent.Err? {
      return Err(sent.fault);
    }
    return Ok(None);
  }

  /** `validateCode`: the non-consuming validator. */
  method ValidateCode(codes: CodeTable, configs: ConfigTable, inputCode: string, now: int) returns (valid: bool)
    requires codes.Valid()
    modifies codes
    ensures codes.Valid() && codes.nextId == old(codes.nextId)
    ensures valid == Usable(old(codes.rows), inputCode, configs.config.ttlSeconds, now)
    ensures codes.rows == AfterCheck(old(codes.rows), inputCode, configs.config.ttlSeconds, now)
    ensures valid ==> codes.rows == old(codes.rows)
  {
    valid := ValidateOtp(codes, configs, inputCode, now);
  }

  /**
   * `completeOperation`: binds the operation and the user from the stored
   * code, dispatches on the operation number, marks the code USED unless the
   * handler threw, and answers the operation number and name, the owner's
   * username and the result.
   */
  method CompleteOperation(codes: CodeTable, users: UserTable, operations: map<int, Operation>,
                           inputCode: string, payload: Payload, exchange: Exchange, hash: string -> string)
    returns (outcome: Result<Completion>)
    requires codes.Valid() && users.Valid()
    modifies codes, users, exchange
    ensures codes.Valid() && users.Valid()
    ensures codes.nextId == old(codes.nextId) && users.nextId == old(users.nextId)
    ensures exchange.attributes == old(exchange.attributes) && exchange.forwarded == old(exchange.forwarded)
    ensures var step := Completed(old(codes.rows), old(users.rows), operations, inputCode, payload, hash);
      && outcome == step.outcome
      && codes.rows == step.codes
      && users.rows == step.users
      && exchange.replies == old(exchange.replies) + step.replies
  {
    var codeRaw := codes.FindByCode(inputCode);
    if codeRaw.None? {
      return Err(NullPointer);
    }
    var operationNumber := codeRaw.value.operationNumber;
    var userId := codeRaw.value.userId;
    if operationNumber !in operations {
      return Err(NullPointer);
    }
    var operationName := operations[operationNumber].name;
    var owner := users.FindById(userId);
    if owner.None? {
      return Err(NullPointer);
    }
    var userName := owner.value.username;

    var handled := RunHandler(users, exchange, operationNumber, userId, payload, hash);
    if Consumes(handled) {
      codes.MarkAsUsed(codeRaw.value.id);
    }
    var result := ResultText(handled);
    return Ok(Completion(operationNumber, operationName, userName, result));
  }

  /**
   * The `switch` of `completeOperation`: runs the handler for 101, 102 or 103
   * and reports what it returned or threw; any other number sends 401
   * "Unknown operation number" and runs no handler.
   */
  method RunHandler(users: UserTable, exchange: Exchange, operationNumber: int, userId: int, payload: Payload,
                    hash: string -> string)
    returns (handled: Option<Result<string>>)
    requires users.Valid() && First(users.rows, WithId(userId)).Some?
    modifies users, exchange
    ensures users.Valid() && users.nextId == old(users.nextId)
    ensures exchange.attributes == old(exchange.attributes) && exchange.forwarded == old(exchange.forwarded)
    ensures handled == Dispatch(operationNumber, payload)
    ensures users.rows == if operationNumber == 101 && "password" in payload
                          then WithPassword(old(users.rows), userId, hash(AsText(payload["password"])))
                          else old(users.rows)
    ensures exchange.replies ==
      old(exchange.replies) + if handled.None? then [ErrorReply(401, UNKNOWN_OPERATION)] else []
  {
    if operationNumber == 101 {
      var r := UpdatePassword(users, userId, payload, hash);
      handled := Some(r);
    } else if operationNumber == 102 {
      handled := Some(SendReport(payload));
    } else if operationNumber == 103 {
      handled := Some(MakeTransfer(payload));
    } else {
      exchange.Send(ErrorReply(401, UNKNOWN_OPERATION));
      handled := None;
    }
  }

  // ---------------------------------------------------------------------

  /**
   * The outcome of completing an operation, by operation number and payload:
   * only a password update with a password, or a report with a report type,
   * reports success; a transfer always reports "failed"; the code is consumed
   * except when the handler's required member is missing.
   */
  lemma CompletionOutcomes(operationNumber: int, payload: Payload)
    ensures var d := Dispatch(operationNumber, payload);
      && (ResultText(d) == "success" <==>
            (operationNumber == 101 && "password" in payload) || (operationNumber == 102 && "reportType" in payload))
      && (operationNumber == 103 ==> ResultText(d) == "failed")
      && (!Consumes(d) <==>
            || (operationNumber == 101 && "password" !in payload)
            || (operationNumber == 102 && "reportType" !in payload)
            || (operationNumber == 103 && "amount" !in payload))
  {
  }

  /**
   * The answer is bound to the stored code, never to the caller: its operation
   * is the code's operation and its username is that of the code's owner; the
   * only password that can change is the owner's.
   */
  lemma CompletionBoundToStoredCode(codes: seq<CodeRow>, users: seq<User>, operations: map<int, Operation>,
                                    inputCode: string, payload: Payload, hash: string -> string)
    ensures var step := Completed(codes, users, operations, inputCode, payload, hash);
      step.outcome.Ok? ==>
        && FirstWithCode(codes, inputCode).Some?
        && var row := FirstWithCode(codes, inputCode).value;
        && row.operationNumber in operations
        && step.outcome.value.operationNumber == row.operationNumber
        && step.outcome.value.operationName == operations[row.operationNumber].name
        && (exists u :: u in users && u.id == row.userId && u.username == step.outcome.value.username)
        && (forall i :: 0 <= i < |users| && users[i].id != row.userId ==> step.users[i] == users[i])
    ensures var step := Completed(codes, users, operations, inputCode, payload, hash);
      step.outcome.Err? ==> step.outcome.fault == NullPointer && step.codes == codes && step.users == users
  {
  }

  /**
   * After a completion that consumed the code, the code's row reads USED, so
   * any later validation of the same code fails; after a handler that threw,
   * the code rows are exactly as before and the code can be submitted again.
   */
  lemma {:induction false} CompletionConsumesOnce(codes: seq<CodeRow>, users: seq<User>,
                                                 operations: map<int, Operation>, inputCode: string,
                                                 payload: Payload, hash: string -> string, ttl: int, later: int)
    requires Completed(codes, users, operations, inputCode, payload, hash).outcome.Ok?
    ensures var step := Completed(codes, users, operations, inputCode, payload, hash);
      var d := Dispatch(FirstWithCode(codes, inputCode).value.operationNumber, payload);
      && (Consumes(d) ==> FirstWithCode(step.codes, inputCode).value.status == USED
                          && !Usable(step.codes, inputCode, ttl, later))
      && (!Consumes(d) ==> step.codes == codes)
  {
    var row := FirstWithCode(codes, inputCode).value;
    var after := MarkedUsed(codes, row.id);
    FirstIndexStable(after, codes, inputCode);
    var i := FirstIndexOfCode(codes, inputCode).value;
    assert after[i].status == USED;
  }
}
