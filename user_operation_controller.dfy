/**
 * The decision sequences of the two step-up endpoints: request a code for an
 * operation (POST), and confirm an operation with a code (PATCH). Each
 * endpoint checks the method, then the content type, then reads the body and
 * calls the service, turning exceptions into 400 (IllegalArgumentException)
 * or 500 (anything else).
 */
module UserOperationController {
  import opened Model
  import opened Tables
  import opened OtpCodeDao
  import opened UserDao
  import opened OtpConfigDao
  import opened OtpService
  import opened Http
  import opened UserOperationService

  const METHOD_NOT_ALLOWED: string := "Method Not Allowed"
  const NOT_JSON: string := "Content-Type must be application/json"
  const INTERNAL_ERROR: string := "Internal server error"
  const INVALID_CODE: string := "Invalid or expired code"

  predicate JsonContent(contentType: Option<string>)
  {
    contentType.Some? && Contains(contentType.value, "application/json")
  }

  /** The checks before the body is read: 405 for another method, then 415 for a non-JSON content type. */
  function Gate(requestMethod: string, contentType: Option<string>, expected: string): (r: Option<Reply>)
    ensures r.None? <==> EqualsIgnoreCase(requestMethod, expected) && JsonContent(contentType)
  {
    if !EqualsIgnoreCase(requestMethod, expected) then Some(ErrorReply(405, METHOD_NOT_ALLOWED))
    else if !JsonContent(contentType) then Some(ErrorReply(415, NOT_JSON))
    else None
  }

  /** The catch clauses: an IllegalArgumentException's message with 400, anything else a bare 500. */
  function FaultReply(f: Fault): (r: Reply)
    ensures r.status == 400 <==> f.IllegalArgument?
    ensures r.status == 400 || r.status == 500
    ensures r.status == 400 ==> r.body == ErrorMessage(f.message)
  {
    if f.IllegalArgument? then ErrorReply(400, f.message) else ErrorReply(500, INTERNAL_ERROR)
  }

  /**
   * The perform request's members, in the order they are read: the operation
   * number, the channel name, then its conversion to a channel. A body that
   * is not a JSON object, or a missing member, fails.
   */
  function PerformArguments(body: Option<Payload>): Result<(int, Channel)>
  {
    match body
    case None => Err(IOFailure)
    case Some(p) =>
      if "operationNumber" !in p || "channel" !in p then Err(NullPointer)
      else match ChannelValueOf(AsText(p["channel"]))
        case Err(f) => Err(f)
        case Ok(channel) => Ok((AsInt(p["operationNumber"]), channel))
  }

  /** The reply a perform request gets and the code rows it leaves. */
  datatype Handled = Handled(reply: Reply, codes: seq<CodeRow>)

  function Performed(requestMethod: string, contentType: Option<string>, body: Option<Payload>, ownerId: int,
                     codes: seq<CodeRow>, nextId: int, length: int, operations: map<int, Operation>,
                     users: seq<User>, draws: seq<int>, now: int, deliveryFailure: Option<Fault>): Handled
    requires length <= |draws| && DecimalDraws(draws)
  {
    var gate := Gate(requestMethod, contentType, "POST");
    if gate.Some? then Handled(gate.value, codes)
    else match PerformArguments(body)
      case Err(f) => Handled(FaultReply(f), codes)
      case Ok((operationNumber, channel)) =>
        var sent := SendOutcome(length, operations, users, ownerId, operationNumber, channel, draws, deliveryFailure);
        Handled(if sent.Ok? then Reply(202, NoBody) else FaultReply(sent.fault),
                AfterIssue(codes, nextId, length, ownerId, operationNumber, draws, now))
  }

  /**
   * `performOperation`: the code is issued for the user the filter attached
   * (`userId`), never for anything in the body; success is 202 with no body.
   */
  method PerformOperation(exchange: Exchange, codes: CodeTable, configs: ConfigTable, users: UserTable,
                          operations: map<int, Operation>, draws: seq<int>, now: int,
                          deliveryFailure: Option<Fault>)
    requires codes.Valid() && DecimalDraws(draws) && configs.config.length <= |draws|
    requires "userId" in exchange.attributes && exchange.attributes["userId"].UserIdAttr?
    modifies exchange, codes
    ensures codes.Valid()
    ensures exchange.attributes == old(exchange.attributes) && exchange.forwarded == old(exchange.forwarded)
    ensures var h := Performed(exchange.requestMethod, exchange.contentType, exchange.body,
                               old(exchange.attributes["userId"].id), old(codes.rows), old(codes.nextId),
                               configs.config.length, operations, users.rows, draws, now, deliveryFailure);
      exchange.replies == old(exchange.replies) + [h.reply] && codes.rows == h.codes
  {
    var gate := Gate(exchange.requestMethod, exchange.contentType, "POST");
    if gate.Some? {
      exchange.Send(gate.value);
      return;
    }
    if exchange.body.None? {
      exchange.Send(FaultReply(IOFailure));
      return;
    }
    var request := exchange.body.value;
    if "operationNumber" !in request {
      exchange.Send(FaultReply(NullPointer));
      return;
    }
    var operationNumber := AsInt(request["operationNumber"]);
    var userId := exchange.attributes["userId"].id;
    if "channel" !in request {
      exchange.Send(FaultReply(NullPointer));
      return;
    }
    var channel := ChannelValueOf(AsText(request["channel"]));
    if channel.Err? {
      exchange.Send(FaultReply(channel.fault));
      return;
    }
    var response := UserOperationService.ConfirmOperation(codes, configs, users, operations, userId,
                                                          operationNumber, channel.value, draws, now,
                                                          deliveryFailure);
    if response.Err? {
      exchange.Send(FaultReply(response.fault));
      return;
    }
    exchange.Send(Reply(202, NoBody));
  }

  /** The replies a confirm request gets (in order) and both tables afterwards. */
  datatype Confirmation = Confirmation(replies: seq<Reply>, codes: seq<CodeRow>, users: seq<User>)

  function Confirmed(requestMethod: string, contentType: Option<string>, body: Option<Payload>,
                     codes: seq<CodeRow>, users: seq<User>, operations: map<int, Operation>, ttlSeconds: int,
                     now: int, hash: string -> string): Confirmation
  {
    var gate := Gate(requestMethod, contentType, "PATCH");
    if gate.Some? then Confirmation([gate.value], codes, users)
    else if body.None? then Confirmation([FaultReply(IOFailure)], codes, users)
    else if "code" !in body.value then Confirmation([FaultReply(NullPointer)], codes, users)
    else CodeConfirmed(codes, users, operations, AsText(body.value["code"]), body.value, ttlSeconds, now, hash)
  }

  /** What the confirm request does once it has read the code: validate, then complete or refuse. */
  function CodeConfirmed(codes: seq<CodeRow>, users: seq<User>, operations: map<int, Operation>, inputCode: string,
                         payload: Payload, ttlSeconds: int, now: int, hash: string -> string): Confirmation
  {
    if !Usable(codes, inputCode, ttlSeconds, now) then
      Confirmation([ErrorReply(400, INVALID_CODE)], AfterCheck(codes, inputCode, ttlSeconds, now), users)
    else
      var step := Completed(codes, users, operations, inputCode, payload, hash);
      var last := if step.outcome.Ok? then Reply(200, CompletionJson(step.outcome.value))
                  else FaultReply(step.outcome.fault);
      Confirmation(step.replies + [last], step.codes, step.users)
  }

  /**
   * `confirmOperation`: completes the operation only when the non-consuming
   * validator accepts the code; the caller's own identity plays no part.
   */
  method ConfirmOperation(exchange: Exchange, codes: CodeTable, configs: ConfigTable, users: UserTable,
                          operations: map<int, Operation>, now: int, hash: string -> string)
    requires codes.Valid() && users.Valid()
    modifies exchange, codes, users
    ensures codes.Valid() && users.Valid()
    ensures exchange.attributes == old(exchange.attributes) && exchange.forwarded == old(exchange.forwarded)
    ensures var c := Confirmed(exchange.requestMethod, exchange.contentType, exchange.body, old(codes.rows),
                               old(users.rows), operations, configs.config.ttlSeconds, now, hash);
      && exchange.replies == old(exchange.replies) + c.replies
      && codes.rows == c.codes
      && users.rows == c.users
  {
    var gate := Gate(exchange.requestMethod, exchange.contentType, "PATCH");
    if gate.Some? {
      exchange.Send(gate.value);
      return;
    }
    if exchange.body.None? {
      exchange.Send(FaultReply(IOFailure));
      return;
    }
    var request := exchange.body.value;
    if "code" !in request {
      exchange.Send(FaultReply(NullPointer));
      return;
    }
    var inputCode := AsText(request["code"]);
    ConfirmCode(exchange, codes, configs, users, operations, inputCode, request, now, hash);
  }

  /** The `try` body of `confirmOperation` after the code is read: validate, then complete or answer 400. */
  method ConfirmCode(exchange: Exchange, codes: CodeTable, configs: ConfigTable, users: UserTable,
                     operations: map<int, Operation>, inputCode: string, request: Payload, now: int,
                     hash: string -> string)
    requires codes.Valid() && users.Valid()
    modifies exchange, codes, users
    ensures codes.Valid() && users.Valid()
    ensures exchange.attributes == old(exchange.attributes) && exchange.forwarded == old(exchange.forwarded)
    ensures var c := CodeConfirmed(old(codes.rows), old(users.rows), operations, inputCode, request,
                                   configs.config.ttlSeconds, now, hash);
      && exchange.replies == old(exchange.replies) + c.replies
      && codes.rows == c.codes
      && users.rows == c.users
  {
    var valid := ValidateCode(codes, configs, inputCode, now);
    if valid {
      var response := CompleteOperation(codes, users, operations, inputCode, request, exchange, hash);
      if response.Err? {
        exchange.Send(FaultReply(response.fault));
        return;
      }
      exchange.Send(Reply(200, CompletionJson(response.value)));
    } else {
      exchange.Send(ErrorReply(400, INVALID_CODE));
    }
  }

  // ---------------------------------------------------------------------

  /**
   * A perform request stores a code only once the method, the content type,
   * the body and the channel have all been accepted, and then for the filter's
   * user; its answer is 202 with no body, 400 for an unknown channel or user,
   * or one of 405, 415 and 500. The code itself never appears in the answer.
   */
  lemma PerformOutcomes(requestMethod: string, contentType: Option<string>, body: Option<Payload>, ownerId: int,
                        codes: seq<CodeRow>, nextId: int, length: int, operations: map<int, Operation>,
                        users: seq<User>, draws: seq<int>, now: int, deliveryFailure: Option<Fault>)
    requires length <= |draws| && DecimalDraws(draws)
    ensures var h := Performed(requestMethod, contentType, body, ownerId, codes, nextId, length, operations,
                               users, draws, now, deliveryFailure);
      && h.reply.status in {202, 400, 405, 415, 500}
      && (h.reply.status == 202 ==> h.reply.body == NoBody)
      && (h.codes != codes ==>
            && Gate(requestMethod, contentType, "POST").None?
            && PerformArguments(body).Ok?
            && length >= 0
            && h.codes == codes + [CodeRow(nextId, ownerId, PerformArguments(body).value.0,
                                           DigitCode(draws, length), ACTIVE, now)])
      && (h.reply.status == 202 ==> h.codes != codes)
  {
  }

  /**
   * The perform request answers 400 for an unknown channel name (nothing
   * stored), an unknown user (the new code stays stored), or a sender that
   * threw an IllegalArgumentException (the code stays stored), and for
   * nothing else.
   */
  lemma PerformBadRequest(requestMethod: string, contentType: Option<string>, body: Option<Payload>, ownerId: int,
                          codes: seq<CodeRow>, nextId: int, length: int, operations: map<int, Operation>,
                          users: seq<User>, draws: seq<int>, now: int, deliveryFailure: Option<Fault>)
    requires length <= |draws| && DecimalDraws(draws)
    requires Gate(requestMethod, contentType, "POST").None?
    requires body.Some? && "operationNumber" in body.value && "channel" in body.value
    ensures var h := Performed(requestMethod, contentType, body, ownerId, codes, nextId, length, operations,
                               users, draws, now, deliveryFailure);
      var channel := ChannelValueOf(AsText(body.value["channel"]));
      var operationNumber := AsInt(body.value["operationNumber"]);
      var issued := channel.Ok? && length >= 0 && operationNumber in operations;
      && (channel.Err? ==> h.reply.status == 400 && h.codes == codes)
      && ((issued && forall u :: u in users ==> u.id != ownerId)
            ==> h.reply == ErrorReply(400, "User not found") && |h.codes| == |codes| + 1)
      && ((issued && (exists u :: u in users && u.id == ownerId)
           && deliveryFailure.Some? && deliveryFailure.value.IllegalArgument?)
            ==> h.reply == ErrorReply(400, deliveryFailure.value.message) && |h.codes| == |codes| + 1)
      && (h.reply.status == 400 ==>
            || channel.Err?
            || (forall u :: u in users ==> u.id != ownerId)
            || (deliveryFailure.Some? && deliveryFailure.value.IllegalArgument?))
  {
  }

  /**
   * The operation number is read as a Java `int`: a number and its decimal
   * text make the same request within the `int` range; a number outside it
   * is the request for its 32-bit wrap-around, and text outside it is the
   * request for operation 0.
   */
  lemma {:induction false} PerformReadsOperationNumberAsInt(requestMethod: string, contentType: Option<string>,
                                                            p: Payload, n: int, ownerId: int, codes: seq<CodeRow>,
                                                            nextId: int, length: int, operations: map<int, Operation>,
                                                            users: seq<User>, draws: seq<int>, now: int,
                                                            deliveryFailure: Option<Fault>)
    requires length <= |draws| && DecimalDraws(draws)
    ensures var asNumber := Performed(requestMethod, contentType, Some(p["operationNumber" := JNum(n)]), ownerId,
                                      codes, nextId, length, operations, users, draws, now, deliveryFailure);
      var asText := Performed(requestMethod, contentType, Some(p["operationNumber" := JText(AsText(JNum(n)))]),
                              ownerId, codes, nextId, length, operations, users, draws, now, deliveryFailure);
      && (InIntRange(n) ==> asText == asNumber)
      && asNumber == Performed(requestMethod, contentType, Some(p["operationNumber" := JNum(Int32(n))]), ownerId,
                               codes, nextId, length, operations, users, draws, now, deliveryFailure)
      && (!InIntRange(n) ==>
            asText == Performed(requestMethod, contentType, Some(p["operationNumber" := JNum(0)]), ownerId,
                                codes, nextId, length, operations, users, draws, now, deliveryFailure))
  {
    AsIntOfAsText(n);
    var number := Some(p["operationNumber" := JNum(n)]);
    var text := Some(p["operationNumber" := JText(AsText(JNum(n)))]);
    var wrapped := Some(p["operationNumber" := JNum(Int32(n))]);
    var zero := Some(p["operationNumber" := JNum(0)]);
    assert PerformArguments(number) == PerformArguments(wrapped);
    SameArgumentsSameRequest(requestMethod, contentType, number, wrapped, ownerId, codes, nextId, length,
                             operations, users, draws, now, deliveryFailure);
    if InIntRange(n) {
      assert PerformArguments(text) == PerformArguments(number);
      SameArgumentsSameRequest(requestMethod, contentType, text, number, ownerId, codes, nextId, length,
                               operations, users, draws, now, deliveryFailure);
    } else {
      assert PerformArguments(text) == PerformArguments(zero);
      SameArgumentsSameRequest(requestMethod, contentType, text, zero, ownerId, codes, nextId, length,
                               operations, users, draws, now, deliveryFailure);
    }
  }

  /** A perform request depends on its body only through the arguments read from it. */
  lemma SameArgumentsSameRequest(requestMethod: string, contentType: Option<string>, body: Option<Payload>,
                                 body': Option<Payload>, ownerId: int, codes: seq<CodeRow>, nextId: int,
                                 length: int, operations: map<int, Operation>, users: seq<User>,
                                 draws: seq<int>, now: int, deliveryFailure: Option<Fault>)
    requires length <= |draws| && DecimalDraws(draws)
    requires PerformArguments(body) == PerformArguments(body')
    ensures Performed(requestMethod, contentType, body, ownerId, codes, nextId, length, operations, users, draws,
                      now, deliveryFailure)
         == Performed(requestMethod, contentType, body', ownerId, codes, nextId, length, operations, users, draws,
                      now, deliveryFailure)
  {
  }

  /**
   * A perform request for an operation number the operations table does not
   * hold still stores the new code before the lookup fails, and answers 500.
   */
  lemma PerformUnknownOperation(requestMethod: string, contentType: Option<string>, body: Option<Payload>,
                                ownerId: int, codes: seq<CodeRow>, nextId: int, length: int,
                                operations: map<int, Operation>, users: seq<User>, draws: seq<int>, now: int,
                                deliveryFailure: Option<Fault>)
    requires length <= |draws| && DecimalDraws(draws) && length >= 0
    requires Gate(requestMethod, contentType, "POST").None?
    requires PerformArguments(body).Ok? && PerformArguments(body).value.0 !in operations
    ensures var h := Performed(requestMethod, contentType, body, ownerId, codes, nextId, length, operations,
                               users, draws, now, deliveryFailure);
      && h.reply == ErrorReply(500, INTERNAL_ERROR)
      && h.codes == codes + [CodeRow(nextId, ownerId, PerformArguments(body).value.0, DigitCode(draws, length),
                                     ACTIVE, now)]
  {
  }

  /**
   * A confirm request reaches the operation only through a code the validator
   * accepts: otherwise it answers 400 "Invalid or expired code", changes no
   * user, and changes code rows only by the lazy expiry.
   */
  lemma ConfirmNeedsUsableCode(requestMethod: string, contentType: Option<string>, body: Option<Payload>,
                               codes: seq<CodeRow>, users: seq<User>, operations: map<int, Operation>,
                               ttlSeconds: int, now: int, hash: string -> string)
    requires Gate(requestMethod, contentType, "PATCH").None?
    requires body.Some? && "code" in body.value
    requires !Usable(codes, AsText(body.value["code"]), ttlSeconds, now)
    ensures var c := Confirmed(requestMethod, contentType, body, codes, users, operations, ttlSeconds, now, hash);
      && c.replies == [ErrorReply(400, INVALID_CODE)]
      && c.users == users
      && NoNewActive(codes, c.codes)
  {
    ValidationNeverActivates(codes, AsText(body.value["code"]), ttlSeconds, now);
  }

  /**
   * Replaying a confirm request: once a confirmation answered 200 and its
   * handler did not throw, the same request answers 400 "Invalid or expired
   * code" at any later time and changes nothing.
   */
  lemma {:induction false} ConfirmReplayRejected(requestMethod: string, contentType: Option<string>,
                                                 body: Option<Payload>, codes: seq<CodeRow>, users: seq<User>,
                                                 operations: map<int, Operation>, ttlSeconds: int, now: int,
                                                 later: int, hash: string -> string)
    requires var c := Confirmed(requestMethod, contentType, body, codes, users, operations, ttlSeconds, now, hash);
      c.replies != [] && c.replies[|c.replies| - 1].status == 200
    requires body.Some? && "code" in body.value
    requires var row := FirstWithCode(codes, AsText(body.value["code"]));
      row.Some? && Consumes(Dispatch(row.value.operationNumber, body.value))
    ensures var first := Confirmed(requestMethod, contentType, body, codes, users, operations, ttlSeconds, now, hash);
      var second := Confirmed(requestMethod, contentType, body, first.codes, first.users, operations, ttlSeconds,
                              later, hash);
      second == Confirmation([ErrorReply(400, INVALID_CODE)], first.codes, first.users)
  {
    var inputCode := AsText(body.value["code"]);
    var first := Confirmed(requestMethod, contentType, body, codes, users, operations, ttlSeconds, now, hash);
    assert Usable(codes, inputCode, ttlSeconds, now);
    var step := Completed(codes, users, operations, inputCode, body.value, hash);
    assert step.outcome.Ok?;
    CompletionConsumesOnce(codes, users, operations, inputCode, body.value, hash, ttlSeconds, later);
    ConsumedCodeRejected(codes, inputCode, ttlSeconds, now, ttlSeconds, later);
  }
}
