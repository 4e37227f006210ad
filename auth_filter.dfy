/**
 * The authentication and authorisation filter in front of the protected
 * routes: it reads the `Authorization: Bearer <token>` header, resolves the
 * token to a user, compares the user's role with the route's required role,
 * and either answers 401/403 or attaches the user and passes the exchange on.
 */
module AuthFilter {
  import opened Model
  import opened TokenManager
  import opened Http

  const BEARER: string := "Bearer "
  const MISSING_HEADER: string := "Missing or invalid Authorization header"
  const BAD_TOKEN: string := "Invalid or expired token"
  const FORBIDDEN: string := "Forbidden"

  datatype Decision = Deny(status: int, message: string) | Admit(user: User)

  /**
   * The filter's decision, checked in order: the header and its
   * case-sensitive "Bearer " prefix, then the token (the text after the
   * first seven characters), then the role ordinal.
   */
  function Authorize(header: Option<string>, sessions: map<string, User>, required: Role): Decision
  {
    if header.None? || !StartsWith(header.value, BEARER) then Deny(401, MISSING_HEADER)
    else match UserOf(sessions, header.value[|BEARER|..])
      case None => Deny(401, BAD_TOKEN)
      case Some(u) => if Ordinal(u.role) < Ordinal(required) then Deny(403, FORBIDDEN) else Admit(u)
  }

  /** The token a well-formed header carries. */
  function TokenOf(header: string): string
    requires StartsWith(header, BEARER)
  {
    header[|BEARER|..]
  }

  /**
   * Admission happens exactly for a well-formed header whose token is known
   * and whose user's role is at least the required one; every denial is 401
   * or 403, and 403 only once the header and the token have both passed, so
   * a 401 always takes precedence.
   */
  lemma AuthorizeCases(header: Option<string>, sessions: map<string, User>, required: Role)
    ensures var d := Authorize(header, sessions, required);
      && (d.Admit? <==>
            header.Some? && StartsWith(header.value, BEARER) && TokenOf(header.value) in sessions
            && Ordinal(sessions[TokenOf(header.value)].role) >= Ordinal(required))
      && (d.Admit? ==> d.user == sessions[TokenOf(header.value)])
      && (d.Deny? ==> d.status == 401 || d.status == 403)
      && (d.Deny? && d.status == 403 <==>
            header.Some? && StartsWith(header.value, BEARER) && TokenOf(header.value) in sessions
            && Ordinal(sessions[TokenOf(header.value)].role) < Ordinal(required))
      && (header.None? || !StartsWith(header.value, BEARER) ==> d == Deny(401, MISSING_HEADER))
  {
  }

  /**
   * With roles ordered USER < ADMIN: a USER route admits every known token,
   * and an ADMIN route admits only administrators.
   */
  lemma RolePolicy(header: Option<string>, sessions: map<string, User>)
    ensures Authorize(header, sessions, USER).Admit? <==>
      header.Some? && StartsWith(header.value, BEARER) && TokenOf(header.value) in sessions
    ensures Authorize(header, sessions, ADMIN).Admit? ==> Authorize(header, sessions, ADMIN).user.role == ADMIN
  {
  }

  /** A token just issued for a user, presented as "Bearer <token>", resolves to that user. */
  lemma {:induction false} IssuedTokenAdmits(sessions: map<string, User>, token: string, user: User, required: Role)
    ensures Authorize(Some(BEARER + token), sessions[token := user], required) ==
      if Ordinal(user.role) >= Ordinal(required) then Admit(user) else Deny(403, FORBIDDEN)
  {
    var header := BEARER + token;
    assert header[..|BEARER|] == BEARER;
    assert header[|BEARER|..] == token;
  }

  /** The prefix is matched case-sensitively: a lower-case "bearer" header is refused even with a known token. */
  lemma {:induction false} LowerCaseSchemeRefused(sessions: map<string, User>, token: string)
    ensures Authorize(Some("bearer " + token), sessions, USER) == Deny(401, MISSING_HEADER)
  {
    var header := "bearer " + token;
    assert header[0] == 'b' && BEARER[0] == 'B';
    assert header[..|BEARER|] != BEARER by {
      assert header[..|BEARER|][0] != BEARER[0];
    }
  }

  /**
   * `doFilter`: a denial sends its error and stops the chain; an admission
   * attaches `user` and `userId` and passes the exchange on exactly once.
   */
  method DoFilter(exchange: Exchange, tokens: SessionTable, required: Role)
    modifies exchange
    ensures match Authorize(exchange.authorization, tokens.sessions, required)
      case Deny(status, message) =>
        && exchange.replies == old(exchange.replies) + [ErrorReply(status, message)]
        && exchange.attributes == old(exchange.attributes) && exchange.forwarded == old(exchange.forwarded)
      case Admit(u) =>
        && exchange.attributes == old(exchange.attributes)["user" := UserAttr(u)]["userId" := UserIdAttr(u.id)]
        && exchange.forwarded == old(exchange.forwarded) + 1
        && exchange.replies == old(exchange.replies)
  {
    var authHeader := exchange.authorization;
    if authHeader.None? || !StartsWith(authHeader.value, BEARER) {
      exchange.Send(ErrorReply(401, MISSING_HEADER));
      return;
    }
    var token := authHeader.value[7..];
    var user := UserOf(tokens.sessions, token);
    if user.None? {
      exchange.Send(ErrorReply(401, BAD_TOKEN));
      return;
    }
    if Ordinal(user.value.role) < Ordinal(required) {
      exchange.Send(ErrorReply(403, FORBIDDEN));
      return;
    }
    exchange.SetAttribute("user", UserAttr(user.value));
    exchange.SetAttribute("userId", UserIdAttr(user.value.id));
    exchange.Forward();
  }
}
