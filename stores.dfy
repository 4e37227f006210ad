/**
 * The OTP settings store. Its data-access object is not part of this model;
 * it is represented by the one row it holds, which every issue and validate
 * call reads afresh and the administrator overwrites.
 */
module OtpConfigDao {
  import opened Model

  class ConfigTable {
    var config: OtpConfig

    constructor (config: OtpConfig)
      ensures this.config == config
    {
      this.config := config;
    }

    /** `updateConfig`: replaces the stored settings. */
    method UpdateConfig(config: OtpConfig)
      modifies this
      ensures this.config == config
    {
      this.config := config;
    }
  }
}

/**
 * The bearer-token store. The token manager itself is not part of this
 * model: it is represented as a map from token to the user it was issued
 * for, with each new token supplied by the caller (it is random in the
 * source).
 */
module TokenManager {
  import opened Model

  class SessionTable {
    var sessions: map<string, User>

    constructor ()
      ensures sessions == map[]
    {
      sessions := map[];
    }

    /** `generateToken`: binds a new token to the user and returns it. */
    method GenerateToken(user: User, token: string) returns (issued: string)
      modifies this
      ensures issued == token
      ensures sessions == old(sessions)[token := user]
    {
      sessions := sessions[token := user];
      issued := token;
    }
  }

  /** `getUser`: the user a token was issued for, or nothing for an unknown token. */
  function UserOf(sessions: map<string, User>, token: string): (r: Option<User>)
    ensures r.Some? <==> token in sessions
    ensures r.Some? ==> r.value == sessions[token]
  {
    if token in sessions then Some(sessions[token]) else None
  }
}
