/**
 The one-time-code login: starting, verifying, authenticating and logging out
 over the two stores.
 */
module LoginService {
  import opened EnrollmentDomain
  import opened LoginStore

  const MAX_OTP_ATTEMPTS := 5

  datatype Config = Config(otpTTL: Time, sessionTTL: Time)

  /** The directory's answer: out of order, no active account, or the account. */
  datatype Reply = Unavailable | Unknown | Account(subject: SubjectId)

  /** What surrounds one StartLogin: the answers it gets, the clock it reads twice, and what fails. */
  datatype StartWorld = StartWorld(allowed: bool, account: Reply, now: Time, later: Time, codeHash: Hash,
                                   lookupFails: bool, generateFails: bool, createFails: bool, mailFails: bool)

  datatype VerifyWorld = VerifyWorld(account: Reply, now: Time, sessionId: SessionId, lookupFails: bool,
                                     incrementFails: bool, consumeFails: bool, randomFails: bool, createFails: bool)

  datatype LoginError = InvalidCode | NoSession | Internal

  // ---------------------------------------------------------------- what the operations do

  /** StartLogin gets as far as generating a code. */
  predicate Mints(cs: Challenges, email: Email, w: StartWorld) {
    w.allowed && w.account.Account? && !w.lookupFails && Latest(cs, email, w.now).None?
  }

  /** Every start succeeds but for a failing component. */
  function StartAnswer(cs: Challenges, email: Email, w: StartWorld): Result<(), LoginError> {
    if w.allowed && (w.account.Unavailable? || (w.account.Account? && w.lookupFails)) then Err(Internal)
    else if Mints(cs, email, w) && (w.generateFails || w.createFails || w.mailFails) then Err(Internal)
    else Ok(())
  }

  function StartChallenges(cfg: Config, cs: Challenges, email: Email, w: StartWorld): Challenges {
    if Mints(cs, email, w) && !w.generateFails && !w.createFails then
      cs + [NewChallenge(email, w.codeHash, w.later + cfg.otpTTL)]
    else cs
  }

  /** The challenge a code is checked against, if there is one that still accepts codes. */
  function Checked(cs: Challenges, email: Email, w: VerifyWorld): (r: Option<nat>)
    ensures r.Some? ==> r.value < |cs| && Live(cs[r.value], email, w.now) && cs[r.value].attempts < MAX_OTP_ATTEMPTS
  {
    var latest := Latest(cs, email, w.now);
    if w.lookupFails || latest.None? || cs[latest.value].attempts >= MAX_OTP_ATTEMPTS then None else latest
  }

  predicate WrongCode(cs: Challenges, email: Email, code: Hash, w: VerifyWorld) {
    var k := Checked(cs, email, w);
    k.Some? && cs[k.value].codeHash != code
  }

  /** The challenge is used up. */
  predicate Consumes(cs: Challenges, email: Email, code: Hash, w: VerifyWorld) {
    var k := Checked(cs, email, w);
    k.Some? && cs[k.value].codeHash == code && w.account.Account? && !w.consumeFails
  }

  predicate LogsIn(cs: Challenges, ss: Sessions, email: Email, code: Hash, w: VerifyWorld) {
    Consumes(cs, email, code, w) && !w.randomFails && !w.createFails && w.sessionId !in ss
  }

  function VerifyChallenges(cs: Challenges, email: Email, code: Hash, w: VerifyWorld): Challenges {
    var k := Checked(cs, email, w);
    if k.None? then cs
    else if WrongCode(cs, email, code, w) then
      if w.incrementFails then cs else cs[k.value := cs[k.value].(attempts := cs[k.value].attempts + 1)]
    else if Consumes(cs, email, code, w) then cs[k.value := cs[k.value].(consumed := true)]
    else cs
  }

  function VerifySessions(cfg: Config, cs: Challenges, ss: Sessions, email: Email, code: Hash, w: VerifyWorld): Sessions {
    if LogsIn(cs, ss, email, code, w) then ss[w.sessionId := Session(w.account.subject, w.now + cfg.sessionTTL)] else ss
  }

  function AuthenticateAnswer(ss: Sessions, id: SessionId, readFails: bool, active: Reply, at: Time): Result<SubjectId, LoginError> {
    if readFails then Err(Internal)
    else if id !in ss || ss[id].expiresAt < at then Err(NoSession)
    else
      match active
      case Unavailable => Err(Internal)
      case Unknown => Err(NoSession)
      case Account(_) => Ok(ss[id].subject)
  }

  // ---------------------------------------------------------------- the service

  class AuthService {
    const cfg: Config
    const challenges: ChallengeRepo
    const sessions: SessionRepo

    constructor (cfg: Config, challenges: ChallengeRepo, sessions: SessionRepo)
      ensures this.cfg == cfg && this.challenges == challenges && this.sessions == sessions
    {
      this.cfg, this.challenges, this.sessions := cfg, challenges, sessions;
    }

    method StartLogin(email: Email, w: StartWorld) returns (r: Result<(), LoginError>)
      modifies challenges
      ensures r == StartAnswer(old(challenges.rows), email, w)
      ensures challenges.rows == StartChallenges(cfg, old(challenges.rows), email, w)
    {
      if !w.allowed {
        return Ok(());
      }
      if w.account.Unavailable? {
        return Err(Internal);
      }
      if w.account.Unknown? {
        return Ok(());
      }
      if w.lookupFails {
        return Err(Internal);
      }
      var existing := Latest(challenges.rows, email, w.now);
      if existing.Some? {
        return Ok(());
      }
      if w.generateFails {
        return Err(Internal);
      }
      if w.createFails {
        return Err(Internal);
      }
      challenges.Create(email, w.codeHash, w.later + cfg.otpTTL);
      if w.mailFails {
        return Err(Internal);
      }
      return Ok(());
    }

    /** `code` is the hash of the code presented. A failed count of a wrong code is ignored. */
    method VerifyLogin(email: Email, code: Hash, w: VerifyWorld) returns (r: Result<(SubjectId, SessionId), LoginError>)
      modifies challenges, sessions
      ensures challenges.rows == VerifyChallenges(old(challenges.rows), email, code, w)
      ensures sessions.rows == VerifySessions(cfg, old(challenges.rows), old(sessions.rows), email, code, w)
      ensures r.Ok? <==> LogsIn(old(challenges.rows), old(sessions.rows), email, code, w)
      ensures r.Ok? ==> r.value == (w.account.subject, w.sessionId)
      ensures WrongCode(old(challenges.rows), email, code, w) ==> r == Err(InvalidCode)
    {
      if w.lookupFails {
        return Err(Internal);
      }
      var challenge := Latest(challenges.rows, email, w.now);
      if challenge.None? {
        return Err(InvalidCode);
      }
      var id := challenge.value;
      if challenges.rows[id].attempts >= MAX_OTP_ATTEMPTS {
        return Err(InvalidCode);
      }
      if code != challenges.rows[id].codeHash {
        if !w.incrementFails {
          challenges.IncrementAttempts(id);
        }
        return Err(InvalidCode);
      }
      if w.account.Unavailable? {
        return Err(Internal);
      }
      if w.account.Unknown? {
        return Err(InvalidCode);
      }
      if w.consumeFails {
        return Err(Internal);
      }
      challenges.Consume(id);
      if w.randomFails || w.createFails {
        return Err(Internal);
      }
      var ok := sessions.Create(w.sessionId, Session(w.account.subject, w.now + cfg.sessionTTL));
      if !ok {
        return Err(Internal);
      }
      return Ok((w.account.subject, w.sessionId));
    }

    method Authenticate(id: SessionId, readFails: bool, active: Reply, at: Time) returns (r: Result<SubjectId, LoginError>)
      ensures r == AuthenticateAnswer(sessions.rows, id, readFails, active, at)
    {
      if readFails {
        return Err(Internal);
      }
      if id !in sessions.rows || sessions.rows[id].expiresAt < at {
        return Err(NoSession);
      }
      if active.Unavailable? {
        return Err(Internal);
      }
      if active.Unknown? {
        return Err(NoSession);
      }
      return Ok(sessions.rows[id].subject);
    }

    method Logout(id: SessionId, fails: bool) returns (r: Result<(), LoginError>)
      modifies sessions
      ensures r == (if fails then Err(Internal) else Ok(()))
      ensures sessions.rows == if fails then old(sessions.rows) else old(sessions.rows) - {id}
    {
      if fails {
        return Err(Internal);
      }
      sessions.Delete(id);
      return Ok(());
    }
  }
}
