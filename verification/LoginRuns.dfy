/**
 Sequential runs of the login under a clock that does not run back: what every
 run keeps, and what five wrong codes cost.
 */
module LoginRuns {
  import opened EnrollmentDomain
  import opened LoginStore
  import opened LoginService

  // ---------------------------------------------------------------- runs

  /**
   The two stores and the latest clock reading. `wrong`, `lost` and `logins`
   are history, by challenge: wrong codes presented, wrong codes whose counting
   failed, and sessions created.
   */
  datatype State = State(challenges: Challenges, sessions: Sessions, clock: Time,
                         wrong: multiset<nat>, lost: multiset<nat>, logins: multiset<nat>)

  datatype Command =
    | Start(email: Email, start: StartWorld)
    | Verify(address: Email, code: Hash, verify: VerifyWorld)
    | Logout(ended: SessionId, fails: bool)
    | Sweep(now: Time)

  predicate Enabled(s: State, c: Command) {
    match c
    case Start(_, w) => s.clock <= w.now <= w.later
    case Verify(_, _, w) => s.clock <= w.now
    case Logout(_, _) => true
    case Sweep(now) => s.clock <= now
  }

  function Next(cfg: Config, s: State, c: Command): State {
    match c
    case Start(email, w) => s.(challenges := StartChallenges(cfg, s.challenges, email, w), clock := w.later)
    case Verify(email, code, w) =>
      var k := Checked(s.challenges, email, w);
      s.(challenges := VerifyChallenges(s.challenges, email, code, w),
         sessions := VerifySessions(cfg, s.challenges, s.sessions, email, code, w),
         clock := w.now,
         wrong := if WrongCode(s.challenges, email, code, w) then s.wrong + multiset{k.value} else s.wrong,
         lost := if WrongCode(s.challenges, email, code, w) && w.incrementFails then s.lost + multiset{k.value} else s.lost,
         logins := if LogsIn(s.challenges, s.sessions, email, code, w) then s.logins + multiset{k.value} else s.logins)
    case Logout(id, fails) => s.(sessions := if fails then s.sessions else s.sessions - {id})
    case Sweep(now) => s.(sessions := Swept(s.sessions, now), clock := now)
  }

  ghost predicate IsRun(cfg: Config, ss: seq<State>, cmds: seq<Command>) {
    && |ss| == |cmds| + 1
    && ss[0].challenges == [] && ss[0].sessions == map[]
    && ss[0].wrong == ss[0].lost == ss[0].logins == multiset{}
    && forall i :: 0 <= i < |cmds| ==> Enabled(ss[i], cmds[i]) && ss[i + 1] == Next(cfg, ss[i], cmds[i])
  }

  // ---------------------------------------------------------------- what every run keeps

  /** At most one challenge per email is live. */
  ghost predicate OneLive(cs: Challenges, now: Time) {
    forall i, j :: 0 <= i < j < |cs| && cs[i].email == cs[j].email ==>
      !(Live(cs[i], cs[i].email, now) && Live(cs[j], cs[j].email, now))
  }

  /** Counted wrong codes never pass five, an uncounted one was lost, and only a used-up challenge has led to a session, one. */
  ghost predicate CountsOk(s: State) {
    forall k: nat :: ChallengeCounts(s, k)
  }

  predicate ChallengeCounts(s: State, k: nat) {
    if k < |s.challenges| then
      && s.challenges[k].attempts <= MAX_OTP_ATTEMPTS
      && s.wrong[k] == s.challenges[k].attempts + s.lost[k]
      && s.logins[k] <= if s.challenges[k].consumed then 1 else 0
    else s.wrong[k] == s.lost[k] == s.logins[k] == 0
  }

  ghost predicate Inv(s: State) {
    OneLive(s.challenges, s.clock) && CountsOk(s)
  }

  lemma StepKeepsOneLive(cfg: Config, s: State, c: Command)
    requires Inv(s) && Enabled(s, c)
    ensures OneLive(Next(cfg, s, c).challenges, Next(cfg, s, c).clock)
  {
    var s' := Next(cfg, s, c);
    forall i, j | 0 <= i < j < |s'.challenges| && s'.challenges[i].email == s'.challenges[j].email
      ensures !(Live(s'.challenges[i], s'.challenges[i].email, s'.clock) && Live(s'.challenges[j], s'.challenges[j].email, s'.clock))
    {
    }
  }

  lemma StepKeepsChallengeCounts(cfg: Config, s: State, c: Command, k: nat)
    requires ChallengeCounts(s, k)
    ensures ChallengeCounts(Next(cfg, s, c), k)
  {
    if c.Verify? {
      var checked := Checked(s.challenges, c.address, c.verify);
      if checked.None? || checked.value != k {
        assert k < |s.challenges| ==> VerifyChallenges(s.challenges, c.address, c.code, c.verify)[k] == s.challenges[k];
      }
    }
  }

  lemma StepKeepsCounts(cfg: Config, s: State, c: Command)
    requires Inv(s) && Enabled(s, c)
    ensures CountsOk(Next(cfg, s, c))
  {
    forall k: nat ensures ChallengeCounts(Next(cfg, s, c), k) {
      StepKeepsChallengeCounts(cfg, s, c, k);
    }
  }

  lemma {:induction false} LoginInvariant(cfg: Config, ss: seq<State>, cmds: seq<Command>, i: nat)
    requires IsRun(cfg, ss, cmds) && i < |ss|
    ensures Inv(ss[i])
  {
    if i > 0 {
      LoginInvariant(cfg, ss, cmds, i - 1);
      StepKeepsOneLive(cfg, ss[i - 1], cmds[i - 1]);
      StepKeepsCounts(cfg, ss[i - 1], cmds[i - 1]);
    }
  }

  // ---------------------------------------------------------------- five wrong codes

  /** The challenge has used up its attempts and is still there. */
  predicate Exhausted(cs: Challenges, k: nat) {
    k < |cs| && !cs[k].consumed && cs[k].attempts >= MAX_OTP_ATTEMPTS
  }

  /** When a command reads the clock last. */
  function At(s: State, c: Command): Time {
    match c
    case Start(_, w) => w.now
    case Verify(_, _, w) => w.now
    case Logout(_, _) => s.clock
    case Sweep(now) => now
  }

  /** One step on an exhausted challenge before its expiry. */
  lemma ExhaustedStep(cfg: Config, s: State, c: Command, k: nat)
    requires Inv(s) && Enabled(s, c) && Exhausted(s.challenges, k)
    ensures var s' := Next(cfg, s, c);
      Exhausted(s'.challenges, k) && s'.challenges[k] == s.challenges[k]
    ensures c.Start? && c.email == s.challenges[k].email && c.start.now < s.challenges[k].expiresAt ==>
      Next(cfg, s, c).challenges == s.challenges
    ensures c.Verify? && c.address == s.challenges[k].email && c.verify.now < s.challenges[k].expiresAt ==>
      !LogsIn(s.challenges, s.sessions, c.address, c.code, c.verify) && Next(cfg, s, c).challenges == s.challenges
  {
    var e := s.challenges[k].email;
    if c.Verify? && c.address == e && c.verify.now < s.challenges[k].expiresAt {
      var latest := Latest(s.challenges, e, c.verify.now);
      assert Live(s.challenges[k], e, c.verify.now);
      assert latest.Some? && k <= latest.value;
    }
  }

  lemma {:induction false} ExhaustedStays(cfg: Config, ss: seq<State>, cmds: seq<Command>, i: nat, j: nat, k: nat)
    requires IsRun(cfg, ss, cmds) && i <= j < |ss| && Exhausted(ss[i].challenges, k)
    ensures Exhausted(ss[j].challenges, k) && ss[j].challenges[k] == ss[i].challenges[k]
  {
    if i < j {
      ExhaustedStays(cfg, ss, cmds, i, j - 1, k);
      LoginInvariant(cfg, ss, cmds, j - 1);
      ExhaustedStep(cfg, ss[j - 1], cmds[j - 1], k);
    }
  }

  /**
   After the fifth counted wrong code, until the challenge expires, no code
   logs this email in, right or wrong, and no start creates another challenge.
   */
  lemma LockedOutUntilExpiry(cfg: Config, ss: seq<State>, cmds: seq<Command>, i: nat, j: nat, k: nat)
    requires IsRun(cfg, ss, cmds) && i <= j < |cmds| && Exhausted(ss[i].challenges, k)
    requires At(ss[j], cmds[j]) < ss[i].challenges[k].expiresAt
    ensures cmds[j].Start? && cmds[j].email == ss[i].challenges[k].email ==> ss[j + 1].challenges == ss[j].challenges
    ensures cmds[j].Verify? && cmds[j].address == ss[i].challenges[k].email ==>
      ss[j + 1].challenges == ss[j].challenges && ss[j + 1].sessions == ss[j].sessions
  {
    ExhaustedStays(cfg, ss, cmds, i, j, k);
    LoginInvariant(cfg, ss, cmds, j);
    ExhaustedStep(cfg, ss[j], cmds[j], k);
  }

  // ---------------------------------------------------------------- which codes log in

  /** The command stores a new challenge. */
  predicate Stores(s: State, c: Command) {
    c.Start? && Mints(s.challenges, c.email, c.start) && !c.start.generateFails && !c.start.createFails
  }

  /** The command uses the challenge up. */
  predicate Uses(s: State, c: Command, k: nat) {
    c.Verify? && Consumes(s.challenges, c.address, c.code, c.verify) && Checked(s.challenges, c.address, c.verify) == Some(k)
  }

  ghost predicate UsedBetween(ss: seq<State>, cmds: seq<Command>, i: int, j: nat, k: nat)
    requires |ss| == |cmds| + 1 && 0 <= i && j < |ss|
  {
    exists m :: i < m < j && Uses(ss[m], cmds[m], k)
  }

  /** What a step does to a stored challenge. */
  lemma StepOnChallenge(cfg: Config, s: State, c: Command, k: nat)
    requires k < |s.challenges|
    ensures var s' := Next(cfg, s, c);
      && k < |s'.challenges|
      && s'.challenges[k] == s.challenges[k].(attempts := s'.challenges[k].attempts, consumed := s'.challenges[k].consumed)
      && (s'.challenges[k].consumed <==> s.challenges[k].consumed || Uses(s, c, k))
  {
  }

  /** The i-th command stored challenge k, and no command before the j-th used it up if it is unused. */
  ghost predicate StoredBy(cfg: Config, ss: seq<State>, cmds: seq<Command>, i: int, j: nat, k: nat)
    requires |ss| == |cmds| + 1 && j < |ss| && k < |ss[j].challenges|
  {
    && 0 <= i < j && Stores(ss[i], cmds[i]) && |ss[i].challenges| == k
    && ss[j].challenges[k].email == cmds[i].email
    && ss[j].challenges[k].codeHash == cmds[i].start.codeHash
    && ss[j].challenges[k].expiresAt == cmds[i].start.later + cfg.otpTTL
    && (ss[j].challenges[k].consumed <==> UsedBetween(ss, cmds, i, j, k))
  }

  lemma {:induction false} ChallengesNeverVanish(cfg: Config, ss: seq<State>, cmds: seq<Command>, i: nat, j: nat)
    requires IsRun(cfg, ss, cmds) && i <= j < |ss|
    ensures |ss[i].challenges| <= |ss[j].challenges|
  {
    if i < j {
      ChallengesNeverVanish(cfg, ss, cmds, i, j - 1);
    }
  }

  lemma UsedOneStepMore(ss: seq<State>, cmds: seq<Command>, i: int, j: nat, k: nat)
    requires |ss| == |cmds| + 1 && 0 <= i < j < |ss| - 1
    ensures UsedBetween(ss, cmds, i, j + 1, k) <==> UsedBetween(ss, cmds, i, j, k) || Uses(ss[j], cmds[j], k)
  {
    if UsedBetween(ss, cmds, i, j, k) {
      var m :| i < m < j && Uses(ss[m], cmds[m], k);
      assert i < m < j + 1;
    }
  }

  /** A challenge that was not there before the step was stored by it. */
  lemma NewChallengeIsStored(cfg: Config, s: State, c: Command, k: nat)
    requires |s.challenges| <= k < |Next(cfg, s, c).challenges|
    ensures Stores(s, c) && k == |s.challenges|
    ensures Next(cfg, s, c).challenges[k] == NewChallenge(c.email, c.start.codeHash, c.start.later + cfg.otpTTL)
  {
  }

  /** Every challenge was stored by a start, and is used up exactly if a verification used it. */
  lemma {:induction false} ChallengesComeFromStarts(cfg: Config, ss: seq<State>, cmds: seq<Command>, j: nat, k: nat)
    returns (i: nat)
    requires IsRun(cfg, ss, cmds) && j < |ss| && k < |ss[j].challenges|
    ensures StoredBy(cfg, ss, cmds, i, j, k)
  {
    var s, c := ss[j - 1], cmds[j - 1];
    assert ss[j] == Next(cfg, s, c);
    if k < |s.challenges| {
      i := ChallengesComeFromStarts(cfg, ss, cmds, j - 1, k);
      StepOnChallenge(cfg, s, c, k);
      UsedOneStepMore(ss, cmds, i, j - 1, k);
    } else {
      NewChallengeIsStored(cfg, s, c, k);
      i := j - 1;
    }
  }

  /** The one live challenge of an email is the one a code is checked against. */
  lemma CheckedIsTheLiveOne(s: State, email: Email, w: VerifyWorld, k: nat)
    requires Inv(s) && s.clock <= w.now && !w.lookupFails && k < |s.challenges|
    ensures Checked(s.challenges, email, w) == Some(k) <==>
      Live(s.challenges[k], email, w.now) && s.challenges[k].attempts < MAX_OTP_ATTEMPTS
  {
    var latest := Latest(s.challenges, email, w.now);
    if Live(s.challenges[k], email, w.now) && latest.value != k {
      assert Live(s.challenges[k], email, s.clock) && Live(s.challenges[latest.value], email, s.clock);
    }
  }

  /**
   The code was minted by the i-th command for this email, is still in time,
   has not been used, and fewer than five wrong codes were counted against it.
   */
  ghost predicate CodeGoodSince(cfg: Config, ss: seq<State>, cmds: seq<Command>, i: int, j: nat)
    requires |ss| == |cmds| + 1 && j < |cmds| && cmds[j].Verify?
  {
    && 0 <= i < j && Stores(ss[i], cmds[i])
    && cmds[i].email == cmds[j].address && cmds[i].start.codeHash == cmds[j].code
    && cmds[j].verify.now < cmds[i].start.later + cfg.otpTTL
    && ss[j].wrong[|ss[i].challenges|] < MAX_OTP_ATTEMPTS + ss[j].lost[|ss[i].challenges|]
    && !UsedBetween(ss, cmds, i, j, |ss[i].challenges|)
  }

  predicate NothingFails(s: State, w: VerifyWorld) {
    !w.lookupFails && !w.consumeFails && !w.randomFails && !w.createFails && w.sessionId !in s.sessions
  }

  lemma LoginNeedsGoodCode(cfg: Config, ss: seq<State>, cmds: seq<Command>, j: nat) returns (i: nat)
    requires IsRun(cfg, ss, cmds) && j < |cmds| && cmds[j].Verify?
    requires LogsIn(ss[j].challenges, ss[j].sessions, cmds[j].address, cmds[j].code, cmds[j].verify)
    ensures CodeGoodSince(cfg, ss, cmds, i, j)
  {
    LoginInvariant(cfg, ss, cmds, j);
    var k := Checked(ss[j].challenges, cmds[j].address, cmds[j].verify).value;
    i := ChallengesComeFromStarts(cfg, ss, cmds, j, k);
    assert ChallengeCounts(ss[j], k);
  }

  lemma GoodCodeLogsIn(cfg: Config, ss: seq<State>, cmds: seq<Command>, i: nat, j: nat)
    requires IsRun(cfg, ss, cmds) && j < |cmds| && cmds[j].Verify? && CodeGoodSince(cfg, ss, cmds, i, j)
    requires NothingFails(ss[j], cmds[j].verify) && cmds[j].verify.account.Account?
    ensures LogsIn(ss[j].challenges, ss[j].sessions, cmds[j].address, cmds[j].code, cmds[j].verify)
  {
    var k := |ss[i].challenges|;
    LoginInvariant(cfg, ss, cmds, j);
    ChallengesNeverVanish(cfg, ss, cmds, i + 1, j);
    assert ChallengeCounts(ss[j], k);
    var i' := ChallengesComeFromStarts(cfg, ss, cmds, j, k);
    OneStartPerChallenge(cfg, ss, cmds, i, i');
    CheckedIsTheLiveOne(ss[j], cmds[j].address, cmds[j].verify, k);
  }

  lemma OneStartPerChallenge(cfg: Config, ss: seq<State>, cmds: seq<Command>, i: nat, i': nat)
    requires IsRun(cfg, ss, cmds) && i < |cmds| && i' < |cmds|
    requires Stores(ss[i], cmds[i]) && Stores(ss[i'], cmds[i']) && |ss[i].challenges| == |ss[i'].challenges|
    ensures i == i'
  {
    if i < i' {
      ChallengesNeverVanish(cfg, ss, cmds, i + 1, i');
    } else if i' < i {
      ChallengesNeverVanish(cfg, ss, cmds, i' + 1, i);
    }
  }

  /**
   As long as nothing fails, a code logs an active account in if and only if a
   start minted it for this email, it is in time and unused, and fewer than
   five wrong codes were counted against it.
   */
  lemma LogsInExactlyWhen(cfg: Config, ss: seq<State>, cmds: seq<Command>, j: nat)
    requires IsRun(cfg, ss, cmds) && j < |cmds| && cmds[j].Verify? && NothingFails(ss[j], cmds[j].verify)
    ensures LogsIn(ss[j].challenges, ss[j].sessions, cmds[j].address, cmds[j].code, cmds[j].verify) <==>
      cmds[j].verify.account.Account? && exists i :: CodeGoodSince(cfg, ss, cmds, i, j)
  {
    if LogsIn(ss[j].challenges, ss[j].sessions, cmds[j].address, cmds[j].code, cmds[j].verify) {
      var i := LoginNeedsGoodCode(cfg, ss, cmds, j);
    }
    if i :| CodeGoodSince(cfg, ss, cmds, i, j) {
      if cmds[j].verify.account.Account? {
        GoodCodeLogsIn(cfg, ss, cmds, i, j);
      }
    }
  }

  // ---------------------------------------------------------------- what a start tells

  /**
   Starting is meant to answer the same whether or not the email has an
   account. It does unless a component fails that is only reached for an
   account: reading the challenges, or minting and mailing a new code.
   */
  lemma AnswerRevealsAccountExactlyWhen(cs: Challenges, email: Email, w: StartWorld, subject: SubjectId)
    ensures StartAnswer(cs, email, w.(account := Account(subject))) != StartAnswer(cs, email, w.(account := Unknown)) <==>
      w.allowed && (w.lookupFails || (Latest(cs, email, w.now).None? && (w.generateFails || w.createFails || w.mailFails)))
  {
  }

  /** One input on which it does not: the mail server fails, and only an account gets that far. */
  lemma FailedMailRevealsAccount()
    ensures var w := StartWorld(true, Unknown, 0, 0, "hash", false, false, false, true);
      StartAnswer([], "email", w) == Ok(()) && StartAnswer([], "email", w.(account := Account("id"))) == Err(Internal)
  {
  }

  // ---------------------------------------------------------------- sessions

  /** The command creates the session, for the account it names. */
  predicate Creates(s: State, c: Command, id: SessionId) {
    c.Verify? && c.verify.sessionId == id && LogsIn(s.challenges, s.sessions, c.address, c.code, c.verify)
  }

  predicate Ends(c: Command, id: SessionId) {
    c.Logout? && c.ended == id && !c.fails
  }

  /** Created by the i-th command for `who`, not ended before the j-th, and not expired at `at`. */
  ghost predicate AliveSince(cfg: Config, ss: seq<State>, cmds: seq<Command>, i: int, j: nat, id: SessionId, who: SubjectId, at: Time)
    requires |ss| == |cmds| + 1 && j < |ss|
  {
    && 0 <= i < j
    && CreatedFor(cfg, ss[i], cmds[i], id, who, at)
    && forall k :: i < k < j ==> !Ends(cmds[k], id)
  }

  predicate CreatedFor(cfg: Config, s: State, c: Command, id: SessionId, who: SubjectId, at: Time) {
    Creates(s, c, id) && c.verify.account.subject == who && at <= c.verify.now + cfg.sessionTTL
  }

  predicate Valid(s: State, id: SessionId, who: SubjectId, at: Time) {
    id in s.sessions && s.sessions[id].subject == who && at <= s.sessions[id].expiresAt
  }

  /** How one step changes what authenticates at a later time. */
  lemma StepChangesSession(cfg: Config, s: State, c: Command, id: SessionId, who: SubjectId, at: Time)
    requires Enabled(s, c) && Next(cfg, s, c).clock <= at
    ensures Valid(Next(cfg, s, c), id, who, at) <==>
      (if Creates(s, c, id) then CreatedFor(cfg, s, c, id, who, at) else Valid(s, id, who, at) && !Ends(c, id))
    ensures Creates(s, c, id) ==> !Valid(s, id, who, at)
    ensures s.clock <= Next(cfg, s, c).clock
  {
  }

  lemma AliveOneStepMore(cfg: Config, ss: seq<State>, cmds: seq<Command>, i: int, j: nat, id: SessionId, who: SubjectId, at: Time)
    requires |ss| == |cmds| + 1 && 0 < j < |ss|
    ensures AliveSince(cfg, ss, cmds, i, j, id, who, at) <==>
      (if i == j - 1 then CreatedFor(cfg, ss[i], cmds[i], id, who, at)
       else AliveSince(cfg, ss, cmds, i, j - 1, id, who, at) && !Ends(cmds[j - 1], id))
  {
  }

  /**
   A session is valid for an account exactly if a verified code created it for
   that account no longer than the session lifetime ago and it has not been
   logged out since: sweeping expired sessions away is invisible.
   */
  lemma {:induction false} SessionValidExactlyWhen(cfg: Config, ss: seq<State>, cmds: seq<Command>, j: nat,
                                                   id: SessionId, who: SubjectId, at: Time)
    requires IsRun(cfg, ss, cmds) && j < |ss| && ss[j].clock <= at
    ensures Valid(ss[j], id, who, at) <==> exists i :: AliveSince(cfg, ss, cmds, i, j, id, who, at)
  {
    if j > 0 {
      var s, c := ss[j - 1], cmds[j - 1];
      StepChangesSession(cfg, s, c, id, who, at);
      SessionValidExactlyWhen(cfg, ss, cmds, j - 1, id, who, at);
      if Valid(ss[j], id, who, at) {
        var i := j - 1;
        if !Creates(s, c, id) {
          i :| AliveSince(cfg, ss, cmds, i, j - 1, id, who, at);
        }
        AliveOneStepMore(cfg, ss, cmds, i, j, id, who, at);
      }
      if i :| AliveSince(cfg, ss, cmds, i, j, id, who, at) {
        AliveOneStepMore(cfg, ss, cmds, i, j, id, who, at);
      }
    }
  }

  /** What Authenticate answers in terms of the run. */
  lemma AuthenticateExactlyWhen(cfg: Config, ss: seq<State>, cmds: seq<Command>, j: nat, id: SessionId, readFails: bool,
                                active: Reply, who: SubjectId, at: Time)
    requires IsRun(cfg, ss, cmds) && j < |ss| && ss[j].clock <= at
    ensures AuthenticateAnswer(ss[j].sessions, id, readFails, active, at) == Ok(who) <==>
      !readFails && active.Account? && exists i :: AliveSince(cfg, ss, cmds, i, j, id, who, at)
  {
    SessionValidExactlyWhen(cfg, ss, cmds, j, id, who, at);
  }
}
