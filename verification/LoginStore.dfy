/**
 The tables behind the one-time-code login and the small statements on them.
 */
module LoginStore {
  import opened EnrollmentDomain

  type Email = string
  type Hash = string
  type SessionId = string
  type SubjectId = string
  type Time = int

  /** A one-time-code challenge. */
  datatype Challenge = Challenge(email: Email, codeHash: Hash, expiresAt: Time, consumed: bool, attempts: nat)

  datatype Session = Session(subject: SubjectId, expiresAt: Time)

  /** Challenges in the order of their creation: a challenge's number is its id. */
  type Challenges = seq<Challenge>

  type Sessions = map<SessionId, Session>

  function NewChallenge(email: Email, codeHash: Hash, expiresAt: Time): Challenge {
    Challenge(email, codeHash, expiresAt, false, 0)
  }

  predicate Live(c: Challenge, email: Email, now: Time) {
    c.email == email && !c.consumed && c.expiresAt > now
  }

  /** The youngest live challenge. */
  function Latest(cs: Challenges, email: Email, now: Time): (r: Option<nat>)
    ensures r.Some? ==> r.value < |cs| && Live(cs[r.value], email, now)
    ensures forall i :: 0 <= i < |cs| && Live(cs[i], email, now) ==> r.Some? && i <= r.value
  {
    if cs == [] then None
    else if Live(cs[|cs| - 1], email, now) then Some(|cs| - 1)
    else Latest(cs[..|cs| - 1], email, now)
  }

  function Swept(ss: Sessions, now: Time): Sessions {
    map id | id in ss && ss[id].expiresAt >= now :: ss[id]
  }

  class ChallengeRepo {
    var rows: Challenges

    constructor ()
      ensures rows == []
    {
      rows := [];
    }

    method Create(email: Email, codeHash: Hash, expiresAt: Time)
      modifies this
      ensures rows == old(rows) + [NewChallenge(email, codeHash, expiresAt)]
    {
      rows := rows + [NewChallenge(email, codeHash, expiresAt)];
    }

    method IncrementAttempts(id: nat)
      requires id < |rows|
      modifies this
      ensures rows == old(rows)[id := old(rows)[id].(attempts := old(rows)[id].attempts + 1)]
    {
      rows := rows[id := rows[id].(attempts := rows[id].attempts + 1)];
    }

    method Consume(id: nat)
      requires id < |rows|
      modifies this
      ensures rows == old(rows)[id := old(rows)[id].(consumed := true)]
    {
      rows := rows[id := rows[id].(consumed := true)];
    }
  }

  class SessionRepo {
    var rows: Sessions

    constructor ()
      ensures rows == map[]
    {
      rows := map[];
    }

    /** The id is the primary key: a duplicate is refused. */
    method Create(id: SessionId, s: Session) returns (ok: bool)
      modifies this
      ensures ok <==> id !in old(rows)
      ensures rows == if ok then old(rows)[id := s] else old(rows)
    {
      ok := id !in rows;
      if ok {
        rows := rows[id := s];
      }
    }

    method Delete(id: SessionId)
      modifies this
      ensures rows == old(rows) - {id}
    {
      rows := rows - {id};
    }

    /** A session stays if and only if it has not expired, and it stays as it was. */
    method DeleteExpired(now: Time)
      modifies this
      ensures forall id :: id in rows <==> id in old(rows) && !(old(rows)[id].expiresAt < now)
      ensures forall id :: id in rows ==> rows[id] == old(rows)[id]
      ensures rows == Swept(old(rows), now)
    {
      rows := Swept(rows, now);
    }
  }
}
