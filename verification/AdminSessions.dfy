/**
  Sessions of the admin panel (internal/service/admin.go).

  Login and ValidateSession read the clock under the mutex; cleanupSessions reads it before taking the
  mutex.  The outcome of the password check and the random token are inputs.
  */
module AdminSessions {
  import opened Wrappers

  type Time = int

  const HOUR: int := 3_600 * 1_000_000_000
  const SESSION_TTL: int := 8 * HOUR

  /** Tokens and when their sessions expire. */
  type Sessions = map<string, Time>

  datatype Refusal = InvalidCredentials | NoRandomness

  function Unexpired(s: Sessions, now: Time): Sessions {
    map token | token in s && now <= s[token] :: s[token]
  }

  predicate Valid(s: Sessions, token: string, now: Time) {
    token in s && now <= s[token]
  }

  class AdminService {
    const login: string
    var sessions: Sessions

    constructor (login: string)
      ensures this.login == login && sessions == map[]
    {
      this.login := login;
      sessions := map[];
    }

    method Login(login: string, passwordMatches: bool, token: Option<string>, now: Time)
      returns (r: Result<string, Refusal>)
      modifies this
      ensures r.Ok? <==> login == this.login && passwordMatches && token.Some?
      ensures r.Ok? ==> r.value == token.value && sessions == old(sessions)[token.value := now + SESSION_TTL]
      ensures r.Err? ==> sessions == old(sessions)
    {
      if login != this.login {
        return Err(InvalidCredentials);
      }
      if !passwordMatches {
        return Err(InvalidCredentials);
      }
      if token.None? {
        return Err(NoRandomness);
      }
      sessions := sessions[token.value := now + SESSION_TTL];
      return Ok(token.value);
    }

    method ValidateSession(token: string, now: Time) returns (ok: bool)
      modifies this
      ensures ok == Valid(old(sessions), token, now)
      ensures sessions == if ok then old(sessions) else old(sessions) - {token}
    {
      if token !in sessions || now > sessions[token] {
        sessions := sessions - {token};
        return false;
      }
      return true;
    }

    method Logout(token: string)
      modifies this
      ensures sessions == old(sessions) - {token}
    {
      sessions := sessions - {token};
    }

    method CleanupSessions(reading: Time)
      modifies this
      ensures sessions == Unexpired(old(sessions), reading)
    {
      var todo := sessions.Keys;
      while todo != {}
        invariant todo <= sessions.Keys <= old(sessions).Keys
        invariant forall t :: t in sessions ==> sessions[t] == old(sessions)[t]
        invariant forall t :: t in old(sessions) && t !in todo ==> (t in sessions <==> reading <= old(sessions)[t])
        decreases todo
      {
        var token :| token in todo;
        todo := todo - {token};
        if reading > sessions[token] {
          sessions := sessions - {token};
        }
      }
    }
  }

  // ---------- histories ----------

  datatype Event =
    | LoggedIn(token: string, at: Time)
    | Validated(token: string, at: Time)
    | LoggedOut(token: string)
    | CleanedUp(at: Time)

  function Next(s: Sessions, e: Event): Sessions {
    match e
    case LoggedIn(token, at) => s[token := at + SESSION_TTL]
    case Validated(token, at) => if Valid(s, token, at) then s else s - {token}
    case LoggedOut(token) => s - {token}
    case CleanedUp(at) => Unexpired(s, at)
  }

  function After(history: seq<Event>): Sessions {
    if history == [] then map[]
    else Next(After(history[..|history| - 1]), history[|history| - 1])
  }

  /** When `token` was last issued, if it was and has not been logged out since. */
  function Issued(history: seq<Event>, token: string): Option<Time> {
    if history == [] then None
    else
      var e := history[|history| - 1];
      if e.LoggedIn? && e.token == token then Some(e.at)
      else if e.LoggedOut? && e.token == token then None
      else Issued(history[..|history| - 1], token)
  }

  predicate Until(history: seq<Event>, now: Time) {
    forall i :: 0 <= i < |history| && !history[i].LoggedOut? ==> history[i].at <= now
  }

  lemma {:induction false} TableFollowsHistory(history: seq<Event>, token: string, now: Time)
    requires Until(history, now)
    ensures var s, issued := After(history), Issued(history, token);
            && (token in s ==> issued == Some(s[token] - SESSION_TTL))
            && (token !in s && issued.Some? ==> issued.value + SESSION_TTL < now)
  {
    if history != [] {
      TableFollowsHistory(history[..|history| - 1], token, now);
    }
  }

  /**
    Whatever was validated, logged out or cleaned up before: a token is valid exactly when it was
    issued at most eight hours ago and not logged out since.
    */
  lemma ValidIffIssued(history: seq<Event>, token: string, now: Time)
    requires Until(history, now)
    ensures Valid(After(history), token, now)
       <==> Issued(history, token).Some? && now <= Issued(history, token).value + 28_800_000_000_000
  {
    TableFollowsHistory(history, token, now);
  }

  function WithoutUpkeep(history: seq<Event>): seq<Event> {
    if history == [] then []
    else
      var e := history[|history| - 1];
      WithoutUpkeep(history[..|history| - 1]) + if e.CleanedUp? || e.Validated? then [] else [e]
  }

  lemma {:induction false} UpkeepIssuesNothing(history: seq<Event>, token: string, now: Time)
    requires Until(history, now)
    ensures Until(WithoutUpkeep(history), now)
    ensures Issued(WithoutUpkeep(history), token) == Issued(history, token)
  {
    if history != [] {
      var init, e := history[..|history| - 1], history[|history| - 1];
      UpkeepIssuesNothing(init, token, now);
      var h := WithoutUpkeep(history);
      if e.CleanedUp? || e.Validated? {
        assert h == WithoutUpkeep(init);
      } else {
        assert h[..|h| - 1] == WithoutUpkeep(init) && h[|h| - 1] == e;
      }
    }
  }

  /** Neither cleanups nor earlier validations, wherever they happen, change an answer. */
  lemma UpkeepUnobservable(history: seq<Event>, token: string, now: Time)
    requires Until(history, now)
    ensures Valid(After(history), token, now) == Valid(After(WithoutUpkeep(history)), token, now)
  {
    UpkeepIssuesNothing(history, token, now);
    ValidIffIssued(history, token, now);
    ValidIffIssued(WithoutUpkeep(history), token, now);
  }
}
