/**
  API keys and the 30-second validation cache (internal/service/apikey.go).

  The service object carries out Validate and Revoke as the source does, one call at a time.  In the
  server, calls overlap: the mutex is released between looking in the cache, asking the repository
  and storing the answer, and Revoke clears the cache before it deactivates the row.  The second half
  of the module takes those pieces as the atomic steps of a state machine and proves what survives
  every interleaving.
  */
module ApiKeys {
  import opened Wrappers

  type Time = int

  const SECOND: int := 1_000_000_000
  const KEY_CACHE_TTL: int := 30 * SECOND

  datatype Scope = Locate | Update | Both

  datatype KeyRow = KeyRow(scope: Scope, isActive: bool)

  type Rows = map<string, KeyRow>

  /** What the cache holds for a key: a row, or the fact that there was none. */
  datatype Cached = Cached(row: Option<KeyRow>, expiresAt: Time)

  type Cache = map<string, Cached>

  datatype Failure = RepositoryDown

  function RowOf(rows: Rows, key: string): Option<KeyRow> {
    if key in rows then Some(rows[key]) else None
  }

  /** The decision on a row, however it was obtained. */
  predicate Accepts(row: Option<KeyRow>, scope: Scope) {
    row.Some? && row.value.isActive && (row.value.scope == scope || row.value.scope == Both)
  }

  function Hit(cache: Cache, key: string, now: Time): Option<Option<KeyRow>> {
    if key in cache && now < cache[key].expiresAt then Some(cache[key].row) else None
  }

  function Stored(cache: Cache, key: string, row: Option<KeyRow>, now: Time): Cache {
    cache[key := Cached(row, now + KEY_CACHE_TTL)]
  }

  function Deactivated(rows: Rows, key: string): Rows {
    if key in rows then rows[key := rows[key].(isActive := false)] else rows
  }

  function Created(rows: Rows, key: string, scope: Scope): Rows {
    if key in rows then rows else rows[key := KeyRow(scope, true)]
  }

  // ---------- the service, one call at a time ----------

  class KeyRepo {
    var rows: Rows

    constructor ()
      ensures rows == map[]
    {
      rows := map[];
    }

    method GetByKey(key: string, down: bool) returns (r: Result<Option<KeyRow>, Failure>)
      ensures r == if down then Err(RepositoryDown) else Ok(RowOf(rows, key))
    {
      if down {
        return Err(RepositoryDown);
      }
      if key in rows {
        return Ok(Some(rows[key]));
      }
      return Ok(None);
    }

    method Deactivate(key: string, down: bool) returns (r: Result<(), Failure>)
      modifies this
      ensures r == if down then Err(RepositoryDown) else Ok(())
      ensures rows == if down then old(rows) else Deactivated(old(rows), key)
    {
      if down {
        return Err(RepositoryDown);
      }
      if key in rows {
        rows := rows[key := rows[key].(isActive := false)];
      }
      return Ok(());
    }
  }

  class ApiKeyService {
    const repo: KeyRepo
    var cache: Cache

    constructor (repo: KeyRepo)
      ensures this.repo == repo && cache == map[]
    {
      this.repo := repo;
      cache := map[];
    }

    /** `checkAt` and `storeAt` are the two clock readings, each taken under the mutex. */
    method GetWithCache(key: string, checkAt: Time, storeAt: Time, down: bool)
      returns (r: Result<Option<KeyRow>, Failure>)
      modifies this
      ensures Hit(old(cache), key, checkAt).Some?
        ==> r == Ok(Hit(old(cache), key, checkAt).value) && cache == old(cache)
      ensures Hit(old(cache), key, checkAt).None? && down
        ==> r == Err(RepositoryDown) && cache == old(cache)
      ensures Hit(old(cache), key, checkAt).None? && !down
        ==> r == Ok(RowOf(repo.rows, key)) && cache == Stored(old(cache), key, RowOf(repo.rows, key), storeAt)
    {
      if key in cache && checkAt < cache[key].expiresAt {
        return Ok(cache[key].row);
      }
      r := repo.GetByKey(key, down);
      if r.Err? {
        return r;
      }
      cache := cache[key := Cached(r.value, storeAt + KEY_CACHE_TTL)];
    }

    /** A live cache entry alone decides; without one the repository's row does, and is cached. */
    method Validate(key: string, scope: Scope, checkAt: Time, storeAt: Time, down: bool)
      returns (r: Result<bool, Failure>)
      modifies this
      ensures r.Err? <==> Hit(old(cache), key, checkAt).None? && down
      ensures r.Ok? ==> r.value == Accepts(match Hit(old(cache), key, checkAt)
                                           case Some(row) => row
                                           case None => RowOf(repo.rows, key), scope)
      ensures Hit(old(cache), key, checkAt).None? && !down ==>
        r == Ok(key in repo.rows && repo.rows[key].isActive
                && (repo.rows[key].scope == scope || repo.rows[key].scope == Both))
      ensures cache == if Hit(old(cache), key, checkAt).Some? || down then old(cache)
                       else Stored(old(cache), key, RowOf(repo.rows, key), storeAt)
    {
      var k := GetWithCache(key, checkAt, storeAt, down);
      if k.Err? {
        return Err(k.error);
      }
      if k.value.None? || !k.value.value.isActive {
        return Ok(false);
      }
      return Ok(k.value.value.scope == scope || k.value.value.scope == Both);
    }

    method Revoke(key: string, down: bool) returns (r: Result<(), Failure>)
      modifies this, repo
      ensures r.Err? <==> down
      ensures cache == old(cache) - {key}
      ensures repo.rows == if down then old(repo.rows) else Deactivated(old(repo.rows), key)
    {
      InvalidateCache(key);
      r := repo.Deactivate(key, down);
    }

    method InvalidateCache(key: string)
      modifies this
      ensures cache == old(cache) - {key}
    {
      cache := cache - {key};
    }
  }

  // ---------- overlapping calls ----------

  /** A call that is between two of its steps. */
  datatype Thread =
    | Missed(key: string, scope: Scope)
    | Fetched(key: string, scope: Scope, row: Option<KeyRow>, at: Time)
    | Revoking(key: string)

  datatype State = State(now: Time, rows: Rows, cache: Cache, threads: map<nat, Thread>)

  datatype Event =
    | Advance(delta: nat)
    | Check(tid: nat, key: string, scope: Scope)
    | Fetch(tid: nat)
    | FetchFail(tid: nat)
    | Store(tid: nat)
    | Invalidate(tid: nat, key: string)
    | Deactivate(tid: nat)
    | DeactivateFail(tid: nat)
    | Create(key: string, scope: Scope)

  /** One atomic step.  A step whose thread is not at the right place changes nothing. */
  function Next(s: State, e: Event): State {
    match e
    case Advance(delta) => s.(now := s.now + delta)
    case Check(tid, key, scope) =>
      if tid in s.threads || Hit(s.cache, key, s.now).Some? then s
      else s.(threads := s.threads[tid := Missed(key, scope)])
    case Fetch(tid) =>
      if tid in s.threads && s.threads[tid].Missed? then
        var t := s.threads[tid];
        s.(threads := s.threads[tid := Fetched(t.key, t.scope, RowOf(s.rows, t.key), s.now)])
      else s
    case FetchFail(tid) =>
      if tid in s.threads && s.threads[tid].Missed? then s.(threads := s.threads - {tid}) else s
    case Store(tid) =>
      if tid in s.threads && s.threads[tid].Fetched? then
        var t := s.threads[tid];
        s.(threads := s.threads - {tid}, cache := Stored(s.cache, t.key, t.row, s.now))
      else s
    case Invalidate(tid, key) =>
      if tid in s.threads then s
      else s.(threads := s.threads[tid := Revoking(key)], cache := s.cache - {key})
    case Deactivate(tid) =>
      if tid in s.threads && s.threads[tid].Revoking? then
        s.(threads := s.threads - {tid}, rows := Deactivated(s.rows, s.threads[tid].key))
      else s
    case DeactivateFail(tid) =>
      if tid in s.threads && s.threads[tid].Revoking? then s.(threads := s.threads - {tid}) else s
    case Create(key, scope) => s.(rows := Created(s.rows, key, scope))
  }

  function Exec(s: State, es: seq<Event>): State
    decreases es
  {
    if es == [] then s else Exec(Next(s, es[0]), es[1..])
  }

  /** The answer some Validate call gives in a step, with the row it is based on. */
  datatype Verdict = NoVerdict | Verdict(key: string, scope: Scope, row: Option<KeyRow>)

  function VerdictOf(s: State, e: Event): Verdict {
    match e
    case Check(tid, key, scope) =>
      if tid !in s.threads && Hit(s.cache, key, s.now).Some?
      then Verdict(key, scope, Hit(s.cache, key, s.now).value) else NoVerdict
    case Store(tid) =>
      if tid in s.threads && s.threads[tid].Fetched?
      then Verdict(s.threads[tid].key, s.threads[tid].scope, s.threads[tid].row) else NoVerdict
    case _ => NoVerdict
  }

  lemma FetchOnMiss(s: State, key: string, scope: Scope, client: nat)
    requires client !in s.threads && Hit(s.cache, key, s.now).None?
    ensures Next(Next(s, Check(client, key, scope)), Fetch(client))
         == s.(threads := s.threads[client := Fetched(key, scope, RowOf(s.rows, key), s.now)])
  {
    var s1 := Next(s, Check(client, key, scope));
    assert s1.threads == s.threads[client := Missed(key, scope)];
    assert s1.threads[client := Fetched(key, scope, RowOf(s.rows, key), s.now)]
        == s.threads[client := Fetched(key, scope, RowOf(s.rows, key), s.now)];
  }

  lemma RevokeInTwoSteps(s: State, key: string, revoker: nat)
    requires revoker !in s.threads
    ensures Next(Next(s, Invalidate(revoker, key)), Deactivate(revoker))
         == s.(cache := s.cache - {key}, rows := Deactivated(s.rows, key))
  {
    var s1 := Next(s, Invalidate(revoker, key));
    assert s1.threads - {revoker} == s.threads;
  }

  /** A call that nobody overlaps goes through these steps and leaves what the method above leaves. */
  lemma ValidateIsARun(s: State, tid: nat, key: string, scope: Scope)
    requires tid !in s.threads && Hit(s.cache, key, s.now).None?
    ensures Exec(s, [Check(tid, key, scope), Fetch(tid), Store(tid)])
         == s.(cache := Stored(s.cache, key, RowOf(s.rows, key), s.now))
  {
    var s1 := Next(s, Check(tid, key, scope));
    var s2 := Next(s1, Fetch(tid));
    var s3 := Next(s2, Store(tid));
    assert s3.threads == s.threads;
    var es := [Check(tid, key, scope), Fetch(tid), Store(tid)];
    assert es[1..] == [Fetch(tid), Store(tid)] && es[1..][1..] == [Store(tid)] && es[1..][1..][1..] == [];
    assert Exec(s, es) == Exec(s1, es[1..]) == Exec(s2, es[1..][1..]) == Exec(s3, []);
  }

  lemma RevokeIsARun(s: State, tid: nat, key: string)
    requires tid !in s.threads
    ensures Exec(s, [Invalidate(tid, key), Deactivate(tid)])
         == s.(cache := s.cache - {key}, rows := Deactivated(s.rows, key))
  {
    RevokeInTwoSteps(s, key, tid);
    var es := [Invalidate(tid, key), Deactivate(tid)];
    assert es[1..] == [Deactivate(tid)] && es[1..][1..] == [];
    assert Exec(s, es) == Exec(Next(s, es[0]), es[1..]) == Exec(Next(Next(s, es[0]), es[1]), []);
  }

  predicate AcceptsKey(s: State, e: Event, key: string) {
    var v := VerdictOf(s, e);
    v.Verdict? && v.key == key && Accepts(v.row, v.scope)
  }

  /** `states` are the states that the events `es` pass through, from a service with an empty cache. */
  ghost predicate IsRun(states: seq<State>, es: seq<Event>) {
    && |states| == |es| + 1
    && states[0].cache == map[] && states[0].threads == map[]
    && forall i :: 0 <= i < |es| ==> states[i + 1] == Next(states[i], es[i])
  }

  /** No call takes longer than `lag` from its read of the repository to its store. */
  ghost predicate StoresWithin(states: seq<State>, es: seq<Event>, lag: int)
    requires IsRun(states, es)
  {
    forall i :: 0 <= i < |es| && es[i].Store? ==>
      var s := states[i];
      es[i].tid in s.threads && s.threads[es[i].tid].Fetched? ==> s.now - s.threads[es[i].tid].at <= lag
  }

  // ---------- bounded staleness ----------

  predicate Active(row: Option<KeyRow>) {
    row.Some? && row.value.isActive
  }

  predicate Holds(s: State, tid: nat, key: string) {
    tid in s.threads && s.threads[tid].Fetched? && s.threads[tid].key == key && Active(s.threads[tid].row)
  }

  predicate Inactive(s: State, key: string) {
    key in s.rows && !s.rows[key].isActive
  }

  /** The repository held `row` for `key` in one of the first states, and not before `since`. */
  ghost predicate Seen(states: seq<State>, upTo: nat, key: string, row: Option<KeyRow>, since: Time) {
    exists j :: 0 <= j <= upTo < |states| && RowOf(states[j].rows, key) == row && since <= states[j].now
  }

  ghost predicate CacheGrounded(states: seq<State>, i: nat, lag: int)
    requires i < |states|
  {
    forall key :: key in states[i].cache ==>
      var c := states[i].cache[key];
      Seen(states, i, key, c.row, c.expiresAt - KEY_CACHE_TTL - lag)
  }

  ghost predicate ThreadsGrounded(states: seq<State>, i: nat)
    requires i < |states|
  {
    forall tid :: tid in states[i].threads && states[i].threads[tid].Fetched? ==>
      var t := states[i].threads[tid];
      Seen(states, i, t.key, t.row, t.at)
  }

  ghost predicate Grounded(states: seq<State>, i: nat, lag: int)
    requires i < |states|
  {
    CacheGrounded(states, i, lag) && ThreadsGrounded(states, i)
  }

  lemma SeenLater(states: seq<State>, i: nat, key: string, row: Option<KeyRow>, since: Time, earlier: Time)
    requires Seen(states, i, key, row, since) && earlier <= since && i + 1 < |states|
    ensures Seen(states, i + 1, key, row, earlier)
  {
    var j :| 0 <= j <= i && RowOf(states[j].rows, key) == row && since <= states[j].now;
    assert 0 <= j <= i + 1;
  }

  /** A step from a grounded state grounds the cache: a stored row was fetched at most one lag ago. */
  lemma StepGroundsCache(states: seq<State>, es: seq<Event>, lag: int, i: nat)
    requires IsRun(states, es) && StoresWithin(states, es, lag) && i < |es| && Grounded(states, i, lag)
    ensures CacheGrounded(states, i + 1, lag)
  {
    var s, e, s' := states[i], es[i], states[i + 1];
    assert s' == Next(s, e);
    forall key | key in s'.cache
      ensures Seen(states, i + 1, key, s'.cache[key].row, s'.cache[key].expiresAt - KEY_CACHE_TTL - lag)
    {
      if e.Store? && e.tid in s.threads && s.threads[e.tid].Fetched? && s.threads[e.tid].key == key {
        SeenLater(states, i, key, s.threads[e.tid].row, s.threads[e.tid].at, s.now - lag);
      } else {
        assert key in s.cache && s'.cache[key] == s.cache[key];
        var since := s.cache[key].expiresAt - KEY_CACHE_TTL - lag;
        SeenLater(states, i, key, s.cache[key].row, since, since);
      }
    }
  }

  /** And the rows that calls have fetched: a fetch reads what the repository holds just then. */
  lemma StepGroundsThreads(states: seq<State>, es: seq<Event>, i: nat)
    requires IsRun(states, es) && i < |es| && ThreadsGrounded(states, i)
    ensures ThreadsGrounded(states, i + 1)
  {
    var s, e, s' := states[i], es[i], states[i + 1];
    assert s' == Next(s, e);
    forall tid | tid in s'.threads && s'.threads[tid].Fetched?
      ensures Seen(states, i + 1, s'.threads[tid].key, s'.threads[tid].row, s'.threads[tid].at)
    {
      var t := s'.threads[tid];
      if e == Fetch(tid) && s.threads[tid].Missed? {
        assert RowOf(states[i + 1].rows, t.key) == t.row && t.at <= states[i + 1].now;
      } else {
        assert tid in s.threads && s.threads[tid] == t;
        SeenLater(states, i, t.key, t.row, t.at, t.at);
      }
    }
  }

  lemma {:induction false} EveryStateIsGrounded(states: seq<State>, es: seq<Event>, lag: int, i: nat)
    requires IsRun(states, es) && StoresWithin(states, es, lag) && i < |states|
    ensures Grounded(states, i, lag)
    decreases i
  {
    if i > 0 {
      EveryStateIsGrounded(states, es, lag, i - 1);
      StepGroundsCache(states, es, lag, i - 1);
      StepGroundsThreads(states, es, i - 1);
    }
  }

  /**
    Bounded staleness: every answer is based on what the repository held at some moment of the run
    less than thirty seconds and one lag earlier.
    */
  lemma VerdictsAreFresh(states: seq<State>, es: seq<Event>, lag: int, i: nat) returns (j: nat)
    requires IsRun(states, es) && StoresWithin(states, es, lag) && lag >= 0 && i < |es|
    requires VerdictOf(states[i], es[i]).Verdict?
    ensures j <= i
    ensures RowOf(states[j].rows, VerdictOf(states[i], es[i]).key) == VerdictOf(states[i], es[i]).row
    ensures states[i].now - states[j].now < KEY_CACHE_TTL + lag
  {
    EveryStateIsGrounded(states, es, lag, i);
    var s, v := states[i], VerdictOf(states[i], es[i]);
    var since := if es[i].Check? then s.cache[v.key].expiresAt - KEY_CACHE_TTL - lag else s.threads[es[i].tid].at;
    assert Seen(states, i, v.key, v.row, since);
    j :| 0 <= j <= i && RowOf(states[j].rows, v.key) == v.row && since <= states[j].now;
  }

  /**
    Whoever gets in had a key: less than thirty seconds and one lag earlier the repository held an active
    row of it whose scope fits.
    */
  lemma AcceptedKeysAreReal(states: seq<State>, es: seq<Event>, lag: int, i: nat, key: string) returns (j: nat)
    requires IsRun(states, es) && StoresWithin(states, es, lag) && lag >= 0 && i < |es|
    requires AcceptsKey(states[i], es[i], key)
    ensures j <= i && states[i].now - states[j].now < 30_000_000_000 + lag
    ensures key in states[j].rows && states[j].rows[key].isActive
    ensures states[j].rows[key].scope == VerdictOf(states[i], es[i]).scope || states[j].rows[key].scope == Both
  {
    j := VerdictsAreFresh(states, es, lag, i);
  }

  /** A key that no state so far has a row for is never accepted. */
  lemma StrangersAreRefused(states: seq<State>, es: seq<Event>, lag: int, i: nat, key: string)
    requires IsRun(states, es) && StoresWithin(states, es, lag) && lag >= 0 && i < |es|
    requires forall j :: 0 <= j <= i ==> key !in states[j].rows
    ensures !AcceptsKey(states[i], es[i], key)
  {
    if AcceptsKey(states[i], es[i], key) {
      var j := AcceptedKeysAreReal(states, es, lag, i, key);
    }
  }

  lemma {:induction false} RowsOnlyMoveForward(states: seq<State>, es: seq<Event>, i: nat, j: nat, key: string)
    requires IsRun(states, es) && i <= j < |states|
    ensures states[i].now <= states[j].now
    ensures key in states[i].rows ==>
      && key in states[j].rows && states[j].rows[key].scope == states[i].rows[key].scope
      && (states[j].rows[key].isActive ==> states[i].rows[key].isActive)
    decreases j
  {
    if i < j {
      RowsOnlyMoveForward(states, es, i, j - 1, key);
      assert states[j] == Next(states[j - 1], es[j - 1]);
    }
  }

  /** From thirty seconds and one lag after a key was deactivated, nobody gets in with it. */
  lemma RevokedKeysAreRefused(states: seq<State>, es: seq<Event>, lag: int, d: nat, i: nat, key: string)
    requires IsRun(states, es) && StoresWithin(states, es, lag) && lag >= 0 && d < |states| && i < |es|
    requires key in states[d].rows && !states[d].rows[key].isActive
    requires states[i].now >= states[d].now + KEY_CACHE_TTL + lag
    ensures !AcceptsKey(states[i], es[i], key)
  {
    var v := VerdictOf(states[i], es[i]);
    if v.Verdict? && v.key == key {
      var j := VerdictsAreFresh(states, es, lag, i);
      if j < d {
        RowsOnlyMoveForward(states, es, j, d, key);
      } else {
        RowsOnlyMoveForward(states, es, d, j, key);
      }
    }
  }

  /** The states that `es` passes through from `s`. */
  function Trace(s: State, es: seq<Event>): (states: seq<State>)
    ensures |states| == |es| + 1 && states[0] == s
    ensures forall i :: 0 <= i < |es| ==> states[i + 1] == Next(states[i], es[i])
    decreases es
  {
    [s] + if es == [] then [] else Trace(Next(s, es[0]), es[1..])
  }

  /**
    A call fetches the active key; the key is revoked at once; the call stores the row only `lag` later;
    and another call asks after a further `wait`.
    */
  function LateStore(key: string, scope: Scope, client: nat, revoker: nat, lag: nat, wait: nat): seq<Event> {
    [Check(client, key, scope), Fetch(client), Invalidate(revoker, key), Deactivate(revoker),
     Advance(lag), Store(client), Advance(wait), Check(client, key, scope)]
  }

  lemma StoreThenAsk(s: State, key: string, client: nat, lag: nat, wait: nat)
    requires Holds(s, client, key) && s.threads[client].scope == s.threads[client].row.value.scope
    requires wait < KEY_CACHE_TTL
    ensures var end := Next(Next(Next(s, Advance(lag)), Store(client)), Advance(wait));
            && end.now == s.now + lag + wait
            && AcceptsKey(end, Check(client, key, s.threads[client].scope), key)
  {
  }

  /** From any state in which the key is active and not cached, that last call is accepted within thirty seconds. */
  lemma LateStoreIsAccepted(s: State, key: string, client: nat, revoker: nat, lag: nat, wait: nat)
    requires key in s.rows && s.rows[key].isActive && Hit(s.cache, key, s.now).None?
    requires client !in s.threads && revoker !in s.threads && client != revoker && wait < KEY_CACHE_TTL
    ensures var es := LateStore(key, s.rows[key].scope, client, revoker, lag, wait);
            var states := Trace(s, es);
            && Inactive(states[4], key) && states[4].now == s.now
            && states[5].now == s.now + lag
            && states[5].threads == s.threads[client := Fetched(key, s.rows[key].scope, Some(s.rows[key]), s.now)]
            && states[7].now == s.now + lag + wait && AcceptsKey(states[7], es[7], key)
  {
    var scope := s.rows[key].scope;
    var es := LateStore(key, scope, client, revoker, lag, wait);
    var states := Trace(s, es);
    FetchOnMiss(s, key, scope, client);
    assert states[2] == Next(Next(s, es[0]), es[1]);
    RevokeInTwoSteps(states[2], key, revoker);
    assert states[4] == Next(Next(states[2], es[2]), es[3]);
    StoreThenAsk(states[4], key, client, lag, wait);
    assert states[5] == Next(states[4], es[4]);
    assert states[7] == Next(Next(states[5], es[5]), es[6]);
  }

  /** In some run whose stores are at most `lag` late, a key is accepted `delay` after it was inactive. */
  ghost predicate AcceptedSoLate(lag: nat, delay: nat) {
    exists states: seq<State>, es: seq<Event>, key: string, d: nat, i: nat ::
      && IsRun(states, es) && StoresWithin(states, es, lag) && d <= i < |es|
      && Inactive(states[d], key) && states[i].now == states[d].now + delay
      && AcceptsKey(states[i], es[i], key)
  }

  /** Thirty seconds and one lag is the exact bound: every shorter delay occurs. */
  lemma RevocationBoundIsTight(lag: nat, delay: nat)
    ensures AcceptedSoLate(lag, delay) <==> delay < 30_000_000_000 + lag
  {
    if delay < KEY_CACHE_TTL + lag {
      var late := if delay < lag then delay else lag;
      LateAcceptance(lag, late, delay - late);
    }
    if AcceptedSoLate(lag, delay) && delay >= KEY_CACHE_TTL + lag {
      var states: seq<State>, es: seq<Event>, key: string, d: nat, i: nat :|
        && IsRun(states, es) && StoresWithin(states, es, lag) && d <= i < |es|
        && Inactive(states[d], key) && states[i].now == states[d].now + delay
        && AcceptsKey(states[i], es[i], key);
      RevokedKeysAreRefused(states, es, lag, d, i, key);
    }
  }

  lemma LateAcceptance(lag: nat, late: nat, wait: nat)
    requires late <= lag && wait < KEY_CACHE_TTL
    ensures AcceptedSoLate(lag, late + wait)
  {
    var key, row := "key", KeyRow(Both, true);
    var s := State(0, map[key := row], map[], map[]);
    var es := LateStore(key, Both, 0, 1, late, wait);
    var states := Trace(s, es);
    LateStoreIsAccepted(s, key, 0, 1, late, wait);
    assert IsRun(states, es);
    forall i | 0 <= i < |es| && es[i].Store? ensures i == 5 {}
    assert StoresWithin(states, es, lag);
    assert states[7].now == states[4].now + (late + wait);
  }

  /** From that long after a key was created, while it is active, everybody with its scope gets in. */
  lemma CreatedKeysAreAccepted(states: seq<State>, es: seq<Event>, lag: int, c: nat, i: nat, key: string)
    requires IsRun(states, es) && StoresWithin(states, es, lag) && lag >= 0 && c < |states| && i < |es|
    requires key in states[c].rows
    requires key in states[i].rows && states[i].rows[key].isActive
    requires states[i].now >= states[c].now + KEY_CACHE_TTL + lag
    requires VerdictOf(states[i], es[i]).Verdict? && VerdictOf(states[i], es[i]).key == key
    ensures AcceptsKey(states[i], es[i], key)
       <==> states[c].rows[key].scope in {VerdictOf(states[i], es[i]).scope, Both}
  {
    var j := VerdictsAreFresh(states, es, lag, i);
    if j < c {
      RowsOnlyMoveForward(states, es, j, c, key);
    } else {
      RowsOnlyMoveForward(states, es, c, j, key);
    }
    RowsOnlyMoveForward(states, es, j, i, key);
  }

  /** The first call that asks after a key was created is let in exactly if the key was created for its scope. */
  lemma NewKeysWork(s: State, key: string, scope: Scope, asked: Scope, tid: nat)
    requires key !in s.rows && tid !in s.threads && Hit(s.cache, key, s.now).None?
    ensures var states := Trace(s, [Create(key, scope), Check(tid, key, asked), Fetch(tid), Store(tid)]);
            AcceptsKey(states[3], Store(tid), key) <==> scope == asked || scope == Both
  {
    var es := [Create(key, scope), Check(tid, key, asked), Fetch(tid), Store(tid)];
    var states := Trace(s, es);
    assert states[1] == Next(s, es[0]);
    FetchOnMiss(states[1], key, asked, tid);
    assert states[3] == Next(Next(states[1], es[1]), es[2]);
  }

  /** A revocation deactivates the one key and touches no other, nor any scope. */
  lemma RevocationIsExact(rows: Rows, key: string, other: string)
    ensures other in Deactivated(rows, key) <==> other in rows
    ensures other in rows ==>
      && Deactivated(rows, key)[other].scope == rows[other].scope
      && (Deactivated(rows, key)[other].isActive <==> rows[other].isActive && other != key)
  {
  }

  // ---------- how long an answer is kept ----------

  /** Neither a store nor an invalidation of the key happens in `es`. */
  predicate LeavesCached(s: State, es: seq<Event>, key: string)
    decreases es
  {
    es == [] ||
    (&& (es[0].Store? && es[0].tid in s.threads && s.threads[es[0].tid].Fetched? ==> s.threads[es[0].tid].key != key)
     && (es[0].Invalidate? ==> es[0].key != key)
     && LeavesCached(Next(s, es[0]), es[1..], key))
  }

  lemma {:induction false} CachedMeanwhile(s: State, es: seq<Event>, key: string)
    requires key in s.cache && LeavesCached(s, es, key)
    ensures key in Exec(s, es).cache && Exec(s, es).cache[key] == s.cache[key]
    decreases es
  {
    if es != [] {
      CachedMeanwhile(Next(s, es[0]), es[1..], key);
    }
  }

  /**
    An answer is kept for exactly thirty seconds, also the answer that there is no such key: until then
    every call gets it without asking the repository, and from then on every call asks.
    */
  lemma AnswersAreKept(s: State, tid: nat, es: seq<Event>, asked: nat, scope: Scope)
    requires tid in s.threads && s.threads[tid].Fetched?
    requires LeavesCached(Next(s, Store(tid)), es, s.threads[tid].key)
    requires asked !in Exec(Next(s, Store(tid)), es).threads
    ensures var t, end := s.threads[tid], Exec(Next(s, Store(tid)), es);
            var e := Check(asked, t.key, scope);
            if end.now < s.now + 30_000_000_000 then
              VerdictOf(end, e) == Verdict(t.key, scope, t.row) && Next(end, e) == end
            else
              && VerdictOf(end, e) == NoVerdict
              && Next(end, e) == end.(threads := end.threads[asked := Missed(t.key, scope)])
  {
    CachedMeanwhile(Next(s, Store(tid)), es, s.threads[tid].key);
  }

  // ---------- when a revocation takes effect at once ----------

  /** Some call accepts `key` while `es` runs from `s`. */
  predicate AcceptsDuring(s: State, es: seq<Event>, key: string)
    decreases es
  {
    es != [] && (AcceptsKey(s, es[0], key) || AcceptsDuring(Next(s, es[0]), es[1..], key))
  }

  /** Some continuation of `s` lets a caller in with `key`. */
  ghost predicate AcceptedLater(s: State, key: string) {
    exists es :: AcceptsDuring(s, es, key)
  }

  predicate LiveEntry(s: State, key: string) {
    key in s.cache && Active(s.cache[key].row) && s.now < s.cache[key].expiresAt
  }

  predicate InFlight(s: State, key: string) {
    exists tid :: tid in s.threads && Holds(s, tid, key)
  }

  lemma {:induction false} RefusedFromNowOn(s: State, es: seq<Event>, key: string)
    requires Inactive(s, key) && !LiveEntry(s, key) && !InFlight(s, key)
    ensures !AcceptsDuring(s, es, key)
    decreases es
  {
    if es != [] {
      var s' := Next(s, es[0]);
      assert !InFlight(s', key) by {
        if tid :| tid in s'.threads && Holds(s', tid, key) {
          assert Holds(s, tid, key);
        }
      }
      RefusedFromNowOn(s', es[1..], key);
    }
  }

  lemma {:induction false} UnusedId(ids: set<nat>) returns (n: nat)
    ensures forall id :: id in ids ==> id < n
  {
    n := 0;
    if ids != {} {
      var x :| x in ids;
      var m := UnusedId(ids - {x});
      n := if x < m then m else x + 1;
      assert forall id :: id in ids ==> id == x || id in ids - {x};
    }
  }

  lemma LiveEntryIsAccepted(s: State, key: string) returns (e: Event)
    requires LiveEntry(s, key)
    ensures AcceptsKey(s, e, key)
  {
    var n := UnusedId(s.threads.Keys);
    assert n !in s.threads.Keys;
    e := Check(n, key, s.cache[key].row.value.scope);
  }

  lemma AcceptsOneLater(s: State, e: Event, es: seq<Event>, key: string)
    requires AcceptsDuring(Next(s, e), es, key)
    ensures AcceptsDuring(s, [e] + es, key)
  {
    assert ([e] + es)[1..] == es;
  }

  /**
    A deactivated key can still get in at some later moment exactly if a live cache entry or a call
    between its fetch and its store still holds it as active.
    */
  lemma AcceptedAgainIff(s: State, key: string)
    requires Inactive(s, key)
    ensures AcceptedLater(s, key) <==> LiveEntry(s, key) || InFlight(s, key)
  {
    if LiveEntry(s, key) {
      var e := LiveEntryIsAccepted(s, key);
      assert AcceptsDuring(s, [e], key);
      assert AcceptedLater(s, key);
    } else if InFlight(s, key) {
      var tid :| tid in s.threads && Holds(s, tid, key);
      var s' := Next(s, Store(tid));
      var e := LiveEntryIsAccepted(s', key);
      assert AcceptsDuring(s', [e], key);
      AcceptsOneLater(s, Store(tid), [e], key);
      assert AcceptsDuring(s, [Store(tid)] + [e], key);
      assert AcceptedLater(s, key);
    } else {
      forall es ensures !AcceptsDuring(s, es, key) {
        RefusedFromNowOn(s, es, key);
      }
    }
  }

  /**
    Revoke clears the cache first, so one ordinary Validate between its two steps is enough: after
    Revoke has returned, the key is still accepted, from any state in which it was active.
    */
  lemma RevokedKeyStillAccepted(s: State, key: string, revoker: nat, client: nat)
    requires key in s.rows && s.rows[key].isActive
    requires revoker !in s.threads && client !in s.threads && revoker != client
    ensures var scope := s.rows[key].scope;
            var es := [Invalidate(revoker, key), Check(client, key, scope), Fetch(client), Store(client),
                       Deactivate(revoker)];
            var s' := Exec(s, es);
            && Inactive(s', key) && revoker !in s'.threads
            && AcceptsKey(s', Check(client, key, scope), key)
  {
    var scope := s.rows[key].scope;
    var validation := [Check(client, key, scope), Fetch(client), Store(client)];
    var s1 := Next(s, Invalidate(revoker, key));
    var s2 := s1.(cache := Stored(s1.cache, key, RowOf(s1.rows, key), s1.now));
    ValidateIsARun(s1, client, key, scope);
    ExecConcat(s1, validation, [Deactivate(revoker)]);
    assert Exec(s2, [Deactivate(revoker)]) == Exec(Next(s2, Deactivate(revoker)), [Deactivate(revoker)][1..]);
    var es := [Invalidate(revoker, key), Check(client, key, scope), Fetch(client), Store(client),
               Deactivate(revoker)];
    assert es[1..] == validation + [Deactivate(revoker)];
    assert Exec(s, es) == Exec(s1, es[1..]) == Exec(s2, [Deactivate(revoker)]) == Next(s2, Deactivate(revoker));
  }

  lemma {:induction false} ExecConcat(s: State, es: seq<Event>, more: seq<Event>)
    ensures Exec(s, es + more) == Exec(Exec(s, es), more)
    decreases es
  {
    if es == [] {
      assert es + more == more;
    } else {
      assert (es + more)[1..] == es[1..] + more;
      ExecConcat(Next(s, es[0]), es[1..], more);
    }
  }
}
