/**
  What stands in front of the /locate and /update handlers (internal/api/middleware/ratelimit.go and
  auth.go, as internal/api/server.go composes them): the limiter first, then the key check.

  The identifier of a request without a key, and the verdict of the key service, are inputs.
  */
module Gate {
  import opened RateLimiting
  import Keys = ApiKeys

  datatype Endpoint = LocateEndpoint | UpdateEndpoint

  /** Who a request counts for: a key, or the session or address of a request without one. */
  datatype Client = KeyClient(endpoint: Endpoint, key: string) | AnonClient(endpoint: Endpoint, identifier: string)

  datatype KeyVerdict = KeyValid | KeyInvalid | KeyCheckFailed

  /** `key` is the X-Api-Key header; `keyPeriodMs`, `anonPeriodMs` and `requireKey` are the settings at that time. */
  datatype Arrival = Arrival(endpoint: Endpoint, key: string, identifier: string, now: Time,
                             keyPeriodMs: int, anonPeriodMs: int, requireKey: bool, verdict: KeyVerdict)

  datatype Status = TooManyRequests | Unauthorized | InternalError | Forbidden | Handled

  function Prefix(e: Endpoint): string {
    if e.LocateEndpoint? then "locate" else "update"
  }

  function ClientOf(r: Arrival): Client {
    if r.key != "" then KeyClient(r.endpoint, r.key) else AnonClient(r.endpoint, r.identifier)
  }

  function Bucket(c: Client): string {
    match c
    case KeyClient(endpoint, key) => Prefix(endpoint) + ":key:" + key
    case AnonClient(endpoint, identifier) => Prefix(endpoint) + ":anon:" + identifier
  }

  function Period(r: Arrival): int {
    if r.key != "" then r.keyPeriodMs else r.anonPeriodMs
  }

  function KeyCheck(r: Arrival): Status {
    if r.key == "" then (if r.requireKey then Unauthorized else Handled)
    else match r.verdict
      case KeyCheckFailed => InternalError
      case KeyInvalid => Forbidden
      case KeyValid => Handled
  }

  /** One request through both layers; the handler runs exactly when the result is Handled. */
  method Serve(limiter: RateLimiter, r: Arrival) returns (status: Status)
    modifies limiter
    ensures status == if Admits(old(limiter.lastSeen), AsEvent(r)) then KeyCheck(r) else TooManyRequests
    ensures limiter.lastSeen == Next(old(limiter.lastSeen), AsEvent(r), true)
    ensures Admits(old(limiter.lastSeen), AsEvent(r)) ==>
      match (r.key, r.verdict)
      case ("", _) => status == if r.requireKey then Unauthorized else Handled
      case (_, KeyCheckFailed) => status == InternalError
      case (_, KeyInvalid) => status == Forbidden
      case (_, KeyValid) => status == Handled
  {
    var allowed;
    if r.key != "" {
      allowed := limiter.Allow(Prefix(r.endpoint) + ":key:" + r.key, r.keyPeriodMs, r.now);
    } else {
      allowed := limiter.Allow(Prefix(r.endpoint) + ":anon:" + r.identifier, r.anonPeriodMs, r.now);
    }
    if !allowed {
      return TooManyRequests;
    }
    if r.key == "" {
      return if r.requireKey then Unauthorized else Handled;
    }
    match r.verdict {
      case KeyCheckFailed => return InternalError;
      case KeyInvalid => return Forbidden;
      case KeyValid => return Handled;
    }
  }

  function AsEvent(r: Arrival): Event {
    Request(Bucket(ClientOf(r)), Period(r), r.now)
  }

  // ---------- buckets ----------

  lemma EqualTails(prefix1: string, prefix2: string, a: string, b: string)
    requires |prefix1| == |prefix2| && prefix1 + a == prefix2 + b
    ensures prefix1 == prefix2 && a == b
  {
    assert (prefix1 + a)[..|prefix1|] == prefix1 && (prefix2 + b)[..|prefix2|] == prefix2;
    assert (prefix1 + a)[|prefix1|..] == a && (prefix2 + b)[|prefix2|..] == b;
  }

  function Suffix(c: Client): string {
    if c.KeyClient? then ":key:" + c.key else ":anon:" + c.identifier
  }

  lemma BucketParts(c: Client)
    ensures Bucket(c) == Prefix(c.endpoint) + Suffix(c)
    ensures |Prefix(c.endpoint)| == 6 && |Suffix(c)| > 1 && Suffix(c)[1] == if c.KeyClient? then 'k' else 'a'
  {
    assert Bucket(c) == Prefix(c.endpoint) + Suffix(c);
  }

  /** Two clients share a bucket only if they are the same client, whatever their keys and identifiers contain. */
  lemma BucketsAreInjective(c1: Client, c2: Client)
    requires Bucket(c1) == Bucket(c2)
    ensures c1 == c2
  {
    BucketParts(c1);
    BucketParts(c2);
    EqualTails(Prefix(c1.endpoint), Prefix(c2.endpoint), Suffix(c1), Suffix(c2));
    assert "locate"[0] != "update"[0];
    if c1.KeyClient? {
      EqualTails(":key:", ":key:", c1.key, c2.key);
    } else {
      EqualTails(":anon:", ":anon:", c1.identifier, c2.identifier);
    }
  }

  /** So the limiter's bypass for empty identifiers never applies here, even if a session or address is empty. */
  lemma BucketsAreNotEmpty(c: Client)
    ensures Bucket(c) != ""
  {
    assert |Bucket(c)| >= |Prefix(c.endpoint)| > 0;
  }

  // ---------- runs ----------

  datatype Step = Arrive(r: Arrival) | Clean(reading: Time)

  function EventOf(step: Step): Event {
    match step
    case Arrive(r) => AsEvent(r)
    case Clean(reading) => Cleanup(reading)
  }

  function Events(steps: seq<Step>): (es: seq<Event>)
    ensures |es| == |steps|
  {
    if steps == [] then [] else [EventOf(steps[0])] + Events(steps[1..])
  }

  lemma {:induction false} EventAt(steps: seq<Step>, i: nat)
    requires i < |steps|
    ensures Events(steps)[i] == EventOf(steps[i])
    decreases i
  {
    if i > 0 {
      EventAt(steps[1..], i - 1);
    }
  }

  /** The handler runs in step `i` of a run from an empty limiter. */
  predicate HandlerRuns(steps: seq<Step>, i: nat) {
    i < |steps| && steps[i].Arrive? && Allowed(map[], Events(steps), true)[i] && KeyCheck(steps[i].r).Handled?
  }

  lemma HandlerRunIsRecorded(steps: seq<Step>, i: nat)
    requires HandlerRuns(steps, i) && Period(steps[i].r) != 0
    ensures Recorded(Events(steps), Allowed(map[], Events(steps), true), i, Bucket(ClientOf(steps[i].r)))
    ensures Events(steps)[i] == AsEvent(steps[i].r)
  {
    EventAt(steps, i);
    BucketsAreNotEmpty(ClientOf(steps[i].r));
  }

  /**
    Handler runs for one client, with limits switched on at both times, are at least the later limit
    apart (or five minutes), whatever the other clients, the key service and the cleanup do.
    */
  lemma HandlerRunsAreSpaced(steps: seq<Step>, i: nat, j: nat)
    requires Ordered(Events(steps)) && i < j < |steps|
    requires HandlerRuns(steps, i) && HandlerRuns(steps, j)
    requires ClientOf(steps[i].r) == ClientOf(steps[j].r) && Period(steps[i].r) != 0 && Period(steps[j].r) != 0
    ensures steps[j].r.now - steps[i].r.now >= AtMost(Period(steps[j].r) * MILLISECOND, ENTRY_TTL)
  {
    var es, bucket := Events(steps), Bucket(ClientOf(steps[i].r));
    HandlerRunIsRecorded(steps, i);
    HandlerRunIsRecorded(steps, j);
    AllowedAreSpaced(map[], es, bucket, i, j);
  }

  /** The limiter lets step `i` pass. */
  predicate Passed(steps: seq<Step>, i: nat) {
    i < |steps| && steps[i].Arrive? && Allowed(map[], Events(steps), true)[i]
  }

  /** A handler runs exactly for what the limiter lets pass and that either needs no key or has a valid one. */
  lemma HandlerRunsIff(steps: seq<Step>, i: nat)
    requires i < |steps| && steps[i].Arrive?
    ensures HandlerRuns(steps, i)
       <==> && Passed(steps, i)
            && if steps[i].r.key == "" then !steps[i].r.requireKey else steps[i].r.verdict.KeyValid?
  {
  }

  /** The same endpoint and key or, without a key, the same endpoint and session or address. */
  predicate SameClient(a: Arrival, b: Arrival) {
    a.endpoint == b.endpoint && a.key == b.key && (a.key == "" ==> a.identifier == b.identifier)
  }

  /** The period that applies: by key, or for those without one. */
  function PeriodOf(r: Arrival): (p: int)
    ensures r.key == "" ==> p == r.anonPeriodMs
    ensures r.key != "" ==> p == r.keyPeriodMs
  {
    if r.key == "" then r.anonPeriodMs else r.keyPeriodMs
  }

  /** The i-th step is an earlier request of the same client that passed less than the period of `j` ago, limits on. */
  predicate HoldsBack(steps: seq<Step>, i: nat, j: nat)
    requires i < j < |steps| && steps[j].Arrive?
  {
    && Passed(steps, i) && SameClient(steps[i].r, steps[j].r) && PeriodOf(steps[i].r) != 0
    && steps[j].r.now - steps[i].r.now < PeriodOf(steps[j].r) * 1_000_000
  }

  predicate TooSoonFor(steps: seq<Step>, j: nat)
    requires j < |steps| && steps[j].Arrive?
  {
    PeriodOf(steps[j].r) != 0 && exists i: nat :: i < j && HoldsBack(steps, i, j)
  }

  lemma SameBucketIff(a: Arrival, b: Arrival)
    ensures Bucket(ClientOf(a)) == Bucket(ClientOf(b)) <==> SameClient(a, b)
  {
    if Bucket(ClientOf(a)) == Bucket(ClientOf(b)) {
      BucketsAreInjective(ClientOf(a), ClientOf(b));
    }
  }

  lemma OneHoldsBack(steps: seq<Step>, i: nat, j: nat)
    requires i < j < |steps| && steps[j].Arrive?
    ensures Events(steps)[j].Request?
    ensures var es, mask := Events(steps), Allowed(map[], Events(steps), true);
            HoldsBack(steps, i, j)
            <==> && mask[i] && es[i].Request? && es[i].id == es[j].id && es[i].minPeriodMs != 0
                 && es[j].now - es[i].now < es[j].minPeriodMs * 1_000_000
  {
    EventAt(steps, i);
    EventAt(steps, j);
    if steps[i].Arrive? {
      SameBucketIff(steps[i].r, steps[j].r);
    }
  }

  lemma TooSoonForClient(steps: seq<Step>, j: nat)
    requires j < |steps| && steps[j].Arrive?
    ensures Events(steps)[j].Request? && Events(steps)[j].minPeriodMs == PeriodOf(steps[j].r)
    ensures TooSoon(Events(steps), Allowed(map[], Events(steps), true), j) <==> TooSoonFor(steps, j)
  {
    EventAt(steps, j);
    BucketsAreNotEmpty(ClientOf(steps[j].r));
    forall i: nat | i < j
      ensures var es, mask := Events(steps), Allowed(map[], Events(steps), true);
              HoldsBack(steps, i, j)
              <==> && mask[i] && es[i].Request? && es[i].id == es[j].id && es[i].minPeriodMs != 0
                   && es[j].now - es[i].now < es[j].minPeriodMs * 1_000_000
    {
      OneHoldsBack(steps, i, j);
    }
  }

  /**
    What passes the limiter, by endpoints, keys, identifiers and settings alone: a request is held back only
    if it is too soon for its client, and with a limit of at most five minutes exactly then.
    */
  lemma PassedIff(steps: seq<Step>, j: nat)
    requires Ordered(Events(steps)) && j < |steps| && steps[j].Arrive?
    ensures !Passed(steps, j) ==> TooSoonFor(steps, j)
    ensures PeriodOf(steps[j].r) <= 300_000 ==> (Passed(steps, j) <==> !TooSoonFor(steps, j))
  {
    TooSoonForClient(steps, j);
    DecisionsAreByHistory(Events(steps), j);
  }

  // ---------- with the key service behind it ----------

  function ScopeOf(e: Endpoint): Keys.Scope {
    if e.LocateEndpoint? then Keys.Locate else Keys.Update
  }

  /** The arrival's verdict is the one that its validation, answered by event `e` in state `s`, came to. */
  predicate VerdictFrom(r: Arrival, s: Keys.State, e: Keys.Event) {
    var v := Keys.VerdictOf(s, e);
    && v.Verdict? && v.key == r.key && v.scope == ScopeOf(r.endpoint)
    && r.verdict == if Keys.Accepts(v.row, v.scope) then KeyValid else KeyInvalid
  }

  /**
    Over all interleavings of the key service: a handler never runs for a request whose key was
    deactivated thirty seconds and one fetch-to-store delay before the request was validated.
    */
  lemma HandlerRunsNeedALiveKey(steps: seq<Step>, i: nat, states: seq<Keys.State>, es: seq<Keys.Event>, lag: int,
                                n: nat, d: nat)
    requires HandlerRuns(steps, i) && steps[i].r.key != ""
    requires Keys.IsRun(states, es) && Keys.StoresWithin(states, es, lag) && lag >= 0
    requires n < |es| && VerdictFrom(steps[i].r, states[n], es[n])
    requires d < |states| && Keys.Inactive(states[d], steps[i].r.key)
    ensures states[n].now < states[d].now + Keys.KEY_CACHE_TTL + lag
  {
    if states[n].now >= states[d].now + Keys.KEY_CACHE_TTL + lag {
      Keys.RevokedKeysAreRefused(states, es, lag, d, n, steps[i].r.key);
    }
  }

  /**
    And for a key that was created that long before and is still active, the limiter and the key's scope
    alone decide.
    */
  lemma SettledKeysAreHandled(steps: seq<Step>, i: nat, states: seq<Keys.State>, es: seq<Keys.Event>, lag: int,
                              n: nat, c: nat)
    requires i < |steps| && steps[i].Arrive? && steps[i].r.key != ""
    requires Keys.IsRun(states, es) && Keys.StoresWithin(states, es, lag) && lag >= 0
    requires n < |es| && VerdictFrom(steps[i].r, states[n], es[n])
    requires c < |states| && steps[i].r.key in states[c].rows
    requires states[n].now >= states[c].now + Keys.KEY_CACHE_TTL + lag
    requires steps[i].r.key in states[n].rows && states[n].rows[steps[i].r.key].isActive
    ensures HandlerRuns(steps, i)
       <==> && Allowed(map[], Events(steps), true)[i]
            && states[c].rows[steps[i].r.key].scope in {ScopeOf(steps[i].r.endpoint), Keys.Both}
  {
    Keys.CreatedKeysAreAccepted(states, es, lag, c, n, steps[i].r.key);
  }

  /** No handler runs for a key that was not, shortly before, active and for that endpoint or for both. */
  lemma KeysStayInScope(steps: seq<Step>, i: nat, states: seq<Keys.State>, es: seq<Keys.Event>, lag: int, n: nat)
    returns (j: nat)
    requires HandlerRuns(steps, i) && steps[i].r.key != ""
    requires Keys.IsRun(states, es) && Keys.StoresWithin(states, es, lag) && lag >= 0
    requires n < |es| && VerdictFrom(steps[i].r, states[n], es[n])
    ensures j <= n && states[n].now - states[j].now < 30_000_000_000 + lag
    ensures steps[i].r.key in states[j].rows && states[j].rows[steps[i].r.key].isActive
    ensures match states[j].rows[steps[i].r.key].scope
            case Locate => steps[i].r.endpoint == LocateEndpoint
            case Update => steps[i].r.endpoint == UpdateEndpoint
            case Both => true
  {
    j := Keys.AcceptedKeysAreReal(states, es, lag, n, steps[i].r.key);
  }

  // ---------- clients do not interfere ----------

  function OnlyClient(steps: seq<Step>, c: Client): seq<Step> {
    if steps == [] then []
    else if steps[0].Arrive? && ClientOf(steps[0].r) != c then OnlyClient(steps[1..], c)
    else [steps[0]] + OnlyClient(steps[1..], c)
  }

  lemma {:induction false} OnlyClientIsOnlyBucket(steps: seq<Step>, c: Client)
    ensures Events(OnlyClient(steps, c)) == OnlyOf(Events(steps), Bucket(c))
  {
    if steps != [] {
      var rest := OnlyClient(steps[1..], c);
      OnlyClientIsOnlyBucket(steps[1..], c);
      assert Events(steps)[1..] == Events(steps[1..]);
      if steps[0].Arrive? && ClientOf(steps[0].r) != c {
        if Bucket(ClientOf(steps[0].r)) == Bucket(c) { BucketsAreInjective(ClientOf(steps[0].r), c); }
      } else {
        assert ([steps[0]] + rest)[1..] == rest;
      }
    }
  }

  /** The limiter decides about a client as if no other client existed. */
  lemma ClientsDoNotInterfere(steps: seq<Step>, c: Client)
    ensures DecisionsOf(map[], Events(steps), Bucket(c)) == DecisionsOf(map[], Events(OnlyClient(steps, c)), Bucket(c))
  {
    IdentifiersAreIsolated(map[], map[], Events(steps), Bucket(c));
    OnlyClientIsOnlyBucket(steps, c);
  }
}
