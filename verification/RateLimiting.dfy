/**
  The per-identifier request limiter and its background cleanup (internal/ratelimit/ratelimit.go).

  Times are nanoseconds of the monotonic clock.  Allow reads the clock while it holds the mutex;
  cleanup reads it before it takes the mutex, so a cleanup's reading is only known not to be later
  than the requests that come after it.
  */
module RateLimiting {
  type Time = int
  type Table = map<string, Time>

  const MILLISECOND: int := 1_000_000
  const ENTRY_TTL: int := 5 * 60 * 1_000 * MILLISECOND
  const ENTRY_TTL_MS: int := 300_000

  // ---------- one step on a table ----------

  /** Requests with no period or no identifier are let through and leave no trace. */
  predicate Limited(id: string, minPeriodMs: int) {
    minPeriodMs != 0 && id != ""
  }

  predicate Blocks(t: Table, id: string, minPeriodMs: int, now: Time) {
    Limited(id, minPeriodMs) && id in t && now - t[id] < minPeriodMs * MILLISECOND
  }

  function AfterRequest(t: Table, id: string, minPeriodMs: int, now: Time): Table {
    if !Limited(id, minPeriodMs) || Blocks(t, id, minPeriodMs, now) then t else t[id := now]
  }

  function Collected(t: Table, cutoff: Time): Table {
    map id | id in t && t[id] >= cutoff :: t[id]
  }

  class RateLimiter {
    var lastSeen: Table

    constructor ()
      ensures lastSeen == map[]
    {
      lastSeen := map[];
    }

    /** One call of Allow; `now` is the clock reading taken under the mutex. */
    method Allow(id: string, minPeriodMs: int, now: Time) returns (allowed: bool)
      modifies this
      ensures allowed == !Blocks(old(lastSeen), id, minPeriodMs, now)
      ensures lastSeen == AfterRequest(old(lastSeen), id, minPeriodMs, now)
    {
      if minPeriodMs == 0 || id == "" {
        return true;
      }
      var minPeriod := minPeriodMs * MILLISECOND;
      if id in lastSeen && now - lastSeen[id] < minPeriod {
        return false;
      }
      lastSeen := lastSeen[id := now];
      return true;
    }

    /** One tick of cleanup; `reading` is the clock reading taken before the mutex. */
    method Cleanup(reading: Time)
      modifies this
      ensures lastSeen == Collected(old(lastSeen), reading - ENTRY_TTL)
    {
      var cutoff := reading - ENTRY_TTL;
      var todo := lastSeen.Keys;
      while todo != {}
        invariant todo <= lastSeen.Keys <= old(lastSeen).Keys
        invariant forall id :: id in lastSeen ==> lastSeen[id] == old(lastSeen)[id]
        invariant forall id :: id in old(lastSeen) && id !in todo
                    ==> (id in lastSeen <==> old(lastSeen)[id] >= cutoff)
        decreases todo
      {
        var id :| id in todo;
        todo := todo - {id};
        if lastSeen[id] < cutoff {
          lastSeen := lastSeen - {id};
        }
      }
    }
  }

  // ---------- runs ----------

  datatype Event =
    | Request(id: string, minPeriodMs: int, now: Time)
    | Cleanup(reading: Time)
  {
    function Stamp(): Time {
      match this
      case Request(_, _, now) => now
      case Cleanup(reading) => reading
    }
  }

  /** Every event's reading is at most that of each later request. */
  predicate Ordered(es: seq<Event>) {
    forall i, j :: 0 <= i < j < |es| && es[j].Request? ==> es[i].Stamp() <= es[j].now
  }

  predicate NotBefore(clock: Time, es: seq<Event>) {
    forall i :: 0 <= i < |es| && es[i].Request? ==> clock <= es[i].now
  }

  /** The table after one event; a limiter with `gc` off ignores cleanups. */
  function Next(t: Table, e: Event, gc: bool): Table {
    match e
    case Request(id, minPeriodMs, now) => AfterRequest(t, id, minPeriodMs, now)
    case Cleanup(reading) => if gc then Collected(t, reading - ENTRY_TTL) else t
  }

  predicate Admits(t: Table, e: Event) {
    e.Request? && !Blocks(t, e.id, e.minPeriodMs, e.now)
  }

  /** For each event of a run from `t`, whether it is a request that was allowed. */
  function Allowed(t: Table, es: seq<Event>, gc: bool): (mask: seq<bool>)
    ensures |mask| == |es|
    decreases es
  {
    if es == [] then [] else [Admits(t, es[0])] + Allowed(Next(t, es[0], gc), es[1..], gc)
  }

  lemma OrderedTail(clock: Time, es: seq<Event>)
    requires es != [] && Ordered(es) && NotBefore(clock, es)
    ensures Ordered(es[1..]) && NotBefore(clock, es[1..]) && NotBefore(es[0].Stamp(), es[1..])
    ensures forall i :: 0 <= i < |es[1..]| ==> es[1..][i] == es[i + 1]
  {
  }

  // ---------- cleanup cannot be observed ----------

  /** `t` is `u` without some entries that are older than ENTRY_TTL at `clock`. */
  ghost predicate Shadow(t: Table, u: Table, clock: Time) {
    && t.Keys <= u.Keys
    && (forall id :: id in t ==> t[id] == u[id])
    && (forall id :: id in u && id !in t ==> u[id] < clock - ENTRY_TTL)
  }

  lemma {:induction false} ShadowRun(t: Table, u: Table, clock: Time, es: seq<Event>)
    requires Ordered(es) && NotBefore(clock, es) && Shadow(t, u, clock)
    requires forall i :: 0 <= i < |es| && es[i].Request? ==> es[i].minPeriodMs <= ENTRY_TTL_MS
    ensures Allowed(t, es, true) == Allowed(u, es, false)
    decreases |es|
  {
    if es != [] {
      var e, rest := es[0], es[1..];
      OrderedTail(clock, es);
      var clock' := if e.Stamp() > clock then e.Stamp() else clock;
      assert Shadow(Next(t, e, true), Next(u, e, false), clock');
      ShadowRun(Next(t, e, true), Next(u, e, false), clock', rest);
    }
  }

  /** With periods of at most five minutes, cleaning changes no decision of any run. */
  lemma CleanupUnobservable(es: seq<Event>)
    requires Ordered(es)
    requires forall i :: 0 <= i < |es| && es[i].Request? ==> es[i].minPeriodMs <= ENTRY_TTL_MS
    ensures Allowed(map[], es, true) == Allowed(map[], es, false)
  {
    var clock :| NotBefore(clock, es) by { EarliestClock(es); }
    ShadowRun(map[], map[], clock, es);
  }

  lemma {:induction false} EarliestClock(es: seq<Event>)
    ensures exists clock :: NotBefore(clock, es)
  {
    if es == [] {
      assert NotBefore(0, es);
    } else {
      EarliestClock(es[1..]);
      var c :| NotBefore(c, es[1..]);
      var clock := if es[0].Stamp() < c then es[0].Stamp() else c;
      assert forall i :: 0 < i < |es| ==> es[i] == es[1..][i - 1];
      assert NotBefore(clock, es);
    }
  }

  predicate ConstantPeriod(es: seq<Event>, minPeriodMs: int) {
    forall i :: 0 <= i < |es| && es[i].Request? ==> es[i].minPeriodMs == minPeriodMs
  }

  ghost predicate CleanupHidden(minPeriodMs: int) {
    forall es :: Ordered(es) && ConstantPeriod(es, minPeriodMs)
      ==> Allowed(map[], es, true) == Allowed(map[], es, false)
  }

  /** Five minutes is the exact limit: a longer period is not enforced once an entry was collected. */
  lemma CleanupHiddenIff(minPeriodMs: int)
    ensures CleanupHidden(minPeriodMs) <==> minPeriodMs <= 300_000
  {
    if minPeriodMs <= ENTRY_TTL_MS {
      forall es | Ordered(es) && ConstantPeriod(es, minPeriodMs)
        ensures Allowed(map[], es, true) == Allowed(map[], es, false)
      {
        CleanupUnobservable(es);
      }
    } else {
      var late := ENTRY_TTL + 1;
      var first, second := Request("client", minPeriodMs, 0), Request("client", minPeriodMs, late);
      var es := [first, Cleanup(late), second];
      assert Ordered(es) && ConstantPeriod(es, minPeriodMs);
      var t := Next(map[], first, true);
      assert t == map["client" := 0];
      assert es[1..] == [Cleanup(late), second] && es[1..][1..] == [second];
      assert Allowed(map[], es, true)[2] && !Allowed(map[], es, false)[2] by {
        ThirdDecision(map[], es, true);
        ThirdDecision(map[], es, false);
      }
    }
  }

  lemma ThirdDecision(t: Table, es: seq<Event>, gc: bool)
    requires |es| == 3
    ensures Allowed(t, es, gc)[2] == Admits(Next(Next(t, es[0], gc), es[1], gc), es[2])
  {
    assert Allowed(t, es, gc)[2] == Allowed(Next(t, es[0], gc), es[1..], gc)[1];
    assert es[1..][1..][0] == es[2] && es[1..][0] == es[1];
    assert Allowed(Next(t, es[0], gc), es[1..], gc)[1]
        == Allowed(Next(Next(t, es[0], gc), es[1], gc), es[1..][1..], gc)[0];
  }

  // ---------- spacing ----------

  predicate Recorded(es: seq<Event>, mask: seq<bool>, i: nat, id: string)
    requires |mask| == |es|
  {
    i < |es| && mask[i] && es[i].Request? && es[i].id == id && Limited(id, es[i].minPeriodMs)
  }

  function AtMost(a: int, b: int): int {
    if a <= b then a else b
  }

  lemma {:induction false} SpacedAfter(t: Table, es: seq<Event>, clock: Time, id: string, earlier: Time, j: nat)
    requires Ordered(es) && NotBefore(clock, es) && earlier <= clock
    requires (id in t && earlier <= t[id]) || earlier < clock - ENTRY_TTL
    requires Recorded(es, Allowed(t, es, true), j, id)
    ensures es[j].now - earlier >= AtMost(es[j].minPeriodMs * MILLISECOND, ENTRY_TTL)
    decreases j
  {
    if j > 0 {
      OrderedTail(clock, es);
      var clock' := if es[0].Stamp() > clock then es[0].Stamp() else clock;
      SpacedAfter(Next(t, es[0], true), es[1..], clock', id, earlier, j - 1);
    }
  }

  /**
    Whatever the periods and wherever cleanup runs, two recorded requests of one identifier are at
    least the later one's period apart, or five minutes if that is less.
    */
  lemma {:induction false} AllowedAreSpaced(t: Table, es: seq<Event>, id: string, i: nat, j: nat)
    requires Ordered(es) && i < j
    requires Recorded(es, Allowed(t, es, true), i, id) && Recorded(es, Allowed(t, es, true), j, id)
    ensures es[j].now - es[i].now >= AtMost(es[j].minPeriodMs * MILLISECOND, ENTRY_TTL)
    decreases i
  {
    var rest := es[1..];
    assert forall k :: 0 <= k < |rest| ==> rest[k] == es[k + 1];
    var t' := Next(t, es[0], true);
    if i == 0 {
      SpacedAfter(t', rest, es[0].now, id, es[0].now, j - 1);
    } else {
      AllowedAreSpaced(t', rest, id, i - 1, j - 1);
    }
  }

  /** In every run with this one period, recorded requests of one identifier keep it. */
  ghost predicate Enforced(minPeriodMs: int) {
    forall es: seq<Event>, id, i: nat, j: nat ::
      Ordered(es) && ConstantPeriod(es, minPeriodMs) && i < j
      && Recorded(es, Allowed(map[], es, true), i, id) && Recorded(es, Allowed(map[], es, true), j, id)
      ==> es[j].now - es[i].now >= minPeriodMs * MILLISECOND
  }

  /** Five minutes and one nanosecond apart, with the first request's entry collected in between. */
  lemma ForgottenEntryIsNotEnforced(minPeriodMs: int)
    requires minPeriodMs > ENTRY_TTL_MS
    ensures !Enforced(minPeriodMs)
  {
    var late := ENTRY_TTL + 1;
    var es := [Request("client", minPeriodMs, 0), Cleanup(late), Request("client", minPeriodMs, late)];
    assert Ordered(es) && ConstantPeriod(es, minPeriodMs);
    assert Next(map[], es[0], true) == map["client" := 0];
    ThirdDecision(map[], es, true);
    var mask := Allowed(map[], es, true);
    assert Recorded(es, mask, 0, "client") && Recorded(es, mask, 2, "client");
    assert es[2].now - es[0].now < minPeriodMs * MILLISECOND;
  }

  /** A constant period is enforced in all runs exactly up to five minutes. */
  lemma EnforcedIff(minPeriodMs: int)
    ensures Enforced(minPeriodMs) <==> minPeriodMs <= 300_000
  {
    if minPeriodMs > ENTRY_TTL_MS {
      ForgottenEntryIsNotEnforced(minPeriodMs);
    } else {
      forall es: seq<Event>, id, i: nat, j: nat |
        Ordered(es) && ConstantPeriod(es, minPeriodMs) && i < j
        && Recorded(es, Allowed(map[], es, true), i, id) && Recorded(es, Allowed(map[], es, true), j, id)
        ensures es[j].now - es[i].now >= minPeriodMs * MILLISECOND
      {
        AllowedAreSpaced(map[], es, id, i, j);
      }
    }
  }

  // ---------- what the limiter decides ----------

  /** Some earlier request of the same identifier, also limited, was allowed less than this one's period ago. */
  predicate TooSoon(es: seq<Event>, mask: seq<bool>, j: nat)
    requires |mask| == |es| && j < |es| && es[j].Request?
  {
    && es[j].minPeriodMs != 0 && es[j].id != ""
    && exists i :: 0 <= i < j && mask[i] && es[i].Request? && es[i].id == es[j].id && es[i].minPeriodMs != 0
               && es[j].now - es[i].now < es[j].minPeriodMs * 1_000_000
  }

  /** Only a request that is too soon is refused: after one in the run, or after the table's entry. */
  lemma {:induction false} RefusedIsTooSoon(t: Table, es: seq<Event>, j: nat)
    requires j < |es| && es[j].Request? && !Allowed(t, es, true)[j]
    ensures es[j].minPeriodMs != 0 && es[j].id != ""
    ensures TooSoon(es, Allowed(t, es, true), j)
         || (es[j].id in t && es[j].now - t[es[j].id] < es[j].minPeriodMs * 1_000_000)
    decreases j
  {
    if j > 0 {
      var t', rest := Next(t, es[0], true), es[1..];
      var mask := Allowed(t, es, true);
      assert mask == [Admits(t, es[0])] + Allowed(t', rest, true);
      RefusedIsTooSoon(t', rest, j - 1);
      if TooSoon(rest, mask[1..], j - 1) {
        var i :| 0 <= i < j - 1 && mask[1..][i] && rest[i].Request? && rest[i].id == rest[j - 1].id
                 && rest[i].minPeriodMs != 0 && rest[j - 1].now - rest[i].now < rest[j - 1].minPeriodMs * 1_000_000;
        assert mask[i + 1] && es[i + 1] == rest[i];
      }
    }
  }

  /**
    In every run, whatever cleanup does: a request is refused only if it is too soon after an allowed one,
    and with a period of at most five minutes it is refused exactly then.
    */
  lemma DecisionsAreByHistory(es: seq<Event>, j: nat)
    requires Ordered(es) && j < |es| && es[j].Request?
    ensures var mask := Allowed(map[], es, true);
            && (!mask[j] ==> TooSoon(es, mask, j))
            && (es[j].minPeriodMs <= 300_000 ==> (mask[j] <==> !TooSoon(es, mask, j)))
  {
    var mask := Allowed(map[], es, true);
    if !mask[j] {
      RefusedIsTooSoon(map[], es, j);
    } else if es[j].minPeriodMs <= 300_000 && TooSoon(es, mask, j) {
      var i :| 0 <= i < j && mask[i] && es[i].Request? && es[i].id == es[j].id && es[i].minPeriodMs != 0
               && es[j].now - es[i].now < es[j].minPeriodMs * 1_000_000;
      AllowedAreSpaced(map[], es, es[j].id, i, j);
    }
  }

  /** So a switched-off limit refuses nothing, nor is a first request refused; neither depends on the table's past. */
  lemma UnlimitedIsAdmitted(t: Table, id: string, minPeriodMs: int, now: Time)
    ensures minPeriodMs == 0 || id == "" ==>
      Admits(t, Request(id, minPeriodMs, now)) && Next(t, Request(id, minPeriodMs, now), true) == t
    ensures id !in t ==> Admits(t, Request(id, minPeriodMs, now))
    ensures id !in t && minPeriodMs != 0 && id != "" ==> Next(t, Request(id, minPeriodMs, now), true) == t[id := now]
  {
  }

  /** A run without the requests whose limit is switched off. */
  function LimitedOnly(es: seq<Event>): seq<Event> {
    if es == [] then []
    else (if es[0].Request? && es[0].minPeriodMs == 0 then [] else [es[0]]) + LimitedOnly(es[1..])
  }

  /** The decisions on the other requests, in order. */
  function LimitedDecisions(t: Table, es: seq<Event>): seq<bool>
    decreases es
  {
    if es == [] then []
    else
      (if es[0].Request? && es[0].minPeriodMs != 0 then [Admits(t, es[0])] else [])
      + LimitedDecisions(Next(t, es[0], true), es[1..])
  }

  /** Requests whose limit is switched off change no other decision. */
  lemma {:induction false} UnlimitedLeaveNoTrace(t: Table, es: seq<Event>)
    ensures LimitedDecisions(t, es) == LimitedDecisions(t, LimitedOnly(es))
    decreases es
  {
    if es != [] {
      var own := LimitedOnly(es);
      if es[0].Request? && es[0].minPeriodMs == 0 {
        assert own == LimitedOnly(es[1..]) && Next(t, es[0], true) == t;
        UnlimitedLeaveNoTrace(t, es[1..]);
      } else {
        assert own[0] == es[0] && own[1..] == LimitedOnly(es[1..]);
        UnlimitedLeaveNoTrace(Next(t, es[0], true), es[1..]);
      }
    }
  }

  // ---------- greedy admission is optimal ----------

  function Count(mask: seq<bool>): nat {
    if mask == [] then 0 else (if mask[0] then 1 else 0) + Count(mask[1..])
  }

  function RequestsOf(es: seq<Event>, mask: seq<bool>, id: string): (r: seq<bool>)
    requires |mask| == |es|
    ensures |r| == |es|
  {
    seq(|es|, i requires 0 <= i < |es| => mask[i] && es[i].Request? && es[i].id == id)
  }

  /** `pick` selects requests of `id`, pairwise at least `period` apart. */
  predicate SpacedPick(es: seq<Event>, pick: seq<bool>, id: string, period: int) {
    && |pick| == |es|
    && (forall i :: 0 <= i < |es| && pick[i] ==> es[i].Request? && es[i].id == id)
    && (forall i, j :: 0 <= i < j < |es| && pick[i] && pick[j] ==> es[j].Stamp() - es[i].Stamp() >= period)
  }

  predicate PicksFrom(es: seq<Event>, pick: seq<bool>, start: Time) {
    |pick| == |es| && forall i :: 0 <= i < |es| && pick[i] ==> start <= es[i].Stamp()
  }

  lemma {:induction false} ClearOne(mask: seq<bool>, i: nat)
    requires i < |mask| && mask[i]
    ensures Count(mask) == 1 + Count(mask[i := false])
  {
    if i > 0 {
      ClearOne(mask[1..], i - 1);
      assert mask[i := false][1..] == mask[1..][i - 1 := false];
    } else {
      assert mask[0 := false][1..] == mask[1..];
    }
  }

  lemma {:induction false} CountNone(mask: seq<bool>)
    requires forall i :: 0 <= i < |mask| ==> !mask[i]
    ensures Count(mask) == 0
  {
    if mask != [] { CountNone(mask[1..]); }
  }

  /** Dropping a selection's first pick leaves one that starts a period later. */
  lemma DropFirstPick(es: seq<Event>, pick: seq<bool>, id: string, period: int, start: Time) returns (fewer: seq<bool>)
    requires SpacedPick(es, pick, id, period) && PicksFrom(es, pick, start)
    ensures SpacedPick(es, fewer, id, period) && PicksFrom(es, fewer, start + period)
    ensures Count(pick) <= 1 + Count(fewer)
  {
    if i :| 0 <= i < |pick| && pick[i] && forall k :: 0 <= k < i ==> !pick[k] {
      ClearOne(pick, i);
      fewer := pick[i := false];
    } else {
      NoFirstPick(pick);
      CountNone(pick);
      fewer := pick;
    }
  }

  lemma {:induction false} NoFirstPick(pick: seq<bool>)
    requires !exists i :: 0 <= i < |pick| && pick[i] && forall k :: 0 <= k < i ==> !pick[k]
    ensures forall i :: 0 <= i < |pick| ==> !pick[i]
  {
    var n := 0;
    while n < |pick|
      invariant n <= |pick| && forall k :: 0 <= k < n ==> !pick[k]
    {
      n := n + 1;
    }
  }

  lemma RequestsOfTail(es: seq<Event>, mask: seq<bool>, id: string)
    requires es != [] && |mask| == |es|
    ensures RequestsOf(es, mask, id)[0] == (mask[0] && es[0].Request? && es[0].id == id)
    ensures RequestsOf(es, mask, id)[1..] == RequestsOf(es[1..], mask[1..], id)
  {
  }

  lemma MaskTail(t: Table, es: seq<Event>, id: string)
    requires es != []
    ensures Count(RequestsOf(es, Allowed(t, es, true), id))
         == (if es[0].Request? && es[0].id == id && Admits(t, es[0]) then 1 else 0)
            + Count(RequestsOf(es[1..], Allowed(Next(t, es[0], true), es[1..], true), id))
  {
    var mask, rest := Allowed(t, es, true), Allowed(Next(t, es[0], true), es[1..], true);
    assert mask == [Admits(t, es[0])] + rest;
    RequestsOfTail(es, mask, id);
  }

  lemma PickTail(es: seq<Event>, pick: seq<bool>, id: string, period: int)
    requires es != [] && SpacedPick(es, pick, id, period)
    ensures SpacedPick(es[1..], pick[1..], id, period)
    ensures pick[0] ==> PicksFrom(es[1..], pick[1..], es[0].Stamp() + period)
    ensures Count(pick) == (if pick[0] then 1 else 0) + Count(pick[1..])
    ensures forall start :: PicksFrom(es, pick, start) ==> PicksFrom(es[1..], pick[1..], start)
  {
    assert forall k :: 0 <= k < |es[1..]| ==> es[1..][k] == es[k + 1] && pick[1..][k] == pick[k + 1];
  }

  lemma {:induction false} GreedyFrom(t: Table, es: seq<Event>, id: string, minPeriodMs: int, pick: seq<bool>)
    requires Ordered(es) && id != "" && minPeriodMs > 0
    requires forall i :: 0 <= i < |es| && es[i].Request? && es[i].id == id ==> es[i].minPeriodMs == minPeriodMs
    requires SpacedPick(es, pick, id, minPeriodMs * MILLISECOND)
    requires id in t ==> PicksFrom(es, pick, t[id] + minPeriodMs * MILLISECOND)
    ensures Count(pick) <= Count(RequestsOf(es, Allowed(t, es, true), id))
    decreases |es|
  {
    if es != [] {
      var e, rest, period := es[0], es[1..], minPeriodMs * MILLISECOND;
      var t' := Next(t, e, true);
      assert forall k :: 0 <= k < |rest| ==> rest[k] == es[k + 1];
      MaskTail(t, es, id);
      PickTail(es, pick, id, period);
      if e.Request? && e.id == id && Admits(t, e) {
        var later := pick[1..];
        if !pick[0] {
          LaterRequests(es);
          later := DropFirstPick(rest, later, id, period, e.now);
        }
        GreedyFrom(t', rest, id, minPeriodMs, later);
      } else {
        GreedyFrom(t', rest, id, minPeriodMs, pick[1..]);
      }
    }
  }

  lemma LaterRequests(es: seq<Event>)
    requires es != [] && Ordered(es)
    ensures NotBefore(es[0].Stamp(), es[1..])
  {
  }

  /**
    For one identifier with a constant period, whatever other identifiers do and wherever cleanup
    runs: no selection of its arrivals that keeps the period is larger than what the limiter allows,
    and up to five minutes the allowed requests are such a selection themselves.
    */
  lemma GreedyIsOptimal(es: seq<Event>, id: string, minPeriodMs: int, pick: seq<bool>)
    requires Ordered(es) && id != "" && 0 < minPeriodMs
    requires forall i :: 0 <= i < |es| && es[i].Request? && es[i].id == id ==> es[i].minPeriodMs == minPeriodMs
    requires SpacedPick(es, pick, id, minPeriodMs * MILLISECOND)
    ensures var mask := RequestsOf(es, Allowed(map[], es, true), id);
            && Count(pick) <= Count(mask)
            && (minPeriodMs <= ENTRY_TTL_MS ==> SpacedPick(es, mask, id, minPeriodMs * MILLISECOND))
  {
    GreedyFrom(map[], es, id, minPeriodMs, pick);
    var mask := RequestsOf(es, Allowed(map[], es, true), id);
    if minPeriodMs <= ENTRY_TTL_MS {
      forall i, j | 0 <= i < j < |es| && mask[i] && mask[j]
        ensures es[j].Stamp() - es[i].Stamp() >= minPeriodMs * MILLISECOND
      {
        AllowedAreSpaced(map[], es, id, i, j);
      }
    }
  }

  // ---------- identifiers do not interfere ----------

  function OnlyOf(es: seq<Event>, id: string): seq<Event> {
    if es == [] then []
    else if es[0].Request? && es[0].id != id then OnlyOf(es[1..], id)
    else [es[0]] + OnlyOf(es[1..], id)
  }

  /** The decisions on the requests of `id`, in order. */
  function DecisionsOf(t: Table, es: seq<Event>, id: string): seq<bool>
    decreases es
  {
    if es == [] then []
    else
      (if es[0].Request? && es[0].id == id then [Admits(t, es[0])] else [])
      + DecisionsOf(Next(t, es[0], true), es[1..], id)
  }

  /** An identifier's decisions are those it would get if it were alone with the cleanups. */
  lemma {:induction false} IdentifiersAreIsolated(t: Table, u: Table, es: seq<Event>, id: string)
    requires id in t <==> id in u
    requires id in t ==> t[id] == u[id]
    ensures DecisionsOf(t, es, id) == DecisionsOf(u, OnlyOf(es, id), id)
    decreases es
  {
    if es != [] {
      if es[0].Request? && es[0].id != id {
        IdentifiersAreIsolated(Next(t, es[0], true), u, es[1..], id);
      } else {
        var own := OnlyOf(es, id);
        assert own[0] == es[0] && own[1..] == OnlyOf(es[1..], id);
        IdentifiersAreIsolated(Next(t, es[0], true), Next(u, es[0], true), es[1..], id);
      }
    }
  }
}
