/**
  The background loop that starts refreshes (internal/service/refresh.go, StartAutoRefresh).

  A run is what the loop's select receives, in order: a tick of the refresh ticker, a poll of the
  configured period, or the cancellation.  While there is no ticker its channel is nil, and a tick
  cannot be received.
  */
module AutoRefresh {
  import opened Wrappers

  datatype Event = Tick | Poll(period: int) | Cancel

  /** The loop's variables, the tickers it has made and stopped, and the period at each refresh it started. */
  datatype Loop = Loop(ticker: Option<int>, lastPeriod: int, created: nat, stopped: nat, started: seq<int>,
                       running: bool)

  function Checked(l: Loop, p: int): Loop {
    if p == l.lastPeriod then l
    else
      l.(stopped := if l.ticker.Some? then l.stopped + 1 else l.stopped,
         lastPeriod := p,
         ticker := if p > 0 then Some(p) else None,
         created := if p > 0 then l.created + 1 else l.created)
  }

  function Received(l: Loop, e: Event): Loop {
    if !l.running then l
    else match e
      case Tick => if l.ticker.Some? then l.(started := l.started + [l.lastPeriod]) else l
      case Poll(p) => Checked(l, p)
      case Cancel =>
        l.(running := false, ticker := None, stopped := if l.ticker.Some? then l.stopped + 1 else l.stopped)
  }

  const IDLE := Loop(None, -1, 0, 0, [], true)

  /** The loop after the first reading of the period and then `es`. */
  function After(first: int, es: seq<Event>): Loop {
    if es == [] then Checked(IDLE, first)
    else Received(After(first, es[..|es| - 1]), es[|es| - 1])
  }

  class RefreshLoop {
    var ticker: Option<int>
    var lastPeriod: int
    var created: nat
    var stopped: nat
    var started: seq<int>
    var running: bool

    ghost function View(): Loop
      reads this
    {
      Loop(ticker, lastPeriod, created, stopped, started, running)
    }

    constructor ()
      ensures View() == IDLE
    {
      ticker, lastPeriod, created, stopped, started, running := None, -1, 0, 0, [], true;
    }

    method CheckPeriod(p: int)
      modifies this
      ensures View() == Checked(old(View()), p)
    {
      if p == lastPeriod {
        return;
      }
      if ticker.Some? {
        stopped := stopped + 1;
        ticker := None;
      }
      lastPeriod := p;
      if p > 0 {
        ticker := Some(p);
        created := created + 1;
      }
    }

    /** The goroutine: it returns on cancellation, or is still waiting when the events end. */
    method Start(first: int, es: seq<Event>)
      requires View() == IDLE
      modifies this
      ensures View() == After(first, es)
    {
      CheckPeriod(first);
      var i := 0;
      while i < |es|
        invariant 0 <= i <= |es|
        invariant running && View() == After(first, es[..i])
      {
        assert es[..i + 1][..i] == es[..i];
        match es[i] {
          case Tick =>
            if ticker.Some? {
              started := started + [lastPeriod];
            }
          case Poll(p) =>
            CheckPeriod(p);
          case Cancel =>
            if ticker.Some? {
              stopped := stopped + 1;
              ticker := None;
            }
            running := false;
            NothingAfterCancel(first, es, i + 1);
            return;
        }
        i := i + 1;
      }
      assert es[..|es|] == es;
    }
  }

  lemma {:induction false} NothingAfterCancel(first: int, es: seq<Event>, i: nat)
    requires i <= |es| && !After(first, es[..i]).running
    ensures After(first, es) == After(first, es[..i])
    decreases |es| - i
  {
    if i < |es| {
      assert es[..i + 1][..i] == es[..i];
      NothingAfterCancel(first, es, i + 1);
    } else {
      assert es[..i] == es;
    }
  }

  // ---------- what a run amounts to ----------

  predicate Cancelled(es: seq<Event>) {
    exists i :: 0 <= i < |es| && es[i].Cancel?
  }

  /** The last period read before the loop ended. */
  function LastPoll(first: int, es: seq<Event>): int {
    if es == [] then first
    else
      var init, e := es[..|es| - 1], es[|es| - 1];
      if e.Poll? && !Cancelled(init) then e.period else LastPoll(first, init)
  }

  /** The ticks received while the last reading was positive and the loop had not ended. */
  function EffectiveTicks(first: int, es: seq<Event>): seq<int> {
    if es == [] then []
    else
      var init, e := es[..|es| - 1], es[|es| - 1];
      EffectiveTicks(first, init)
      + if e.Tick? && !Cancelled(init) && LastPoll(first, init) > 0 then [LastPoll(first, init)] else []
  }

  /** How often the reading turned into a different, positive period. */
  function Settings(first: int, es: seq<Event>): nat {
    if es == [] then (if first > 0 then 1 else 0)
    else
      var init, e := es[..|es| - 1], es[|es| - 1];
      Settings(first, init)
      + if e.Poll? && !Cancelled(init) && e.period > 0 && e.period != LastPoll(first, init) then 1 else 0
  }

  /**
    Every run: there is a ticker exactly while the loop runs and its last reading is positive, with
    that period; re-reading the same period leaves the ticker alone; no ticker is leaked; and a
    refresh was started by each effective tick and by nothing else.
    */
  lemma {:induction false} LoopFollowsItsReadings(first: int, es: seq<Event>)
    ensures var l, period := After(first, es), LastPoll(first, es);
            && l.running == !Cancelled(es)
            && l.lastPeriod == period
            && l.ticker == (if l.running && period > 0 then Some(period) else None)
            && l.created == Settings(first, es)
            && l.created - l.stopped == (if l.ticker.Some? then 1 else 0)
            && l.started == EffectiveTicks(first, es)
  {
    if es != [] {
      var init, e := es[..|es| - 1], es[|es| - 1];
      LoopFollowsItsReadings(first, init);
      assert Cancelled(es) <==> Cancelled(init) || e.Cancel? by {
        if e.Cancel? { assert es[|es| - 1].Cancel?; }
        if Cancelled(init) {
          var i :| 0 <= i < |init| && init[i].Cancel?;
          assert es[i].Cancel?;
        }
        if Cancelled(es) {
          var i :| 0 <= i < |es| && es[i].Cancel?;
          assert i < |init| ==> init[i].Cancel?;
        }
      }
    }
  }

  /** No refresh starts on a period that is not positive. */
  lemma {:induction false} RefreshesNeedAPeriod(first: int, es: seq<Event>, i: nat)
    requires i < |After(first, es).started|
    ensures After(first, es).started[i] > 0
  {
    LoopFollowsItsReadings(first, es);
    PositiveTicks(first, es);
  }

  lemma {:induction false} PositiveTicks(first: int, es: seq<Event>)
    ensures forall i :: 0 <= i < |EffectiveTicks(first, es)| ==> EffectiveTicks(first, es)[i] > 0
  {
    if es != [] {
      PositiveTicks(first, es[..|es| - 1]);
    }
  }
}
