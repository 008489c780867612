/**
  Answering one /locate request (internal/service/locate.go and async.go).

  While a request is being answered other requests and refreshes change the databases, so what a query
  returns is an arbitrary outcome for the list position it is made for; each position is queried at most
  once.  A query may also fail.
  */
module Locate {
  import opened Wrappers
  import opened Domain
  import opened Repositories
  import Geo

  const CELL_ACCURACY: real := 1000.0
  const WIFI_ACCURACY: real := 100.0
  const IP_ACCURACY: real := 100.0
  const WIFI_MAX_DISTANCE: real := 5000.0
  const MIN_ACCURACY: real := 1.0

  /** The outcome of a query, or of searching a whole list. */
  datatype Answer<+T> = Broken | Missing | Found(value: T)

  /**
    What one request meets: for each of its cells what LocateDB and ExternalDB answer, for each of its
    access points and addresses what LocateDB answers, and the two functions of the mathematics library.
    */
  datatype World = World(
    locate: nat -> Answer<Place>,
    external: nat -> Answer<Point>,
    wifi: seq<Answer<Point>>,
    ip: seq<Answer<Point>>,
    distance: (Point, Point) -> real,
    sqrt: real -> real)
  {
    ghost predicate Valid() {
      && (forall p, q :: distance(p, q) >= 0.0)
      && (forall d :: Geo.RootFor(sqrt, d, CELL_ACCURACY, WIFI_ACCURACY))
    }
  }

  /** The two lists that are searched in LocateDB alone. */
  datatype Kind = Wifi | Ip

  datatype Query = LocateCell(i: nat) | ExternalCell(i: nat) | SpotQuery(kind: Kind, i: nat)

  // ---------- searching a list ----------

  /** The first outcome from position `i` on that is not a miss. */
  function Resolve<T>(outcomes: seq<Answer<T>>, i: nat): Answer<T>
    requires i <= |outcomes|
    decreases |outcomes| - i
  {
    if i == |outcomes| then Missing
    else if outcomes[i].Missing? then Resolve(outcomes, i + 1)
    else outcomes[i]
  }

  /** A list misses exactly if all its items do; else it resolves to an item before which all miss. */
  lemma {:induction false} ResolveIsFirst<T>(outcomes: seq<Answer<T>>, i: nat)
    requires i <= |outcomes|
    ensures Resolve(outcomes, i).Missing? <==> forall k :: i <= k < |outcomes| ==> outcomes[k].Missing?
    ensures !Resolve(outcomes, i).Missing? ==>
      exists k :: i <= k < |outcomes| && outcomes[k] == Resolve(outcomes, i)
               && forall m :: i <= m < k ==> outcomes[m].Missing?
    decreases |outcomes| - i
  {
    if i < |outcomes| {
      ResolveIsFirst(outcomes, i + 1);
    }
  }

  /** LocateDB first, ExternalDB on a miss; a cell without a radio part is an error. */
  function CellOutcome(cells: seq<Cell>, w: World, i: nat): Answer<Place>
    requires i < |cells|
  {
    if RadioOf(cells[i]).None? then Broken
    else if !w.locate(i).Missing? then w.locate(i)
    else match w.external(i)
      case Broken => Broken
      case Missing => Missing
      case Found(point) => Found(Place(point, false, "external"))
  }

  function CellOutcomes(cells: seq<Cell>, w: World): (outcomes: seq<Answer<Place>>)
    ensures |outcomes| == |cells| && forall i :: 0 <= i < |cells| ==> outcomes[i] == CellOutcome(cells, w, i)
  {
    seq(|cells|, i requires 0 <= i < |cells| => CellOutcome(cells, w, i))
  }

  function CellAnswer(cells: seq<Cell>, w: World): Answer<Place> {
    Resolve(CellOutcomes(cells, w), 0)
  }

  /** A cell without a radio part is an error before any query. */
  function OneCellQueries(cells: seq<Cell>, w: World, i: nat): seq<Query>
    requires i < |cells|
  {
    if RadioOf(cells[i]).None? then []
    else if w.locate(i).Missing? then [LocateCell(i), ExternalCell(i)]
    else [LocateCell(i)]
  }

  /** The queries that the search of `cells` makes from position `i` on. */
  function CellQueries(cells: seq<Cell>, w: World, i: nat): seq<Query>
    requires i <= |cells|
    decreases |cells| - i
  {
    if i == |cells| then []
    else OneCellQueries(cells, w, i) + if CellOutcome(cells, w, i).Missing? then CellQueries(cells, w, i + 1) else []
  }

  function Outcomes(w: World, kind: Kind): seq<Answer<Point>> {
    if kind.Wifi? then w.wifi else w.ip
  }

  function SpotAnswer(w: World, kind: Kind): Answer<Point> {
    Resolve(Outcomes(w, kind), 0)
  }

  /** The queries that the search of a Wi-Fi or address list makes from position `i` on. */
  function SpotQueries(outcomes: seq<Answer<Point>>, kind: Kind, i: nat): seq<Query>
    requires i <= |outcomes|
    decreases |outcomes| - i
  {
    if i == |outcomes| then []
    else [SpotQuery(kind, i)] + if outcomes[i].Missing? then SpotQueries(outcomes, kind, i + 1) else []
  }

  lemma Associative<T>(a: seq<T>, b: seq<T>, c: seq<T>)
    ensures a + (b + c) == (a + b) + c
  {
  }

  // ---------- the decision ----------

  /** What the client gets. */
  datatype Fix = Fix(point: Point, accuracy: int, source: string, fromMetro: bool)

  datatype Stage = CellStage | WifiStage | IpStage

  predicate Confirms(cell: Place, wifi: Point, w: World) {
    w.distance(cell.point, wifi) < WIFI_MAX_DISTANCE
  }

  function FusedAccuracy(cell: Place, wifi: Point, w: World): int {
    Geo.ChordAccuracy(w.distance(cell.point, wifi), CELL_ACCURACY, WIFI_ACCURACY, MIN_ACCURACY, w.sqrt).Floor
  }

  /** The result for what the three lists resolve to. */
  function Choose(cell: Answer<Place>, wifi: Answer<Point>, ip: Answer<Point>, w: World): Result<Option<Fix>, Stage> {
    if cell.Broken? then Err(CellStage)
    else if cell.Found? && cell.value.fromMetro then
      Ok(Some(Fix(cell.value.point, CELL_ACCURACY.Floor, cell.value.source, true)))
    else if wifi.Broken? then Err(WifiStage)
    else if cell.Found? && wifi.Found? && Confirms(cell.value, wifi.value, w) then
      Ok(Some(Fix(wifi.value, FusedAccuracy(cell.value, wifi.value, w), "", false)))
    else if cell.Found? then Ok(Some(Fix(cell.value.point, CELL_ACCURACY.Floor, cell.value.source, false)))
    else if wifi.Found? then Ok(Some(Fix(wifi.value, WIFI_ACCURACY.Floor, "", false)))
    else if ip.Broken? then Err(IpStage)
    else if ip.Found? then Ok(Some(Fix(ip.value, IP_ACCURACY.Floor, "", false)))
    else Ok(None)
  }

  predicate NeedsWifi(cell: Answer<Place>) {
    !cell.Broken? && !(cell.Found? && cell.value.fromMetro)
  }

  predicate NeedsIp(cell: Answer<Place>, wifi: Answer<Point>) {
    cell.Missing? && wifi.Missing?
  }

  /** The queries after those for cells: Wi-Fi if still needed, then IP if still needed. */
  function SpotSearches(cell: Answer<Place>, w: World): seq<Query> {
    (if NeedsWifi(cell) then SpotQueries(w.wifi, Wifi, 0) else [])
    + (if NeedsIp(cell, SpotAnswer(w, Wifi)) then SpotQueries(w.ip, Ip, 0) else [])
  }

  /** All queries of a request, in order. */
  function RequestQueries(cells: seq<Cell>, w: World): seq<Query> {
    CellQueries(cells, w, 0) + SpotSearches(CellAnswer(cells, w), w)
  }

  // ---------- the service ----------

  /** A location object: the response, and what a write-back task keeps a pointer to. */
  class Location {
    var point: Point
    var accuracy: int
    var source: string
    var fromMetro: bool

    constructor (point: Point, source: string, fromMetro: bool)
      ensures View() == Fix(point, 0, source, fromMetro)
    {
      this.point, this.accuracy, this.source, this.fromMetro := point, 0, source, fromMetro;
    }

    ghost function View(): Fix
      reads this
    {
      Fix(point, accuracy, source, fromMetro)
    }
  }

  /** What was found, as a location whose accuracy is not set yet. */
  ghost predicate Shows(r: Answer<Location>, outcome: Answer<Place>)
    reads if r.Found? then {r.value} else {}
  {
    match r
    case Broken => outcome.Broken?
    case Missing => outcome.Missing?
    case Found(loc) =>
      && outcome.Found?
      && loc.View() == Fix(outcome.value.point, 0, outcome.value.source, outcome.value.fromMetro)
  }

  /** The search's result `r` is what was chosen: the same error, nothing, or a location with that content. */
  ghost predicate Reports(r: Result<Option<Location>, Stage>, chosen: Result<Option<Fix>, Stage>)
    reads if r.Ok? && r.value.Some? then {r.value.value} else {}
  {
    chosen == match r
              case Err(stage) => Err(stage)
              case Ok(None) => Ok(None)
              case Ok(Some(loc)) => Ok(Some(loc.View()))
  }

  /** A spawned closure: its own copy of the cell, and the location by reference. */
  datatype Task = Task(cell: Cell, loc: Location)

  /** The row the task inserts when it runs: of the location it reads nothing but the point. */
  function TaskRow(t: Task): CellRow
    requires RadioOf(t.cell).Some?
    reads t.loc`point
  {
    NewRow(RadioOf(t.cell).value, t.loc.point, "external", "")
  }

  class WaitGroupAdapter {
    var started: seq<Task>
    var finished: set<nat>

    constructor ()
      ensures started == [] && finished == {}
    {
      started, finished := [], {};
    }

    ghost predicate Valid()
      reads this
    {
      forall n :: n in finished ==> n < |started|
    }

    method Go(t: Task)
      modifies this`started
      ensures started == old(started) + [t]
    {
      started := started + [t];
    }

    /** One goroutine runs to its end; a failed insert is only logged. */
    method Run(n: nat, repo: UpdateRepo, down: bool)
      requires Valid() && n < |started| && n !in finished && RadioOf(started[n].cell).Some?
      modifies this`finished, repo`cells
      ensures Valid() && finished == old(finished) + {n}
      ensures repo.cells == if down then old(repo.cells) else Inserted(old(repo.cells), TaskRow(started[n]))
    {
      var t := started[n];
      var _ := repo.InsertCell(t.cell, t.loc.point, "external", "", down);
      finished := finished + {n};
    }

    /**
      Returns when no goroutine is left; they may run in any order, each of them once.  `rows` are the
      rows that the tasks insert.
      */
    method Wait(repo: UpdateRepo, down: nat -> bool, ghost rows: seq<CellRow>) returns (ghost order: seq<nat>)
      requires Valid() && |rows| == |started|
      requires forall n :: 0 <= n < |started| ==> RadioOf(started[n].cell).Some? && rows[n] == TaskRow(started[n])
      modifies this`finished, repo`cells
      ensures Valid() && forall n: nat :: n < |started| ==> n in finished
      ensures Enumerates(order, |started|, old(finished))
      ensures repo.cells == Replayed(old(repo.cells), rows, order, down)
    {
      ghost var cells0, todo := repo.cells, set n: nat | n < |started| && n !in finished;
      order := [];
      while exists n: nat :: n < |started| && n !in finished
        invariant Valid() && forall n: nat :: n in todo <==> n < |started| && n !in finished
        invariant forall i :: 0 <= i < |order| ==> order[i] < |started|
        invariant forall n :: n in finished <==> n in old(finished) || n in order
        invariant forall n :: n in order ==> n !in old(finished)
        invariant forall i, j :: 0 <= i < j < |order| ==> order[i] != order[j]
        invariant repo.cells == Replayed(cells0, rows, order, down)
        decreases todo
      {
        var n: nat :| n < |started| && n !in finished;
        Run(n, repo, down(n));
        ReplayOneMore(cells0, rows, order, n, down);
        todo, order := todo - {n}, order + [n];
      }
    }
  }

  /** Every number below `n` that is not in `done`, once. */
  ghost predicate Enumerates(order: seq<nat>, n: nat, done: set<nat>) {
    && (forall k: nat :: k in order <==> k < n && k !in done)
    && (forall i :: 0 <= i < |order| ==> order[i] < n)
    && (forall i, j :: 0 <= i < j < |order| ==> order[i] != order[j])
  }

  /** UpdateDB's cells after the tasks numbered by `order` have run, those that are `down` in vain. */
  function Replayed(cells: seq<CellRow>, rows: seq<CellRow>, order: seq<nat>, down: nat -> bool): seq<CellRow>
    requires forall i :: 0 <= i < |order| ==> order[i] < |rows|
  {
    if order == [] then cells
    else
      var before, last := Replayed(cells, rows, order[..|order| - 1], down), order[|order| - 1];
      if down(last) then before else Inserted(before, rows[last])
  }

  lemma ReplayOneMore(cells: seq<CellRow>, rows: seq<CellRow>, order: seq<nat>, n: nat, down: nat -> bool)
    requires n < |rows| && forall i :: 0 <= i < |order| ==> order[i] < |rows|
    ensures forall i :: 0 <= i < |order + [n]| ==> (order + [n])[i] < |rows|
    ensures Replayed(cells, rows, order + [n], down)
         == var before := Replayed(cells, rows, order, down); if down(n) then before else Inserted(before, rows[n])
  {
    assert (order + [n])[..|order|] == order;
  }

  /**
    In whatever order the write-backs run: a tower that had a row keeps it, and any other tower has one
    afterwards exactly if one of the write-backs that succeeded is for it, and then from such a one.
    */
  lemma {:induction false} ReplayStoresEachTower(cells: seq<CellRow>, rows: seq<CellRow>, order: seq<nat>,
                                                 down: nat -> bool, key: CellKey)
    requires forall i :: 0 <= i < |order| ==> order[i] < |rows|
    ensures var before, after := FirstWith(cells, key), FirstWith(Replayed(cells, rows, order, down), key);
            && (before.Some? ==> after == before)
            && (before.None? ==> (after.Some? <==> exists n :: n in order && !down(n) && KeyOf(rows[n].tower) == key))
            && (before.None? && after.Some? ==> exists n :: n in order && !down(n) && after.value == rows[n])
  {
    if order != [] {
      var init, last := order[..|order| - 1], order[|order| - 1];
      ReplayStoresEachTower(cells, rows, init, down, key);
      FirstWithAppend(Replayed(cells, rows, init, down), [rows[last]], key);
      LastOrEarlier(order);
    }
  }

  lemma LastOrEarlier(order: seq<nat>)
    requires order != []
    ensures order[|order| - 1] in order
    ensures forall n :: n in order <==> n == order[|order| - 1] || n in order[..|order| - 1]
  {
    assert order == order[..|order| - 1] + [order[|order| - 1]];
  }

  class LocateService {
    const wg: WaitGroupAdapter
    /** The queries sent so far. */
    var log: seq<Query>
    /** The rows of session_points written so far. */
    var saved: seq<SavedPoint>

    constructor (wg: WaitGroupAdapter)
      ensures this.wg == wg && log == [] && saved == []
    {
      this.wg := wg;
      log, saved := [], [];
    }

    /** Each ExternalDB hit spawns one write-back of that cell with that point; nothing else spawns one. */
    method FindCellLocation(cells: seq<Cell>, i: nat, w: World) returns (r: Answer<Location>)
      requires i < |cells|
      modifies this`log, wg`started
      ensures log == old(log) + OneCellQueries(cells, w, i)
      ensures Shows(r, CellOutcome(cells, w, i)) && (r.Found? ==> fresh(r.value))
      ensures wg.started == old(wg.started) + if r.Found? && w.locate(i).Missing? then [Task(cells[i], r.value)] else []
    {
      var radio := RadioOf(cells[i]);
      if radio.None? {
        return Broken;
      }
      log := log + [LocateCell(i)];
      match w.locate(i) {
        case Broken => return Broken;
        case Found(p) =>
          var loc := new Location(p.point, p.source, p.fromMetro);
          return Found(loc);
        case Missing =>
      }
      log := log + [ExternalCell(i)];
      match w.external(i) {
        case Broken => return Broken;
        case Missing => return Missing;
        case Found(point) =>
          var loc := new Location(point, "", false);
          loc.source := "external";
          wg.Go(Task(cells[i], loc));
          return Found(loc);
      }
    }

    method FindCell(cells: seq<Cell>, w: World) returns (r: Answer<Location>)
      modifies this`log, wg`started
      ensures log == old(log) + CellQueries(cells, w, 0)
      ensures Shows(r, CellAnswer(cells, w)) && (r.Found? ==> fresh(r.value))
      ensures WriteBackOf(cells, w, 0).None? ==> wg.started == old(wg.started)
      ensures WriteBackOf(cells, w, 0).Some? ==>
        r.Found? && wg.started == old(wg.started) + [Task(cells[WriteBackOf(cells, w, 0).value], r.value)]
    {
      ghost var start, all := log, CellQueries(cells, w, 0);
      ghost var outcomes, answer := CellOutcomes(cells, w), CellAnswer(cells, w);
      ghost var tasks, back := wg.started, WriteBackOf(cells, w, 0);
      var i := 0;
      while i < |cells|
        invariant 0 <= i <= |cells|
        invariant start + all == log + CellQueries(cells, w, i)
        invariant answer == Resolve(outcomes, i)
        invariant wg.started == tasks && back == WriteBackOf(cells, w, i)
      {
        ghost var outcome, before := CellOutcome(cells, w, i), log;
        ghost var one := OneCellQueries(cells, w, i);
        ghost var rest := if outcome.Missing? then CellQueries(cells, w, i + 1) else [];
        assert CellQueries(cells, w, i) == one + rest;
        var loc := FindCellLocation(cells, i, w);
        assert start + all == log + rest by { Associative(before, one, rest); }
        if loc.Broken? {
          assert answer == Broken && back == None;
          return Broken;
        }
        if loc.Found? {
          assert answer == outcome && back == if w.locate(i).Missing? then Some(i) else None;
          return loc;
        }
        i := i + 1;
      }
      return Missing;
    }

    /** The two identical searches findWifi and findIP. */
    method FindSpot(kind: Kind, w: World) returns (r: Answer<Location>)
      modifies this`log
      ensures log == old(log) + SpotQueries(Outcomes(w, kind), kind, 0)
      ensures r.Broken? <==> SpotAnswer(w, kind).Broken?
      ensures r.Missing? <==> SpotAnswer(w, kind).Missing?
      ensures r.Found? ==> fresh(r.value) && r.value.View() == Fix(SpotAnswer(w, kind).value, 0, "", false)
    {
      var outcomes := Outcomes(w, kind);
      var i := 0;
      ghost var start, all := log, SpotQueries(outcomes, kind, 0);
      while i < |outcomes|
        invariant 0 <= i <= |outcomes|
        invariant start + all == log + SpotQueries(outcomes, kind, i)
        invariant SpotAnswer(w, kind) == Resolve(outcomes, i)
      {
        ghost var rest := if outcomes[i].Missing? then SpotQueries(outcomes, kind, i + 1) else [];
        Associative(log, [SpotQuery(kind, i)], rest);
        log := log + [SpotQuery(kind, i)];
        assert start + all == log + rest;
        match outcomes[i] {
          case Broken => return Broken;
          case Found(point) =>
            var loc := new Location(point, "", false);
            return Found(loc);
          case Missing =>
        }
        i := i + 1;
      }
      return Missing;
    }

    /**
      What follows the cell search.  Of the cell's location, which a write-back task may be reading at the
      same time, only the accuracy is ever written.
      */
    method SearchAfterCell(cell: Answer<Location>, ghost place: Answer<Place>, w: World)
      returns (r: Result<Option<Location>, Stage>)
      requires !cell.Broken? && Shows(cell, place)
      modifies this`log, (if cell.Found? then {cell.value} else {})`accuracy
      ensures log == old(log) + SpotSearches(place, w)
      ensures Reports(r, Choose(place, SpotAnswer(w, Wifi), SpotAnswer(w, Ip), w))
      ensures r.Ok? && r.value.Some? ==> fresh(r.value.value) || (cell.Found? && r.value.value == cell.value)
    {
      ghost var forWifi := if NeedsWifi(place) then SpotQueries(w.wifi, Wifi, 0) else [];
      ghost var forIp := if NeedsIp(place, SpotAnswer(w, Wifi)) then SpotQueries(w.ip, Ip, 0) else [];
      assert SpotSearches(place, w) == forWifi + forIp;
      Associative(log, forWifi, forIp);
      if cell.Found? && cell.value.fromMetro {
        cell.value.accuracy := CELL_ACCURACY.Floor;
        return Ok(Some(cell.value));
      }
      var wifi := FindSpot(Wifi, w);
      if wifi.Broken? {
        return Err(WifiStage);
      }
      if cell.Found? && wifi.Found? {
        var d := w.distance(cell.value.point, wifi.value.point);
        if d < WIFI_MAX_DISTANCE {
          var accuracy := Geo.ChordAccuracy(d, CELL_ACCURACY, WIFI_ACCURACY, MIN_ACCURACY, w.sqrt);
          wifi.value.accuracy := accuracy.Floor;
          return Ok(Some(wifi.value));
        }
      }
      if cell.Found? {
        cell.value.accuracy := CELL_ACCURACY.Floor;
        return Ok(Some(cell.value));
      }
      if wifi.Found? {
        wifi.value.accuracy := WIFI_ACCURACY.Floor;
        return Ok(Some(wifi.value));
      }
      var ip := FindSpot(Ip, w);
      if ip.Broken? {
        return Err(IpStage);
      }
      if ip.Found? {
        ip.value.accuracy := IP_ACCURACY.Floor;
        return Ok(Some(ip.value));
      }
      return Ok(None);
    }

    /**
      The whole search.  It sends the queries of RequestQueries, answers as Choose decides, and spawns the
      write-back of the cell that ExternalDB resolved, if it did.  The task's location, which may be the
      response itself, still has ExternalDB's point when the search returns.
      */
    method SearchBySource(cells: seq<Cell>, w: World) returns (r: Result<Option<Location>, Stage>)
      modifies this`log, wg`started
      ensures log == old(log) + RequestQueries(cells, w)
      ensures Reports(r, Chosen(cells, w))
      ensures r.Ok? && r.value.Some? ==> fresh(r.value.value)
      ensures WriteBackOf(cells, w, 0).None? ==> wg.started == old(wg.started)
      ensures WriteBackOf(cells, w, 0).Some? ==>
        exists loc: Location ::
          && fresh(loc) && loc.point == w.external(WriteBackOf(cells, w, 0).value).value
          && wg.started == old(wg.started) + [Task(cells[WriteBackOf(cells, w, 0).value], loc)]
    {
      ghost var start, place := log, CellAnswer(cells, w);
      Associative(start, CellQueries(cells, w, 0), SpotSearches(place, w));
      var cell := FindCell(cells, w);
      if cell.Broken? {
        assert SpotSearches(place, w) == [];
        return Err(CellStage);
      }
      WriteBackIsTheHit(cells, w, 0);
      r := SearchAfterCell(cell, place, w);
    }

    /**
      Session storage failing never fails a request.  `generated` is the UUID used when the request has
      none.  The point is saved with the response's coordinates, and always labelled "external".
      */
    method FindLocation(session: string, generated: string, cells: seq<Cell>, w: World, saveDown: bool)
      returns (r: Result<Option<(string, Location)>, Stage>)
      modifies this, wg`started
      ensures log == old(log) + RequestQueries(cells, w)
      ensures var chosen := Chosen(cells, w);
              match r
              case Err(stage) => chosen == Err(stage) && saved == old(saved)
              case Ok(None) => chosen == Ok(None) && saved == old(saved)
              case Ok(Some((uuid, loc))) =>
                && uuid == (if session == "" then generated else session)
                && fresh(loc) && chosen == Ok(Some(loc.View()))
                && saved == old(saved)
                     + if saveDown then [] else [SavedPoint(uuid, loc.point, loc.accuracy, "external")]
      ensures WriteBackOf(cells, w, 0).None? ==> wg.started == old(wg.started)
      ensures WriteBackOf(cells, w, 0).Some? ==>
        exists loc: Location ::
          && fresh(loc) && loc.point == w.external(WriteBackOf(cells, w, 0).value).value
          && wg.started == old(wg.started) + [Task(cells[WriteBackOf(cells, w, 0).value], loc)]
    {
      var uuid := if session == "" then generated else session;
      var found := SearchBySource(cells, w);
      if found.Err? {
        return Err(found.error);
      }
      if found.value.None? {
        return Ok(None);
      }
      var loc := found.value.value;
      if !saveDown {
        saved := saved + [SavedPoint(uuid, loc.point, loc.accuracy, "external")];
      }
      return Ok(Some((uuid, loc)));
    }
  }

  function Chosen(cells: seq<Cell>, w: World): Result<Option<Fix>, Stage> {
    Choose(CellAnswer(cells, w), SpotAnswer(w, Wifi), SpotAnswer(w, Ip), w)
  }

  /** The position of the cell whose write-back the search spawns. */
  function WriteBackOf(cells: seq<Cell>, w: World, i: nat): (k: Option<nat>)
    requires i <= |cells|
    ensures k.Some? ==> k.value < |cells| && RadioOf(cells[k.value]).Some? && w.external(k.value).Found?
    decreases |cells| - i
  {
    if i == |cells| then None
    else if CellOutcome(cells, w, i).Missing? then WriteBackOf(cells, w, i + 1)
    else if CellOutcome(cells, w, i).Found? && w.locate(i).Missing? then Some(i)
    else None
  }

  lemma {:induction false} WriteBackIsTheHit(cells: seq<Cell>, w: World, i: nat)
    requires i <= |cells|
    ensures var k := WriteBackOf(cells, w, i);
            k.Some? ==> Resolve(CellOutcomes(cells, w), i) == Found(Place(w.external(k.value).value, false, "external"))
    decreases |cells| - i
  {
    if i < |cells| {
      WriteBackIsTheHit(cells, w, i + 1);
    }
  }
}
