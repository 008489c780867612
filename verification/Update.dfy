/**
  Accepting one /update request (internal/service/update.go).

  Parsing an IP address is the standard library's; which strings it accepts is an input.
  */
module Update {
  import opened Wrappers
  import opened Domain
  import opened Repositories
  import Pipeline = CellPipeline
  import Answers = CellAnswers
  import Spots = SpotPipeline

  datatype Location = Location(point: Point, accuracy: int)

  datatype UpdateRequest = UpdateRequest(session: string, objectType: string,
                                         cells: seq<Cell>, wifis: seq<string>, ips: seq<string>,
                                         location: Option<Location>)

  datatype Problem =
    | NoLocation | BadLatitude | BadLongitude | BadAccuracy | BadType | NoSources
    | NoRadio(i: nat) | NoAddress(i: nat) | BadAddress(i: nat)

  datatype InsertFailure = CellFailed(i: nat) | WifiFailed(i: nat) | IpFailed(i: nat)

  predicate GoodLocation(l: Location) {
    -90.0 <= l.point.lat <= 90.0 && -180.0 <= l.point.lon <= 180.0 && l.accuracy > 0
  }

  /** What a request must be to be taken. */
  predicate Acceptable(req: UpdateRequest, isAddress: string -> bool) {
    && req.location.Some? && GoodLocation(req.location.value)
    && GoodType(req.objectType)
    && (req.cells != [] || req.wifis != [] || req.ips != [])
    && (forall i :: 0 <= i < |req.cells| ==> RadioOf(req.cells[i]).Some?)
    && (forall i :: 0 <= i < |req.ips| ==> req.ips[i] != "" && isAddress(req.ips[i]))
  }

  predicate GoodType(objectType: string) {
    objectType in {"", "metro", "building", "street"}
  }

  /** The i-th cell is the first without a radio part. */
  predicate FirstBareCell(req: UpdateRequest, i: nat) {
    && i < |req.cells| && RadioOf(req.cells[i]).None?
    && forall k :: 0 <= k < i ==> RadioOf(req.cells[k]).Some?
  }

  /** The i-th address is the first that is empty or does not parse. */
  predicate FirstBadAddress(req: UpdateRequest, isAddress: string -> bool, i: nat) {
    && i < |req.ips| && (req.ips[i] == "" || !isAddress(req.ips[i]))
    && forall k :: 0 <= k < i ==> req.ips[k] != "" && isAddress(req.ips[k])
  }

  /** What is wrong with a request, told in the order in which it is looked for. */
  predicate IsProblem(req: UpdateRequest, isAddress: string -> bool, p: Problem) {
    match p
    case NoLocation => req.location.None?
    case BadLatitude => req.location.Some? && !(-90.0 <= req.location.value.point.lat <= 90.0)
    case BadLongitude =>
      && req.location.Some? && -90.0 <= req.location.value.point.lat <= 90.0
      && !(-180.0 <= req.location.value.point.lon <= 180.0)
    case BadAccuracy =>
      && req.location.Some? && req.location.value.accuracy <= 0
      && -90.0 <= req.location.value.point.lat <= 90.0 && -180.0 <= req.location.value.point.lon <= 180.0
    case BadType =>
      && req.location.Some? && GoodLocation(req.location.value)
      && req.objectType !in {"", "metro", "building", "street"}
    case NoSources => GoodHead(req) && req.cells == [] && req.wifis == [] && req.ips == []
    case NoRadio(i) => GoodHead(req) && FirstBareCell(req, i)
    case NoAddress(i) => GoodLists(req) && FirstBadAddress(req, isAddress, i) && req.ips[i] == ""
    case BadAddress(i) => GoodLists(req) && FirstBadAddress(req, isAddress, i) && req.ips[i] != ""
  }

  predicate GoodHead(req: UpdateRequest) {
    req.location.Some? && GoodLocation(req.location.value) && GoodType(req.objectType)
  }

  predicate GoodLists(req: UpdateRequest) {
    GoodHead(req) && forall i :: 0 <= i < |req.cells| ==> RadioOf(req.cells[i]).Some?
  }

  /** A request has at most one problem in this sense, and none exactly if it is acceptable. */
  lemma ProblemIsUnique(req: UpdateRequest, isAddress: string -> bool, p: Problem, q: Problem)
    requires IsProblem(req, isAddress, p)
    ensures IsProblem(req, isAddress, q) ==> p == q
    ensures !Acceptable(req, isAddress)
  {
    if IsProblem(req, isAddress, q) && p.NoRadio? {
      assert p.i < q.i || q.i < p.i || p.i == q.i;
    }
    if IsProblem(req, isAddress, q) && (p.NoAddress? || p.BadAddress?) {
      assert p.i < q.i || q.i < p.i || p.i == q.i;
    }
  }

  /** Accepts exactly the acceptable requests and names the problem of any other. */
  method Validate(req: UpdateRequest, isAddress: string -> bool) returns (r: Result<(), Problem>)
    ensures r.Ok? <==> Acceptable(req, isAddress)
    ensures r.Err? ==> IsProblem(req, isAddress, r.error)
  {
    if req.location.None? {
      return Err(NoLocation);
    }
    var l := req.location.value;
    if l.point.lat < -90.0 || l.point.lat > 90.0 {
      return Err(BadLatitude);
    }
    if l.point.lon < -180.0 || l.point.lon > 180.0 {
      return Err(BadLongitude);
    }
    if l.accuracy <= 0 {
      return Err(BadAccuracy);
    }
    if req.objectType != "" && req.objectType !in {"metro", "building", "street"} {
      return Err(BadType);
    }
    if |req.cells| == 0 && |req.wifis| == 0 && |req.ips| == 0 {
      return Err(NoSources);
    }
    for i := 0 to |req.cells|
      invariant forall k :: 0 <= k < i ==> RadioOf(req.cells[k]).Some?
    {
      if req.cells[i].lte.None? && req.cells[i].gsm.None? && req.cells[i].wcdma.None? {
        return Err(NoRadio(i));
      }
    }
    for i := 0 to |req.ips|
      invariant forall k :: 0 <= k < i ==> req.ips[k] != "" && isAddress(req.ips[k])
    {
      if req.ips[i] == "" {
        return Err(NoAddress(i));
      }
      if !isAddress(req.ips[i]) {
        return Err(BadAddress(i));
      }
    }
    return Ok(());
  }

  // ---------- inserting ----------

  /** UpdateDB's cells after the reports of the given cells, in order. */
  function CellsInserted(rows: seq<CellRow>, cells: seq<Cell>, point: Point, objectType: string): seq<CellRow> {
    if cells == [] then rows
    else
      var n := |cells| - 1;
      Reported(CellsInserted(rows, cells[..n], point, objectType), cells[n], point, "client", objectType)
  }

  lemma OneCellMore(rows: seq<CellRow>, cells: seq<Cell>, i: nat, point: Point, objectType: string)
    requires i < |cells|
    ensures CellsInserted(rows, cells[..i + 1], point, objectType)
         == Reported(CellsInserted(rows, cells[..i], point, objectType), cells[i], point, "client", objectType)
  {
    assert cells[..i + 1][..i] == cells[..i];
  }

  function SpotsOf(names: seq<string>, point: Point): seq<SpotRow> {
    seq(|names|, i requires 0 <= i < |names| => SpotRow(names[i], point))
  }

  /** How many of each list were inserted before the request stopped. */
  function Progress(req: UpdateRequest, r: Result<(), InsertFailure>): (nat, nat, nat) {
    match r
    case Ok(_) => (|req.cells|, |req.wifis|, |req.ips|)
    case Err(CellFailed(i)) => (i, 0, 0)
    case Err(WifiFailed(i)) => (|req.cells|, i, 0)
    case Err(IpFailed(i)) => (|req.cells|, |req.wifis|, i)
  }

  /** The k-th insert of the request fails: the database is down, or a cell has no radio part. */
  predicate Fails(req: UpdateRequest, down: nat -> bool, k: nat) {
    down(k) || (k < |req.cells| && RadioOf(req.cells[k]).None?)
  }

  method InsertCells(repo: UpdateRepo, req: UpdateRequest, point: Point, down: nat -> bool) returns (n: nat)
    modifies repo`cells
    ensures n <= |req.cells| && (forall k: nat :: k < n ==> !Fails(req, down, k))
    ensures n < |req.cells| ==> Fails(req, down, n)
    ensures repo.cells == CellsInserted(old(repo.cells), req.cells[..n], point, req.objectType)
  {
    ghost var before := repo.cells;
    for i := 0 to |req.cells|
      invariant forall k: nat :: k < i ==> !Fails(req, down, k)
      invariant repo.cells == CellsInserted(before, req.cells[..i], point, req.objectType)
    {
      OneCellMore(before, req.cells, i, point, req.objectType);
      var ok := repo.InsertCell(req.cells[i], point, "client", req.objectType, down(i));
      if !ok {
        return i;
      }
    }
    assert req.cells[..|req.cells|] == req.cells;
    return |req.cells|;
  }

  method InsertWifis(repo: UpdateRepo, req: UpdateRequest, point: Point, down: nat -> bool) returns (n: nat)
    modifies repo`wifis
    ensures var c := |req.cells|;
            && n <= |req.wifis| && (forall k: nat :: c <= k < c + n ==> !Fails(req, down, k))
            && (n < |req.wifis| ==> Fails(req, down, c + n))
    ensures repo.wifis == old(repo.wifis) + SpotsOf(req.wifis[..n], point)
  {
    for i := 0 to |req.wifis|
      invariant forall k: nat :: |req.cells| <= k < |req.cells| + i ==> !Fails(req, down, k)
      invariant repo.wifis == old(repo.wifis) + SpotsOf(req.wifis[..i], point)
    {
      assert SpotsOf(req.wifis[..i + 1], point) == SpotsOf(req.wifis[..i], point) + [SpotRow(req.wifis[i], point)];
      var ok := repo.InsertWifi(req.wifis[i], point, down(|req.cells| + i));
      if !ok {
        return i;
      }
    }
    return |req.wifis|;
  }

  method InsertIps(repo: UpdateRepo, req: UpdateRequest, point: Point, down: nat -> bool) returns (n: nat)
    modifies repo`ips
    ensures var c := |req.cells| + |req.wifis|;
            && n <= |req.ips| && (forall k: nat :: c <= k < c + n ==> !Fails(req, down, k))
            && (n < |req.ips| ==> Fails(req, down, c + n))
    ensures repo.ips == old(repo.ips) + SpotsOf(req.ips[..n], point)
  {
    for i := 0 to |req.ips|
      invariant forall k: nat :: |req.cells| + |req.wifis| <= k < |req.cells| + |req.wifis| + i ==> !Fails(req, down, k)
      invariant repo.ips == old(repo.ips) + SpotsOf(req.ips[..i], point)
    {
      assert SpotsOf(req.ips[..i + 1], point) == SpotsOf(req.ips[..i], point) + [SpotRow(req.ips[i], point)];
      var ok := repo.InsertIP(req.ips[i], point, down(|req.cells| + |req.wifis| + i));
      if !ok {
        return i;
      }
    }
    return |req.ips|;
  }

  datatype Tables = Tables(cells: seq<CellRow>, wifis: seq<SpotRow>, ips: seq<SpotRow>)

  function Contents(repo: UpdateRepo): Tables
    reads repo
  {
    Tables(repo.cells, repo.wifis, repo.ips)
  }

  /**
    Cells, then wifis, then ips were inserted up to the first insert that fails: what was inserted before
    it stays and nothing after it is tried.  `down` gives the numbers of the inserts that fail.
    */
  ghost predicate Stored(req: UpdateRequest, down: nat -> bool, before: Tables, after: Tables,
                         r: Result<(), InsertFailure>)
    requires req.location.Some?
  {
    var (c, w, a), point := Progress(req, r), req.location.value.point;
    && c <= |req.cells| && w <= |req.wifis| && a <= |req.ips|
    && (r.Err? ==>
          match r.error
          case CellFailed(i) => i < |req.cells|
          case WifiFailed(i) => i < |req.wifis|
          case IpFailed(i) => i < |req.ips|)
    && (r.Err? ==> Fails(req, down, c + w + a))
    && (forall k: nat :: k < c + w + a ==> !Fails(req, down, k))
    && after == Tables(CellsInserted(before.cells, req.cells[..c], point, req.objectType),
                       before.wifis + SpotsOf(req.wifis[..w], point),
                       before.ips + SpotsOf(req.ips[..a], point))
  }

  class UpdateService {
    const repo: UpdateRepo
    /** The rows of session_points written so far. */
    var saved: seq<SavedPoint>

    constructor (repo: UpdateRepo)
      ensures this.repo == repo && saved == []
    {
      this.repo := repo;
      saved := [];
    }

    /** A session's point is saved first; failing to do so does not stop the report. */
    method Process(req: UpdateRequest, saveDown: bool, down: nat -> bool) returns (r: Result<(), InsertFailure>)
      requires req.location.Some?
      modifies this`saved, repo
      ensures saved == old(saved)
                + if req.session == "" || saveDown then []
                  else [SavedPoint(req.session, req.location.value.point, req.location.value.accuracy, "client")]
      ensures Stored(req, down, old(Contents(repo)), Contents(repo), r)
    {
      if req.session != "" && !saveDown {
        saved := saved + [SavedPoint(req.session, req.location.value.point, req.location.value.accuracy, "client")];
      }
      r := Insert(req, down);
    }

    method Insert(req: UpdateRequest, down: nat -> bool) returns (r: Result<(), InsertFailure>)
      requires req.location.Some?
      modifies repo
      ensures Stored(req, down, old(Contents(repo)), Contents(repo), r)
    {
      var point := req.location.value.point;
      var c := InsertCells(repo, req, point, down);
      if c < |req.cells| {
        return Err(CellFailed(c));
      }
      var w := InsertWifis(repo, req, point, down);
      if w < |req.wifis| {
        return Err(WifiFailed(w));
      }
      var a := InsertIps(repo, req, point, down);
      if a < |req.ips| {
        return Err(IpFailed(a));
      }
      return Ok(());
    }
  }

  // ---------- what a report leaves ----------

  /** The k-th insert, through cells, wifis and ips, is the first that fails; without a failure, k is their number. */
  predicate StopsAt(req: UpdateRequest, down: nat -> bool, k: nat) {
    var total := |req.cells| + |req.wifis| + |req.ips|;
    && k <= total
    && (forall m: nat :: m < k ==> !down(m) && (m < |req.cells| ==> !IsBare(req.cells[m])))
    && (k < total ==> down(k) || (k < |req.cells| && IsBare(req.cells[k])))
  }

  predicate IsBare(cell: Cell) {
    cell.lte.None? && cell.gsm.None? && cell.wcdma.None?
  }

  /** The rows that the first `n` of the names leave after `before`: one each, with that name and the point. */
  predicate Appended(before: seq<SpotRow>, after: seq<SpotRow>, names: seq<string>, n: int, point: Point) {
    && 0 <= n <= |names| && |after| == |before| + n
    && (forall i :: 0 <= i < |before| ==> after[i] == before[i])
    && (forall i :: 0 <= i < n ==> after[|before| + i].name == names[i] && after[|before| + i].point == point)
  }

  function Within(x: int, most: int): int {
    if x < 0 then 0 else if x > most then most else x
  }

  /**
    A report succeeds exactly if no insert fails, and else names the first that does by its list and
    position.  All inserts before it took effect, in this order, and none after it: wifi and ip have one
    more row for each name, at the reported coordinates, and the cells are those of the cells before it.
    */
  lemma ReportStopsAtFirstFailure(req: UpdateRequest, down: nat -> bool, before: Tables, after: Tables,
                                  r: Result<(), InsertFailure>, k: nat)
    requires req.location.Some? && Stored(req, down, before, after, r) && StopsAt(req, down, k)
    ensures var c, w, point := |req.cells|, |req.wifis|, req.location.value.point;
            && (r.Ok? <==> k == c + w + |req.ips|)
            && (r.Err? ==> r.error == if k < c then CellFailed(k) else if k < c + w then WifiFailed(k - c)
                                      else IpFailed(k - c - w))
            && Appended(before.wifis, after.wifis, req.wifis, Within(k - c, w), point)
            && Appended(before.ips, after.ips, req.ips, Within(k - c - w, |req.ips|), point)
            && after.cells == CellsInserted(before.cells, req.cells[..Within(k, c)], point, req.objectType)
  {
    var (c, w, a) := Progress(req, r);
    var n := c + w + a;
    assert n < k ==> !down(n) && (n < |req.cells| ==> !IsBare(req.cells[n]));
    assert k < n ==> !Fails(req, down, k);
    assert n == k;
  }

  /** The steps of the pipeline that the cells of a report amount to. */
  function Inserts(cells: seq<Cell>, point: Point, objectType: string): seq<Pipeline.Event> {
    if cells == [] then []
    else
      var n := |cells| - 1;
      Inserts(cells[..n], point, objectType)
      + if RadioOf(cells[n]).None? then [] else [Pipeline.ClientInsert(RadioOf(cells[n]).value, point, objectType)]
  }

  /** A report is a run of the pipeline's steps, so all that holds of every run holds with reports in it. */
  lemma {:induction false} ReportIsARun(s: Pipeline.State, cells: seq<Cell>, point: Point, objectType: string)
    ensures Pipeline.Exec(s, Inserts(cells, point, objectType))
         == s.(rows := CellsInserted(s.rows, cells, point, objectType))
  {
    if cells != [] {
      var n := |cells| - 1;
      var init := Inserts(cells[..n], point, objectType);
      ReportIsARun(s, cells[..n], point, objectType);
      if RadioOf(cells[n]).Some? {
        var last := Pipeline.ClientInsert(RadioOf(cells[n]).value, point, objectType);
        Answers.ExecConcat(s, init, [last]);
        OneStep(Pipeline.Exec(s, init), last);
      } else {
        assert Inserts(cells, point, objectType) == init;
      }
    }
  }

  function SpotInserts(names: seq<string>, point: Point): seq<Spots.Event> {
    if names == [] then []
    else SpotInserts(names[..|names| - 1], point) + [Spots.ClientInsert(SpotRow(names[|names| - 1], point))]
  }

  /** So are the access points and the addresses, each in a pipeline of its own. */
  lemma {:induction false} SpotReportIsARun(s: Spots.State, names: seq<string>, point: Point)
    ensures Spots.Exec(s, SpotInserts(names, point)) == s.(rows := s.rows + SpotsOf(names, point))
  {
    if names == [] {
      assert s.rows + SpotsOf(names, point) == s.rows;
    } else {
      var init, last := names[..|names| - 1], Spots.ClientInsert(SpotRow(names[|names| - 1], point));
      SpotReportIsARun(s, init, point);
      Spots.ExecConcat(s, SpotInserts(init, point), [last]);
      var mid := Spots.Exec(s, SpotInserts(init, point));
      assert Spots.Exec(Spots.Next(mid, last), [last][1..]) == Spots.Next(mid, last);
      assert s.rows + SpotsOf(init, point) + [last.row] == s.rows + SpotsOf(names, point);
    }
  }

  lemma OneStep(s: Pipeline.State, e: Pipeline.Event)
    ensures Pipeline.Exec(s, [e]) == Pipeline.Next(s, e)
  {
    assert Pipeline.Exec(Pipeline.Next(s, e), [e][1..]) == Pipeline.Next(s, e);
  }

  /**
    A report of towers that all have a row adds nothing, whatever its coordinates: UpdateDB keeps the
    first report of each tower.
    */
  lemma {:induction false} ReportedTowersStay(rows: seq<CellRow>, cells: seq<Cell>, point: Point, objectType: string)
    requires forall i :: 0 <= i < |cells| && RadioOf(cells[i]).Some? ==>
               FirstWith(rows, RadioKey(RadioOf(cells[i]).value)).Some?
    ensures CellsInserted(rows, cells, point, objectType) == rows
  {
    if cells != [] {
      ReportedTowersStay(rows, cells[..|cells| - 1], point, objectType);
    }
  }

  /** After the inserts every tower of the request has a row: the one it already had, or else one from the request. */
  lemma {:induction false} EveryTowerIsStored(rows: seq<CellRow>, cells: seq<Cell>, point: Point, objectType: string,
                                              key: CellKey)
    ensures var after := FirstWith(CellsInserted(rows, cells, point, objectType), key);
            && (FirstWith(rows, key).Some? ==> after == FirstWith(rows, key))
            && (FirstWith(rows, key).None? ==>
                  (after.Some? <==> Reports(cells, key)))
            && (FirstWith(rows, key).None? && after.Some? ==>
                  && after.value.point == point && after.value.objectType == Some(objectType)
                  && after.value.source == Some("client"))
  {
    if cells != [] {
      var n := |cells| - 1;
      EveryTowerIsStored(rows, cells[..n], point, objectType, key);
      if RadioOf(cells[n]).Some? {
        var before := CellsInserted(rows, cells[..n], point, objectType);
        FirstWithAppend(before, [NewRow(RadioOf(cells[n]).value, point, "client", objectType)], key);
      }
      ReportsMore(cells, key);
    }
  }

  predicate Reports(cells: seq<Cell>, key: CellKey) {
    exists i :: 0 <= i < |cells| && IsFor(cells[i], key)
  }

  lemma ReportsMore(cells: seq<Cell>, key: CellKey)
    requires cells != []
    ensures Reports(cells, key) <==> IsFor(cells[|cells| - 1], key) || Reports(cells[..|cells| - 1], key)
  {
    var init := cells[..|cells| - 1];
    if Reports(init, key) {
      var i :| 0 <= i < |init| && IsFor(init[i], key);
      assert IsFor(cells[i], key);
    }
    if Reports(cells, key) {
      var i :| 0 <= i < |cells| && IsFor(cells[i], key);
      assert i < |init| ==> IsFor(init[i], key);
    }
  }

  predicate IsFor(cell: Cell, key: CellKey) {
    RadioOf(cell).Some? && RadioKey(RadioOf(cell).value) == key
  }
}
