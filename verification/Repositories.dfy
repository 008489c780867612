/**
  UpdateDB and LocateDB as tables (internal/repository/postgres/update.go and locate.go).

  UpdateDB's tables only grow, in id order; ids are the positions in a sequence.  A database call may
  fail, which is an input (`down`) of each operation.
  */
module Repositories {
  import opened Wrappers
  import opened Domain

  datatype Failure = Down

  // ---------- UpdateDB ----------

  /** The row stored under `key`: the first one that was written. */
  function FirstWith(rows: seq<CellRow>, key: CellKey): (r: Option<CellRow>)
    ensures r.Some? ==> r.value in rows && KeyOf(r.value.tower) == key
    ensures r.None? ==> forall i :: 0 <= i < |rows| ==> KeyOf(rows[i].tower) != key
  {
    if rows == [] then None
    else if KeyOf(rows[0].tower) == key then Some(rows[0])
    else FirstWith(rows[1..], key)
  }

  lemma {:induction false} FirstWithAppend(rows: seq<CellRow>, more: seq<CellRow>, key: CellKey)
    ensures FirstWith(rows + more, key)
         == if FirstWith(rows, key).Some? then FirstWith(rows, key) else FirstWith(more, key)
  {
    if rows == [] {
      assert rows + more == more;
    } else {
      assert (rows + more)[1..] == rows[1..] + more;
      FirstWithAppend(rows[1..], more, key);
    }
  }

  /** The insert of one cell row: ON CONFLICT DO NOTHING against the unique key. */
  function Inserted(rows: seq<CellRow>, row: CellRow): seq<CellRow> {
    if FirstWith(rows, KeyOf(row.tower)).Some? then rows else rows + [row]
  }

  /** UpdateDB's cells after a cell's report: one without any radio part is refused. */
  function Reported(rows: seq<CellRow>, cell: Cell, point: Point, source: string, objectType: string): seq<CellRow> {
    match RadioOf(cell)
    case None => rows
    case Some(radio) => Inserted(rows, NewRow(radio, point, source, objectType))
  }

  function NewRow(radio: Radio, point: Point, source: string, objectType: string): CellRow {
    CellRow(TowerOf(radio, Upper), point, Some(objectType), Some(source))
  }

  /** The row that a session refresh writes for a radio: lower-case technology, no type and no source. */
  function SessionRow(radio: Radio, point: Point): CellRow {
    CellRow(TowerOf(radio, Lower), point, None, None)
  }

  /**
    Reports of two towers without a row leave two rows, each as reported, unless they name the same cell:
    then the first report is the one row.
    */
  lemma TwoTowersTwoRows(rows: seq<CellRow>, a: Radio, p: Point, b: Radio, q: Point, source: string, objectType: string)
    requires FirstWith(rows, RadioKey(a)).None? && FirstWith(rows, RadioKey(b)).None?
    ensures var after := Inserted(Inserted(rows, NewRow(a, p, source, objectType)), NewRow(b, q, source, objectType));
            var forA := CellRow(TowerOf(a, Upper), p, Some(objectType), Some(source));
            var forB := CellRow(TowerOf(b, Upper), q, Some(objectType), Some(source));
            after == rows + if SameCell(a, b) then [forA] else [forA, forB]
  {
    KeysAreEqualIff(a, b, Upper, Upper);
    var forA := NewRow(a, p, source, objectType);
    FirstWithAppend(rows, [forA], RadioKey(b));
    var forB := NewRow(b, q, source, objectType);
    assert rows + [forA] + [forB] == rows + [forA, forB];
  }

  /** The result of LIMIT and OFFSET over a table in id order. */
  function Page<T>(rows: seq<T>, offset: nat, limit: nat): seq<T> {
    if offset >= |rows| then []
    else if offset + limit <= |rows| then rows[offset..offset + limit]
    else rows[offset..]
  }

  /** The loop that collects a result set: skip `offset` rows, then keep at most `limit`. */
  method FetchPage<T>(rows: seq<T>, offset: nat, limit: nat) returns (page: seq<T>)
    ensures page == Page(rows, offset, limit)
  {
    page := [];
    var i := offset;
    while i < |rows| && |page| < limit
      invariant offset <= i && |page| == i - offset && |page| <= limit
      invariant i <= |rows| || i == offset
      invariant i <= |rows| ==> page == rows[offset..i]
    {
      page := page + [rows[i]];
      i := i + 1;
    }
  }

  class UpdateRepo {
    var cells: seq<CellRow>
    var wifis: seq<SpotRow>
    var ips: seq<SpotRow>

    constructor ()
      ensures cells == [] && wifis == [] && ips == []
    {
      cells, wifis, ips := [], [], [];
    }

    /** The first report of a tower is kept; a cell without any radio part is refused. */
    method InsertCell(cell: Cell, point: Point, source: string, objectType: string, down: bool)
      returns (ok: bool)
      modifies this`cells
      ensures ok <==> RadioOf(cell).Some? && !down
      ensures cells == if ok then Reported(old(cells), cell, point, source, objectType) else old(cells)
    {
      var radio := RadioOf(cell);
      if radio.None? || down {
        return false;
      }
      var row := NewRow(radio.value, point, source, objectType);
      if FirstWith(cells, KeyOf(row.tower)).None? {
        cells := cells + [row];
      }
      return true;
    }

    /** No unique key: every report is kept. */
    method InsertWifi(bssid: string, point: Point, down: bool) returns (ok: bool)
      modifies this`wifis
      ensures ok == !down
      ensures wifis == if ok then old(wifis) + [SpotRow(bssid, point)] else old(wifis)
    {
      if !down {
        wifis := wifis + [SpotRow(bssid, point)];
      }
      return !down;
    }

    /** ON CONFLICT DO NOTHING has nothing to conflict with: UpdateDB's ip has no unique key either. */
    method InsertIP(address: string, point: Point, down: bool) returns (ok: bool)
      modifies this`ips
      ensures ok == !down
      ensures ips == if ok then old(ips) + [SpotRow(address, point)] else old(ips)
    {
      if !down {
        ips := ips + [SpotRow(address, point)];
      }
      return !down;
    }
  }

  // ---------- LocateDB ----------

  /** What LocateDB keeps of an UpdateDB row. */
  function Indexed(row: CellRow): LocateRow {
    LocateRow(row.tower, row.point, row.objectType == Some("metro"), row.source)
  }

  /** Insert, or on conflict rewrite the four columns that DO UPDATE names. */
  function UpsertedCell(t: CellIndex, row: CellRow): CellIndex {
    var key, new_ := KeyOf(row.tower), Indexed(row);
    t[key := if key in t then new_.(tower := t[key].tower) else new_]
  }

  /** In LocateDB too: the upsert of one tower leaves the row of another as it was. */
  lemma TowersDoNotOverwrite(t: CellIndex, a: Radio, p: Point, b: Radio, q: Point, source: string, objectType: string)
    ensures var rowA, rowB := NewRow(a, p, source, objectType), NewRow(b, q, source, objectType);
            var after := UpsertedCell(UpsertedCell(t, rowA), rowB);
            && RadioKey(a) in after && RadioKey(b) in after
            && PlaceOf(after[RadioKey(b)]) == Place(q, objectType == "metro", source)
            && PlaceOf(after[RadioKey(a)]) == Place(if SameCell(a, b) then q else p, objectType == "metro", source)
  {
    KeysAreEqualIff(a, b, Upper, Upper);
  }

  function UpsertedSpot(t: SpotIndex, row: SpotRow): SpotIndex {
    t[row.name := row.point]
  }

  class CellTable {
    var rows: CellIndex

    constructor ()
      ensures rows == map[]
    {
      rows := map[];
    }

    method Upsert(row: CellRow, down: bool) returns (ok: bool)
      modifies this
      ensures ok == !down
      ensures rows == if ok then UpsertedCell(old(rows), row) else old(rows)
    {
      if down {
        return false;
      }
      var key := KeyOf(row.tower);
      var fromMetro := row.objectType.Some? && row.objectType.value == "metro";
      var tower := if key in rows then rows[key].tower else row.tower;
      rows := rows[key := LocateRow(tower, row.point, fromMetro, row.source)];
      return true;
    }

    /** The upsert that follows those of `done` in a list; `n` is 1 if it succeeds and 0 if it is to be skipped. */
    method UpsertNext(row: CellRow, attempt: nat, rejected: nat -> bool,
                      ghost before: CellIndex, ghost done: seq<CellRow>) returns (n: nat)
      requires attempt == |done| && rows == AppliedCells(before, done, rejected)
      modifies this
      ensures rows == AppliedCells(before, done + [row], rejected)
      ensures Accepted(attempt, rejected) + n == Accepted(attempt + 1, rejected)
    {
      AppliedCellsMore(before, done, row, rejected);
      var ok := Upsert(row, rejected(attempt));
      n := if ok then 1 else 0;
    }

    /** FindLTE, FindGSM or FindWCDMA: some matching row, because of LIMIT 1. */
    method Find(radio: Radio) returns (r: Option<Place>)
      ensures r.None? <==> forall key :: key in rows ==> !Matches(rows[key].tower, radio)
      ensures r.Some? ==> exists key :: key in rows && Matches(rows[key].tower, radio) && r.value == PlaceOf(rows[key])
    {
      if key :| key in rows && Matches(rows[key].tower, radio) {
        return Some(PlaceOf(rows[key]));
      }
      return None;
    }
  }

  class SpotTable {
    var rows: SpotIndex

    constructor ()
      ensures rows == map[]
    {
      rows := map[];
    }

    method Upsert(row: SpotRow, down: bool) returns (ok: bool)
      modifies this
      ensures ok == !down
      ensures rows == if ok then UpsertedSpot(old(rows), row) else old(rows)
    {
      if !down {
        rows := rows[row.name := row.point];
      }
      return !down;
    }

    /** The upsert that follows those of `done` in a list; `n` is 1 if it succeeds and 0 if it is to be skipped. */
    method UpsertNext(row: SpotRow, attempt: nat, rejected: nat -> bool,
                      ghost before: SpotIndex, ghost done: seq<SpotRow>) returns (n: nat)
      requires attempt == |done| && rows == AppliedSpots(before, done, rejected)
      modifies this
      ensures rows == AppliedSpots(before, done + [row], rejected)
      ensures Accepted(attempt, rejected) + n == Accepted(attempt + 1, rejected)
    {
      AppliedSpotsMore(before, done, row, rejected);
      var ok := Upsert(row, rejected(attempt));
      n := if ok then 1 else 0;
    }

    method Find(name: string) returns (r: Option<Point>)
      ensures r == if name in rows then Some(rows[name]) else None
    {
      return if name in rows then Some(rows[name]) else None;
    }
  }

  class LocateRepo {
    const cells: CellTable
    const wifi: SpotTable
    const ip: SpotTable

    constructor ()
      ensures fresh(cells) && fresh(wifi) && fresh(ip) && wifi != ip
      ensures cells.rows == map[] && wifi.rows == map[] && ip.rows == map[]
    {
      cells := new CellTable();
      wifi := new SpotTable();
      ip := new SpotTable();
    }
  }

  // ---------- a list of upserts, some of which fail ----------

  /** Applying `rows` in order, without those whose attempt number is in `rejected`. */
  function AppliedCells(t: CellIndex, rows: seq<CellRow>, rejected: nat -> bool): CellIndex {
    if rows == [] then t
    else
      var before := AppliedCells(t, rows[..|rows| - 1], rejected);
      if rejected(|rows| - 1) then before else UpsertedCell(before, rows[|rows| - 1])
  }

  /** The same for wifi or ip. */
  function AppliedSpots(t: SpotIndex, rows: seq<SpotRow>, rejected: nat -> bool): SpotIndex {
    if rows == [] then t
    else
      var before := AppliedSpots(t, rows[..|rows| - 1], rejected);
      if rejected(|rows| - 1) then before else UpsertedSpot(before, rows[|rows| - 1])
  }

  lemma AppliedCellsMore(t: CellIndex, rows: seq<CellRow>, row: CellRow, rejected: nat -> bool)
    ensures AppliedCells(t, rows + [row], rejected)
         == var before := AppliedCells(t, rows, rejected);
            if rejected(|rows|) then before else UpsertedCell(before, row)
  {
    assert (rows + [row])[..|rows|] == rows;
  }

  lemma AppliedSpotsMore(t: SpotIndex, rows: seq<SpotRow>, row: SpotRow, rejected: nat -> bool)
    ensures AppliedSpots(t, rows + [row], rejected)
         == var before := AppliedSpots(t, rows, rejected);
            if rejected(|rows|) then before else UpsertedSpot(before, row)
  {
    assert (rows + [row])[..|rows|] == rows;
  }

  function Accepted(attempts: nat, rejected: nat -> bool): nat {
    if attempts == 0 then 0
    else Accepted(attempts - 1, rejected) + if rejected(attempts - 1) then 0 else 1
  }

  /** The successes are counted, each attempt once. */
  lemma {:induction false} AcceptedIsTheirNumber(attempts: nat, rejected: nat -> bool)
    ensures Accepted(attempts, rejected) == |set i: nat | i < attempts && !rejected(i)|
  {
    if attempts > 0 {
      var n := attempts - 1;
      AcceptedIsTheirNumber(n, rejected);
      var before, all := set i: nat | i < n && !rejected(i), set i: nat | i < attempts && !rejected(i);
      assert all == if rejected(n) then before else before + {n};
    }
  }

  lemma {:induction false} AllAccepted(attempts: nat, rejected: nat -> bool)
    requires forall i: nat :: i < attempts ==> !rejected(i)
    ensures Accepted(attempts, rejected) == attempts
  {
    if attempts > 0 {
      AllAccepted(attempts - 1, rejected);
    }
  }

  /** The last row under `key` whose upsert succeeded. */
  function LastAccepted(rows: seq<CellRow>, key: CellKey, rejected: nat -> bool): Option<CellRow> {
    if rows == [] then None
    else
      var n := |rows| - 1;
      if !rejected(n) && KeyOf(rows[n].tower) == key then Some(rows[n]) else LastAccepted(rows[..n], key, rejected)
  }

  /** The first row under `key` whose upsert succeeded. */
  function FirstAccepted(rows: seq<CellRow>, key: CellKey, rejected: nat -> bool): Option<CellRow> {
    if rows == [] then None
    else
      var n := |rows| - 1;
      var before := FirstAccepted(rows[..n], key, rejected);
      if before.Some? then before
      else if !rejected(n) && KeyOf(rows[n].tower) == key then Some(rows[n])
      else None
  }

  /**
    Whatever fails: a key has the coordinates, metro flag and source of its last row that succeeded, but
    the tower columns of the row that was there first; a key without such a row keeps what it had.
    */
  lemma {:induction false} LastCellRowWins(t: CellIndex, rows: seq<CellRow>, rejected: nat -> bool, key: CellKey)
    ensures var after := AppliedCells(t, rows, rejected);
            var last, first := LastAccepted(rows, key, rejected), FirstAccepted(rows, key, rejected);
            && (key in after <==> key in t || last.Some?)
            && (last.None? && key in t ==> after[key] == t[key])
            && (last.Some? <==> first.Some?)
            && (last.Some? ==>
                  after[key] == Indexed(last.value).(tower := if key in t then t[key].tower else first.value.tower))
  {
    if rows != [] {
      LastCellRowWins(t, rows[..|rows| - 1], rejected, key);
    }
  }

  /** The last row of that name whose upsert succeeded. */
  function LastAcceptedPoint(rows: seq<SpotRow>, name: string, rejected: nat -> bool): Option<Point> {
    if rows == [] then None
    else
      var n := |rows| - 1;
      if !rejected(n) && rows[n].name == name then Some(rows[n].point)
      else LastAcceptedPoint(rows[..n], name, rejected)
  }

  /** Whatever fails: a name has the point of its last row that succeeded, and without one what it had. */
  lemma {:induction false} LastAcceptedRowWins(t: SpotIndex, rows: seq<SpotRow>, rejected: nat -> bool, name: string)
    ensures var after, last := AppliedSpots(t, rows, rejected), LastAcceptedPoint(rows, name, rejected);
            && (name in after <==> name in t || last.Some?)
            && (name in after ==> after[name] == if last.Some? then last.value else t[name])
  {
    if rows != [] {
      LastAcceptedRowWins(t, rows[..|rows| - 1], rejected, name);
    }
  }

  lemma {:induction false} NoneRejected(rows: seq<SpotRow>, name: string, rejected: nat -> bool)
    requires forall i: nat :: i < |rows| ==> !rejected(i)
    ensures LastAcceptedPoint(rows, name, rejected) == LastPoint(rows, name)
  {
    if rows != [] {
      NoneRejected(rows[..|rows| - 1], name, rejected);
    }
  }

  /** The last row of that name. */
  function LastPoint(rows: seq<SpotRow>, name: string): Option<Point> {
    if rows == [] then None
    else if rows[|rows| - 1].name == name then Some(rows[|rows| - 1].point)
    else LastPoint(rows[..|rows| - 1], name)
  }

  /** With no failures the last row of each name wins, and other names keep what they had. */
  lemma LastRowWins(t: SpotIndex, rows: seq<SpotRow>, rejected: nat -> bool, name: string)
    requires forall i: nat :: i < |rows| ==> !rejected(i)
    ensures var after, last := AppliedSpots(t, rows, rejected), LastPoint(rows, name);
            && (name in after <==> name in t || last.Some?)
            && (name in after ==> after[name] == if last.Some? then last.value else t[name])
  {
    LastAcceptedRowWins(t, rows, rejected, name);
    NoneRejected(rows, name, rejected);
  }

  /** Applying the same rows a second time changes nothing. */
  lemma ApplyingTwiceIsOnce(t: SpotIndex, rows: seq<SpotRow>, rejected: nat -> bool)
    requires forall i: nat :: i < |rows| ==> !rejected(i)
    ensures var once := AppliedSpots(t, rows, rejected);
            AppliedSpots(once, rows, rejected) == once
  {
    var once := AppliedSpots(t, rows, rejected);
    var twice := AppliedSpots(once, rows, rejected);
    forall name
      ensures (name in twice <==> name in once) && (name in once ==> twice[name] == once[name])
    {
      LastRowWins(t, rows, rejected, name);
      LastRowWins(once, rows, rejected, name);
    }
  }
}
