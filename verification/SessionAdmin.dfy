/**
  Writing the points of a session into LocateDB (internal/service/session_admin.go, RefreshFromSession).

  Parsing the stored request is an input: a point has a request, or none if it was empty or malformed.
  */
module SessionAdmin {
  import opened Wrappers
  import opened Domain
  import opened Repositories
  import opened Refresh

  datatype Request = Request(cells: seq<Cell>, wifis: seq<string>, ips: seq<string>)

  datatype SessionPoint = SessionPoint(point: Point, request: Option<Request>)

  datatype Kind = WifiKind | IpKind

  // ---------- the entries that are eligible, in order ----------

  function EligibleCell(cell: Cell, point: Point): seq<CellRow> {
    match RadioOf(cell)
    case None => []
    case Some(radio) => [SessionRow(radio, point)]
  }

  function CellRows(cells: seq<Cell>, point: Point): seq<CellRow> {
    if cells == [] then []
    else CellRows(cells[..|cells| - 1], point) + EligibleCell(cells[|cells| - 1], point)
  }

  function Eligible(name: string, point: Point): seq<SpotRow> {
    if name == "" then [] else [SpotRow(name, point)]
  }

  function SpotRows(names: seq<string>, point: Point): seq<SpotRow> {
    if names == [] then []
    else SpotRows(names[..|names| - 1], point) + Eligible(names[|names| - 1], point)
  }

  function NamesOf(p: SessionPoint, kind: Kind): seq<string> {
    if p.request.None? then [] else if kind.WifiKind? then p.request.value.wifis else p.request.value.ips
  }

  function CellsOf(p: SessionPoint): seq<Cell> {
    if p.request.None? then [] else p.request.value.cells
  }

  function CellEntries(points: seq<SessionPoint>): seq<CellRow> {
    if points == [] then []
    else
      var p := points[|points| - 1];
      CellEntries(points[..|points| - 1]) + CellRows(CellsOf(p), p.point)
  }

  function SpotEntries(points: seq<SessionPoint>, kind: Kind): seq<SpotRow> {
    if points == [] then []
    else
      var p := points[|points| - 1];
      SpotEntries(points[..|points| - 1], kind) + SpotRows(NamesOf(p, kind), p.point)
  }

  class SessionAdminService {
    const dest: LocateRepo

    constructor (dest: LocateRepo)
      ensures this.dest == dest
    {
      this.dest := dest;
    }

    /** One cell: one without any radio part is passed over. */
    method UpsertOneCell(table: CellTable, cell: Cell, point: Point, attempts: nat, rejected: nat -> bool,
                         ghost before: CellIndex, ghost rows: seq<CellRow>) returns (tried: nat, upserted: nat)
      requires attempts == |rows| && table.rows == AppliedCells(before, rows, rejected)
      modifies table
      ensures tried == |rows + EligibleCell(cell, point)|
      ensures table.rows == AppliedCells(before, rows + EligibleCell(cell, point), rejected)
      ensures Accepted(attempts, rejected) + upserted == Accepted(tried, rejected)
    {
      var radio := RadioOf(cell);
      if radio.None? {
        assert rows + EligibleCell(cell, point) == rows;
        return attempts, 0;
      }
      upserted := table.UpsertNext(SessionRow(radio.value, point), attempts, rejected, before, rows);
      tried := attempts + 1;
    }

    /** The cells of one point; `done` are the rows of the points before it. */
    method UpsertCells(table: CellTable, cells: seq<Cell>, point: Point, attempts: nat, rejected: nat -> bool,
                       ghost before: CellIndex, ghost done: seq<CellRow>) returns (tried: nat, upserted: nat)
      requires attempts == |done| && table.rows == AppliedCells(before, done, rejected)
      modifies table
      ensures tried == |done + CellRows(cells, point)|
      ensures table.rows == AppliedCells(before, done + CellRows(cells, point), rejected)
      ensures Accepted(attempts, rejected) + upserted == Accepted(tried, rejected)
    {
      tried, upserted := attempts, 0;
      ghost var rows, accepted := done, Accepted(attempts, rejected);
      for i := 0 to |cells|
        invariant rows == done + CellRows(cells[..i], point) && tried == |rows|
        invariant table.rows == AppliedCells(before, rows, rejected)
        invariant accepted + upserted == Accepted(tried, rejected)
      {
        OneCellMore(done, cells, i, point, rows);
        var n;
        tried, n := UpsertOneCell(table, cells[i], point, tried, rejected, before, rows);
        rows, upserted := rows + EligibleCell(cells[i], point), upserted + n;
      }
      assert cells[..|cells|] == cells;
    }

    /** One BSSID or address: an empty one is passed over. */
    method UpsertName(table: SpotTable, name: string, point: Point, attempts: nat, rejected: nat -> bool,
                      ghost before: SpotIndex, ghost rows: seq<SpotRow>) returns (tried: nat, upserted: nat)
      requires attempts == |rows| && table.rows == AppliedSpots(before, rows, rejected)
      modifies table
      ensures tried == |rows + Eligible(name, point)|
      ensures table.rows == AppliedSpots(before, rows + Eligible(name, point), rejected)
      ensures Accepted(attempts, rejected) + upserted == Accepted(tried, rejected)
    {
      if name == "" {
        assert rows + Eligible(name, point) == rows;
        return attempts, 0;
      }
      upserted := table.UpsertNext(SpotRow(name, point), attempts, rejected, before, rows);
      tried := attempts + 1;
    }

    /** The BSSIDs or addresses of one point. */
    method UpsertSpots(table: SpotTable, names: seq<string>, point: Point, attempts: nat, rejected: nat -> bool,
                       ghost before: SpotIndex, ghost done: seq<SpotRow>) returns (tried: nat, upserted: nat)
      requires attempts == |done| && table.rows == AppliedSpots(before, done, rejected)
      modifies table
      ensures tried == |done + SpotRows(names, point)|
      ensures table.rows == AppliedSpots(before, done + SpotRows(names, point), rejected)
      ensures Accepted(attempts, rejected) + upserted == Accepted(tried, rejected)
    {
      tried, upserted := attempts, 0;
      ghost var rows, accepted := done, Accepted(attempts, rejected);
      for i := 0 to |names|
        invariant rows == done + SpotRows(names[..i], point) && tried == |rows|
        invariant table.rows == AppliedSpots(before, rows, rejected)
        invariant accepted + upserted == Accepted(tried, rejected)
      {
        OneNameMore(done, names, i, point, rows);
        var n;
        tried, n := UpsertName(table, names[i], point, tried, rejected, before, rows);
        rows, upserted := rows + Eligible(names[i], point), upserted + n;
      }
      assert names[..|names|] == names;
    }

    /**
      The three tables each receive their eligible entries of all points in order; failed upserts are
      skipped and not counted.  If the session's points cannot be read nothing is written.
      */
    method RefreshFromSession(stored: Option<seq<SessionPoint>>,
                              rejectedCells: nat -> bool, rejectedWifis: nat -> bool, rejectedIps: nat -> bool)
      returns (stats: Stats, ok: bool)
      requires dest.wifi != dest.ip
      modifies dest.cells, dest.wifi, dest.ip
      ensures ok == stored.Some?
      ensures !ok ==>
        && stats == Stats(0, 0, 0) && dest.cells.rows == old(dest.cells.rows)
        && dest.wifi.rows == old(dest.wifi.rows) && dest.ip.rows == old(dest.ip.rows)
      ensures ok ==>
        var points := stored.value;
        && dest.cells.rows == AppliedCells(old(dest.cells.rows), CellEntries(points), rejectedCells)
        && dest.wifi.rows == AppliedSpots(old(dest.wifi.rows), SpotEntries(points, WifiKind), rejectedWifis)
        && dest.ip.rows == AppliedSpots(old(dest.ip.rows), SpotEntries(points, IpKind), rejectedIps)
        && stats.cells == Accepted(|CellEntries(points)|, rejectedCells)
        && stats.wifis == Accepted(|SpotEntries(points, WifiKind)|, rejectedWifis)
        && stats.ips == Accepted(|SpotEntries(points, IpKind)|, rejectedIps)
    {
      var cells, wifi, ip := dest.cells, dest.wifi, dest.ip;
      ghost var cells0, wifi0, ip0 := cells.rows, wifi.rows, ip.rows;
      stats, ok := Stats(0, 0, 0), stored.Some?;
      if !ok {
        return;
      }
      var points := stored.value;
      var c, w, a := 0, 0, 0;
      for i := 0 to |points|
        invariant c == |CellEntries(points[..i])| && stats.cells == Accepted(c, rejectedCells)
        invariant w == |SpotEntries(points[..i], WifiKind)| && stats.wifis == Accepted(w, rejectedWifis)
        invariant a == |SpotEntries(points[..i], IpKind)| && stats.ips == Accepted(a, rejectedIps)
        invariant cells.rows == AppliedCells(cells0, CellEntries(points[..i]), rejectedCells)
        invariant wifi.rows == AppliedSpots(wifi0, SpotEntries(points[..i], WifiKind), rejectedWifis)
        invariant ip.rows == AppliedSpots(ip0, SpotEntries(points[..i], IpKind), rejectedIps)
      {
        OnePointMore(points, i);
        var p := points[i];
        if p.request.None? {
          continue;
        }
        var n;
        c, n := UpsertCells(cells, p.request.value.cells, p.point, c, rejectedCells, cells0, CellEntries(points[..i]));
        stats := stats.(cells := stats.cells + n);
        w, n := UpsertSpots(wifi, p.request.value.wifis, p.point, w, rejectedWifis,
                            wifi0, SpotEntries(points[..i], WifiKind));
        stats := stats.(wifis := stats.wifis + n);
        a, n := UpsertSpots(ip, p.request.value.ips, p.point, a, rejectedIps, ip0, SpotEntries(points[..i], IpKind));
        stats := stats.(ips := stats.ips + n);
      }
      assert points[..|points|] == points;
    }
  }

  lemma OneCellMore(done: seq<CellRow>, cells: seq<Cell>, i: nat, point: Point, rows: seq<CellRow>)
    requires i < |cells| && rows == done + CellRows(cells[..i], point)
    ensures done + CellRows(cells[..i + 1], point) == rows + EligibleCell(cells[i], point)
  {
    assert cells[..i + 1][..i] == cells[..i];
  }

  lemma OneNameMore(done: seq<SpotRow>, names: seq<string>, i: nat, point: Point, rows: seq<SpotRow>)
    requires i < |names| && rows == done + SpotRows(names[..i], point)
    ensures done + SpotRows(names[..i + 1], point) == rows + Eligible(names[i], point)
  {
    assert names[..i + 1][..i] == names[..i];
  }

  lemma OnePointMore(points: seq<SessionPoint>, i: nat)
    requires i < |points|
    ensures CellEntries(points[..i + 1]) == CellEntries(points[..i]) + CellRows(CellsOf(points[i]), points[i].point)
    ensures forall kind ::
      SpotEntries(points[..i + 1], kind)
      == SpotEntries(points[..i], kind) + SpotRows(NamesOf(points[i], kind), points[i].point)
    ensures points[i].request.None? ==> CellEntries(points[..i + 1]) == CellEntries(points[..i])
    ensures points[i].request.None? ==>
      forall kind :: SpotEntries(points[..i + 1], kind) == SpotEntries(points[..i], kind)
  {
    assert points[..i + 1][..i] == points[..i];
  }

  // ---------- the last point that names it wins ----------

  /** The last point of the session whose request names a BSSID or address. */
  function LastNaming(points: seq<SessionPoint>, kind: Kind, name: string): Option<Point> {
    if points == [] then None
    else
      var p := points[|points| - 1];
      if name in NamesOf(p, kind) then Some(p.point) else LastNaming(points[..|points| - 1], kind, name)
  }

  lemma {:induction false} LastOfConcat(rows: seq<SpotRow>, more: seq<SpotRow>, name: string)
    ensures LastPoint(rows + more, name)
         == if LastPoint(more, name).Some? then LastPoint(more, name) else LastPoint(rows, name)
  {
    if more == [] {
      assert rows + more == rows;
    } else {
      assert (rows + more)[..|rows + more| - 1] == rows + more[..|more| - 1];
      LastOfConcat(rows, more[..|more| - 1], name);
    }
  }

  lemma EligibleName(last: string, point: Point, name: string)
    requires name != ""
    ensures LastPoint(Eligible(last, point), name) == if name == last then Some(point) else None
  {
    if last != "" {
      assert [SpotRow(last, point)][..0] == [];
    }
  }

  lemma {:induction false} NamesOfOnePoint(names: seq<string>, point: Point, name: string)
    requires name != ""
    ensures LastPoint(SpotRows(names, point), name) == if name in names then Some(point) else None
  {
    if names != [] {
      var init, last := names[..|names| - 1], names[|names| - 1];
      assert name in names <==> name in init || name == last by {
        assert names == init + [last];
      }
      NamesOfOnePoint(init, point, name);
      EligibleName(last, point, name);
      LastOfConcat(SpotRows(init, point), Eligible(last, point), name);
    }
  }

  lemma {:induction false} EntriesFollowNaming(points: seq<SessionPoint>, kind: Kind, name: string)
    requires name != ""
    ensures LastPoint(SpotEntries(points, kind), name) == LastNaming(points, kind, name)
  {
    if points != [] {
      var init, p := points[..|points| - 1], points[|points| - 1];
      EntriesFollowNaming(init, kind, name);
      NamesOfOnePoint(NamesOf(p, kind), p.point, name);
      LastOfConcat(SpotEntries(init, kind), SpotRows(NamesOf(p, kind), p.point), name);
    }
  }

  lemma {:induction false} NoEntryIsEmpty(points: seq<SessionPoint>, kind: Kind)
    ensures LastPoint(SpotEntries(points, kind), "").None?
  {
    if points != [] {
      var init, p := points[..|points| - 1], points[|points| - 1];
      NoEntryIsEmpty(init, kind);
      NoNameIsEmpty(NamesOf(p, kind), p.point);
      LastOfConcat(SpotEntries(init, kind), SpotRows(NamesOf(p, kind), p.point), "");
    }
  }

  lemma {:induction false} NoNameIsEmpty(names: seq<string>, point: Point)
    ensures LastPoint(SpotRows(names, point), "").None?
  {
    if names != [] {
      var init, last := names[..|names| - 1], names[|names| - 1];
      NoNameIsEmpty(init, point);
      LastOfConcat(SpotRows(init, point), Eligible(last, point), "");
    }
  }

  /**
    Without failures, a session refresh gives each non-empty name the coordinates of the last point that
    names it and leaves every other row alone; the empty name is never written; doing it again changes
    nothing; and every eligible entry is counted.
    */
  lemma SessionRefreshIsLastWriteWins(t: SpotIndex, points: seq<SessionPoint>, kind: Kind, rejected: nat -> bool,
                                      name: string)
    requires forall i: nat :: i < |SpotEntries(points, kind)| ==> !rejected(i)
    ensures var after := AppliedSpots(t, SpotEntries(points, kind), rejected);
            var last := if name == "" then None else LastNaming(points, kind, name);
            && (last.Some? ==> name in after && after[name] == last.value)
            && (last.None? ==> (name in after <==> name in t) && (name in t ==> after[name] == t[name]))
            && AppliedSpots(after, SpotEntries(points, kind), rejected) == after
            && Accepted(|SpotEntries(points, kind)|, rejected) == |SpotEntries(points, kind)|
  {
    AllAccepted(|SpotEntries(points, kind)|, rejected);
    LastRowWins(t, SpotEntries(points, kind), rejected, name);
    ApplyingTwiceIsOnce(t, SpotEntries(points, kind), rejected);
    if name == "" {
      NoEntryIsEmpty(points, kind);
    } else {
      EntriesFollowNaming(points, kind, name);
    }
  }

  // ---------- by the stored requests themselves ----------

  predicate HasBssid(p: SessionPoint, bssid: string) {
    p.request.Some? && bssid in p.request.value.wifis
  }

  predicate HasAddress(p: SessionPoint, address: string) {
    p.request.Some? && address in p.request.value.ips
  }

  predicate Has(p: SessionPoint, kind: Kind, name: string) {
    match kind
    case WifiKind => HasBssid(p, name)
    case IpKind => HasAddress(p, name)
  }

  /** The i-th point is the last whose stored request has the name. */
  predicate IsLastWith(points: seq<SessionPoint>, i: nat, kind: Kind, name: string) {
    && i < |points| && Has(points[i], kind, name)
    && forall k :: i < k < |points| ==> !Has(points[k], kind, name)
  }

  predicate NoneHas(points: seq<SessionPoint>, kind: Kind, name: string) {
    forall k :: 0 <= k < |points| ==> !Has(points[k], kind, name)
  }

  lemma {:induction false} LastNamingIs(points: seq<SessionPoint>, i: nat, kind: Kind, name: string)
    requires IsLastWith(points, i, kind, name)
    ensures LastNaming(points, kind, name) == Some(points[i].point)
  {
    if i < |points| - 1 {
      LastNamingIs(points[..|points| - 1], i, kind, name);
    }
  }

  lemma {:induction false} NoneIsNaming(points: seq<SessionPoint>, kind: Kind, name: string)
    requires NoneHas(points, kind, name)
    ensures LastNaming(points, kind, name).None?
  {
    if points != [] {
      NoneIsNaming(points[..|points| - 1], kind, name);
    }
  }

  /**
    The wifi table gets the BSSIDs of the stored requests and the ip table their addresses, each with the
    coordinates of the last point that has it; what no stored request has stays as it was.
    */
  lemma SessionSpots(t: SpotIndex, points: seq<SessionPoint>, kind: Kind, rejected: nat -> bool, name: string)
    requires name != "" && forall i: nat :: i < |SpotEntries(points, kind)| ==> !rejected(i)
    ensures var after := AppliedSpots(t, SpotEntries(points, kind), rejected);
            && (forall i: nat :: IsLastWith(points, i, kind, name) ==> name in after && after[name] == points[i].point)
            && (NoneHas(points, kind, name) ==>
                  (name in after <==> name in t) && (name in t ==> after[name] == t[name]))
  {
    SessionRefreshIsLastWriteWins(t, points, kind, rejected, name);
    forall i: nat | IsLastWith(points, i, kind, name)
      ensures LastNaming(points, kind, name) == Some(points[i].point)
    {
      LastNamingIs(points, i, kind, name);
    }
    if NoneHas(points, kind, name) {
      NoneIsNaming(points, kind, name);
    }
  }

  /** Every name but the empty ones makes one entry, in order. */
  lemma {:induction false} EntriesOfNames(names: seq<string>, point: Point)
    requires "" !in names
    ensures |SpotRows(names, point)| == |names|
    ensures forall i :: 0 <= i < |names| ==> SpotRows(names, point)[i] == SpotRow(names[i], point)
  {
    if names != [] {
      EntriesOfNames(names[..|names| - 1], point);
    }
  }

  // ---------- cells ----------

  /** One of the point's cells is, by the part that counts, that cell. */
  predicate HasCell(p: SessionPoint, radio: Radio) {
    p.request.Some? && Contains(p.request.value.cells, radio)
  }

  predicate Contains(cells: seq<Cell>, radio: Radio) {
    exists i :: 0 <= i < |cells| && RadioOf(cells[i]).Some? && SameCell(RadioOf(cells[i]).value, radio)
  }

  predicate IsLastWithCell(points: seq<SessionPoint>, i: nat, radio: Radio) {
    && i < |points| && HasCell(points[i], radio)
    && forall k :: i < k < |points| ==> !HasCell(points[k], radio)
  }

  /** Under which key a session refresh writes a cell. */
  function SessionKey(radio: Radio): CellKey {
    KeyOf(TowerOf(radio, Lower))
  }

  lemma {:induction false} LastCellOfConcat(rows: seq<CellRow>, more: seq<CellRow>, key: CellKey, rejected: nat -> bool)
    requires forall i: nat :: i < |rows| + |more| ==> !rejected(i)
    ensures LastAccepted(rows + more, key, rejected)
         == if LastAccepted(more, key, rejected).Some? then LastAccepted(more, key, rejected)
            else LastAccepted(rows, key, rejected)
  {
    if more == [] {
      assert rows + more == rows;
    } else {
      var n := |rows + more| - 1;
      assert (rows + more)[..n] == rows + more[..|more| - 1] && (rows + more)[n] == more[|more| - 1];
      LastCellOfConcat(rows, more[..|more| - 1], key, rejected);
    }
  }

  /** The row that the last of a list of entries with this key would leave. */
  predicate LeavesPoint(row: Option<CellRow>, point: Point) {
    row.Some? && row.value.point == point && row.value.objectType == None && row.value.source == None
  }

  lemma EligibleCellLeaves(cell: Cell, point: Point, radio: Radio, rejected: nat -> bool)
    requires RadioOf(cell).Some? ==> !rejected(0)
    ensures var last := LastAccepted(EligibleCell(cell, point), SessionKey(radio), rejected);
            if RadioOf(cell).Some? && SameCell(RadioOf(cell).value, radio) then LeavesPoint(last, point) else last.None?
  {
    if RadioOf(cell).Some? {
      var own := RadioOf(cell).value;
      KeysAreEqualIff(own, radio, Lower, Lower);
      assert [SessionRow(own, point)][..0] == [];
    }
  }

  lemma ContainsMore(cells: seq<Cell>, radio: Radio)
    requires cells != []
    ensures var last := cells[|cells| - 1];
            Contains(cells, radio) <==>
              Contains(cells[..|cells| - 1], radio) || (RadioOf(last).Some? && SameCell(RadioOf(last).value, radio))
  {
    var init := cells[..|cells| - 1];
    if Contains(init, radio) {
      var i :| 0 <= i < |init| && RadioOf(init[i]).Some? && SameCell(RadioOf(init[i]).value, radio);
      assert cells[i] == init[i];
    }
    if Contains(cells, radio) {
      var i :| 0 <= i < |cells| && RadioOf(cells[i]).Some? && SameCell(RadioOf(cells[i]).value, radio);
      assert i < |init| ==> init[i] == cells[i];
    }
  }

  lemma {:induction false} CellsOfOnePoint(cells: seq<Cell>, point: Point, radio: Radio, rejected: nat -> bool)
    requires forall i: nat :: i < |CellRows(cells, point)| ==> !rejected(i)
    ensures var last := LastAccepted(CellRows(cells, point), SessionKey(radio), rejected);
            if Contains(cells, radio) then LeavesPoint(last, point) else last.None?
  {
    if cells != [] {
      var init, cell := cells[..|cells| - 1], cells[|cells| - 1];
      CellsOfOnePoint(init, point, radio, rejected);
      EligibleCellLeaves(cell, point, radio, rejected);
      LastCellOfConcat(CellRows(init, point), EligibleCell(cell, point), SessionKey(radio), rejected);
      ContainsMore(cells, radio);
    }
  }

  lemma OnePointMoreCells(points: seq<SessionPoint>, radio: Radio, rejected: nat -> bool)
    requires points != [] && forall i: nat :: i < |CellEntries(points)| ==> !rejected(i)
    ensures var init, p := points[..|points| - 1], points[|points| - 1];
            var last := LastAccepted(CellEntries(points), SessionKey(radio), rejected);
            if HasCell(p, radio) then LeavesPoint(last, p.point)
            else last == LastAccepted(CellEntries(init), SessionKey(radio), rejected)
  {
    var init, p := points[..|points| - 1], points[|points| - 1];
    CellsOfOnePoint(CellsOf(p), p.point, radio, rejected);
    LastCellOfConcat(CellEntries(init), CellRows(CellsOf(p), p.point), SessionKey(radio), rejected);
  }

  lemma {:induction false} EntriesFollowCells(points: seq<SessionPoint>, i: nat, radio: Radio, rejected: nat -> bool)
    requires forall i: nat :: i < |CellEntries(points)| ==> !rejected(i)
    requires IsLastWithCell(points, i, radio)
    ensures LeavesPoint(LastAccepted(CellEntries(points), SessionKey(radio), rejected), points[i].point)
  {
    OnePointMoreCells(points, radio, rejected);
    if i < |points| - 1 {
      EntriesFollowCells(points[..|points| - 1], i, radio, rejected);
    }
  }

  predicate NoneHasCell(points: seq<SessionPoint>, radio: Radio) {
    forall k :: 0 <= k < |points| ==> !HasCell(points[k], radio)
  }

  lemma {:induction false} NoEntryOfCell(points: seq<SessionPoint>, radio: Radio, rejected: nat -> bool)
    requires forall i: nat :: i < |CellEntries(points)| ==> !rejected(i)
    requires NoneHasCell(points, radio)
    ensures LastAccepted(CellEntries(points), SessionKey(radio), rejected).None?
  {
    if points != [] {
      OnePointMoreCells(points, radio, rejected);
      NoEntryOfCell(points[..|points| - 1], radio, rejected);
    }
  }

  /**
    Without failures, the cell table gets each cell of the stored requests under its lower-case key, not
    metro and without a source, with the coordinates of the last point that has the cell; under the keys of
    other cells nothing changes, and under upper-case keys nothing at all.
    */
  lemma SessionCells(t: CellIndex, points: seq<SessionPoint>, rejected: nat -> bool, radio: Radio)
    requires forall i: nat :: i < |CellEntries(points)| ==> !rejected(i)
    ensures var after, key := AppliedCells(t, CellEntries(points), rejected), SessionKey(radio);
            && (forall i: nat :: IsLastWithCell(points, i, radio) ==>
                  key in after && PlaceOf(after[key]) == Place(points[i].point, false, ""))
            && (NoneHasCell(points, radio) ==>
                  (key in after <==> key in t) && (key in t ==> after[key] == t[key]))
            && (RadioKey(radio) in after <==> RadioKey(radio) in t)
            && (RadioKey(radio) in t ==> after[RadioKey(radio)] == t[RadioKey(radio)])
  {
    var entries := CellEntries(points);
    forall i: nat | IsLastWithCell(points, i, radio)
      ensures LeavesPoint(LastAccepted(entries, SessionKey(radio), rejected), points[i].point)
    {
      EntriesFollowCells(points, i, radio, rejected);
    }
    if NoneHasCell(points, radio) {
      NoEntryOfCell(points, radio, rejected);
    }
    LastCellRowWins(t, entries, rejected, SessionKey(radio));
    LastCellRowWins(t, entries, rejected, RadioKey(radio));
    NoUpperEntries(points, radio, rejected);
  }

  lemma {:induction false} NoUpperRows(cells: seq<Cell>, point: Point, radio: Radio)
    ensures forall i :: 0 <= i < |CellRows(cells, point)| ==> KeyOf(CellRows(cells, point)[i].tower) != RadioKey(radio)
  {
    if cells != [] {
      var init, cell := cells[..|cells| - 1], cells[|cells| - 1];
      NoUpperRows(init, point, radio);
      if RadioOf(cell).Some? {
        KeysAreEqualIff(RadioOf(cell).value, radio, Lower, Upper);
      }
    }
  }

  lemma {:induction false} NoUpperEntries(points: seq<SessionPoint>, radio: Radio, rejected: nat -> bool)
    ensures LastAccepted(CellEntries(points), RadioKey(radio), rejected).None?
    ensures forall i :: 0 <= i < |CellEntries(points)| ==> KeyOf(CellEntries(points)[i].tower) != RadioKey(radio)
  {
    if points != [] {
      var p := points[|points| - 1];
      NoUpperEntries(points[..|points| - 1], radio, rejected);
      NoUpperRows(CellsOf(p), p.point, radio);
    }
    NoneAccepted(CellEntries(points), RadioKey(radio), rejected);
  }
}
