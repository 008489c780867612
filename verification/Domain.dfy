/**
  Cells, coordinates and table rows (internal/domain/model, and the tables of the UpdateDB and
  LocateDB migrations).
  */
module Domain {
  import opened Wrappers

  datatype Point = Point(lat: real, lon: real)

  datatype Lte = Lte(mcc: int, mnc: int, tac: int, ci: int, pci: int, earfcn: int, timingAdvance: int, age: int)

  datatype Gsm = Gsm(mcc: int, mnc: int, lac: int, cid: int, bsic: int, arfcn: int, timingAdvance: int, age: int)

  datatype Wcdma = Wcdma(mcc: int, mnc: int, lac: int, cid: int, psc: int, uarfcn: int, age: int)

  /** A cell as a client sends it: any of the three parts may be missing. */
  datatype Cell = Cell(gsm: Option<Gsm>, wcdma: Option<Wcdma>, lte: Option<Lte>)

  /** The one part of a cell that the server looks at. */
  datatype Radio = LteRadio(lte: Lte) | GsmRadio(gsm: Gsm) | WcdmaRadio(wcdma: Wcdma)

  /** The order in which every dispatch in the server tries the three parts. */
  function RadioOf(cell: Cell): Option<Radio> {
    if cell.lte.Some? then Some(LteRadio(cell.lte.value))
    else if cell.gsm.Some? then Some(GsmRadio(cell.gsm.value))
    else if cell.wcdma.Some? then Some(WcdmaRadio(cell.wcdma.value))
    else None
  }

  /** LTE is looked at before GSM and GSM before WCDMA; nothing is left only if all three parts are missing. */
  lemma RadioIsTheFirstPart(cell: Cell)
    ensures RadioOf(cell).None? <==> cell.lte.None? && cell.gsm.None? && cell.wcdma.None?
    ensures forall lte :: RadioOf(cell) == Some(LteRadio(lte)) <==> cell.lte == Some(lte)
    ensures forall gsm :: RadioOf(cell) == Some(GsmRadio(gsm)) <==> cell.gsm == Some(gsm) && cell.lte.None?
    ensures forall wcdma :: RadioOf(cell) == Some(WcdmaRadio(wcdma))
              <==> cell.wcdma == Some(wcdma) && cell.lte.None? && cell.gsm.None?
  {
  }

  // ---------- rows ----------

  /** The columns that describe how a cell was received; lookups use only `psc`. */
  datatype Reception = Reception(
    psc: Option<int>, pci: Option<int>, arfcn: Option<int>, earfcn: Option<int>, uarfcn: Option<int>,
    bsic: Option<int>, gsmTimingAdvance: Option<int>, lteTimingAdvance: Option<int>,
    gsmAge: Option<int>, wcdmaAge: Option<int>, lteAge: Option<int>)

  /** The columns of a cell row that an upsert never rewrites. */
  datatype Tower = Tower(
    tech: string, mcc: int, mnc: int,
    lac: Option<int>, tac: Option<int>, cid: Option<int>, ci: Option<int>,
    reception: Reception)

  /** The expression list of the unique index cells_idx_unique, the same in both databases. */
  datatype CellKey = CellKey(tech: string, mcc: int, mnc: int, area: Option<int>, id: Option<int>)

  /** A row of UpdateDB's cells, and what a refresh reads from it. */
  datatype CellRow = CellRow(tower: Tower, point: Point, objectType: Option<string>, source: Option<string>)

  /** A row of LocateDB's cells. */
  datatype LocateRow = LocateRow(tower: Tower, point: Point, fromMetro: bool, source: Option<string>)

  /** A row of UpdateDB's wifi or ip: a BSSID or an address, and where it was seen. */
  datatype SpotRow = SpotRow(name: string, point: Point)

  /** A row of session_points, without the stored request and response. */
  datatype SavedPoint = SavedPoint(session: string, point: Point, accuracy: int, source: string)

  type CellIndex = map<CellKey, LocateRow>

  type SpotIndex = map<string, Point>

  function Coalesce(a: Option<int>, b: Option<int>): Option<int> {
    if a.Some? then a else b
  }

  function KeyOf(t: Tower): CellKey {
    CellKey(t.tech, t.mcc, t.mnc, Coalesce(t.lac, t.tac), Coalesce(t.cid, t.ci))
  }

  /** The names of the three technologies, as the two writers of cell rows spell them. */
  datatype Spelling = Upper | Lower

  function TechName(radio: Radio, spelling: Spelling): string {
    match radio
    case LteRadio(_) => if spelling.Upper? then "LTE" else "lte"
    case GsmRadio(_) => if spelling.Upper? then "GSM" else "gsm"
    case WcdmaRadio(_) => if spelling.Upper? then "WCDMA" else "wcdma"
  }

  const UPPER_TECHS: set<string> := {"LTE", "GSM", "WCDMA"}

  function TowerOf(radio: Radio, spelling: Spelling): Tower {
    var tech := TechName(radio, spelling);
    match radio
    case LteRadio(c) =>
      Tower(tech, c.mcc, c.mnc, None, Some(c.tac), None, Some(c.ci),
            Reception(None, Some(c.pci), None, Some(c.earfcn), None, None,
                      None, Some(c.timingAdvance), None, None, Some(c.age)))
    case GsmRadio(c) =>
      Tower(tech, c.mcc, c.mnc, Some(c.lac), None, Some(c.cid), None,
            Reception(None, None, Some(c.arfcn), None, None, Some(c.bsic),
                      Some(c.timingAdvance), None, Some(c.age), None, None))
    case WcdmaRadio(c) =>
      Tower(tech, c.mcc, c.mnc, Some(c.lac), None, Some(c.cid), None,
            Reception(Some(c.psc), None, None, None, Some(c.uarfcn), None, None, None, None, Some(c.age), None))
  }

  /** The key under which the server itself writes this radio's rows, and under which ExternalDB lists it. */
  function RadioKey(radio: Radio): CellKey {
    KeyOf(TowerOf(radio, Upper))
  }

  /** Two radios name one cell: the same technology, network, area and cell id, whatever else differs. */
  predicate SameCell(a: Radio, b: Radio) {
    match a
    case LteRadio(c) =>
      && b.LteRadio? && c.mcc == b.lte.mcc && c.mnc == b.lte.mnc
      && c.tac == b.lte.tac && c.ci == b.lte.ci
    case GsmRadio(c) =>
      && b.GsmRadio? && c.mcc == b.gsm.mcc && c.mnc == b.gsm.mnc
      && c.lac == b.gsm.lac && c.cid == b.gsm.cid
    case WcdmaRadio(c) =>
      && b.WcdmaRadio? && c.mcc == b.wcdma.mcc && c.mnc == b.wcdma.mnc
      && c.lac == b.wcdma.lac && c.cid == b.wcdma.cid
  }

  /** The unique key of each technology, and of the same cell as a session refresh writes it. */
  lemma RadioKeyIs(radio: Radio, spelling: Spelling)
    ensures KeyOf(TowerOf(radio, spelling)) ==
            match radio
            case LteRadio(c) =>
              CellKey(if spelling == Upper then "LTE" else "lte", c.mcc, c.mnc, Some(c.tac), Some(c.ci))
            case GsmRadio(c) =>
              CellKey(if spelling == Upper then "GSM" else "gsm", c.mcc, c.mnc, Some(c.lac), Some(c.cid))
            case WcdmaRadio(c) =>
              CellKey(if spelling == Upper then "WCDMA" else "wcdma", c.mcc, c.mnc, Some(c.lac), Some(c.cid))
  {
  }

  lemma TechNamesDiffer(a: Radio, b: Radio, sa: Spelling, sb: Spelling)
    ensures TechName(a, sa) == TechName(b, sb)
       <==> sa == sb && (a.LteRadio? <==> b.LteRadio?) && (a.GsmRadio? <==> b.GsmRadio?)
  {
    var x, y := TechName(a, sa), TechName(b, sb);
    assert x == y ==> x[0] == y[0];
  }

  /** The unique index takes two rows for one exactly if they spell alike and name the same cell. */
  lemma KeysAreEqualIff(a: Radio, b: Radio, sa: Spelling, sb: Spelling)
    ensures KeyOf(TowerOf(a, sa)) == KeyOf(TowerOf(b, sb)) <==> sa == sb && SameCell(a, b)
  {
    TechNamesDiffer(a, b, sa, sb);
  }

  /** The WHERE clauses of FindLTE, FindGSM and FindWCDMA. */
  predicate Matches(t: Tower, radio: Radio) {
    match radio
    case LteRadio(c) =>
      t.tech == "LTE" && t.mcc == c.mcc && t.mnc == c.mnc && t.tac == Some(c.tac) && t.ci == Some(c.ci)
    case GsmRadio(c) =>
      t.tech == "GSM" && t.mcc == c.mcc && t.mnc == c.mnc && t.lac == Some(c.lac) && t.cid == Some(c.cid)
    case WcdmaRadio(c) =>
      t.tech == "WCDMA" && t.mcc == c.mcc && t.mnc == c.mnc && t.reception.psc == Some(c.psc) && t.cid == Some(c.cid)
  }

  /** What a cell search yields: where, whether it is a metro tower, and who reported it. */
  datatype Place = Place(point: Point, fromMetro: bool, source: string)

  function PlaceOf(row: LocateRow): Place {
    Place(row.point, row.fromMetro, if row.source.Some? then row.source.value else "")
  }

  /** A tower whose columns were filled in from one of the three radios. */
  ghost predicate Proper(t: Tower) {
    exists radio, spelling :: t == TowerOf(radio, spelling)
  }

  /**
    A lookup of `b` finds the row of `a` exactly if that is spelled in upper case and they agree on the
    network and, for LTE and GSM, on area and cell id, for WCDMA on scrambling code and cell id.
    */
  lemma LookupFindsIff(a: Radio, spelling: Spelling, b: Radio)
    ensures Matches(TowerOf(a, spelling), b)
       <==> && spelling == Upper
            && if b.WcdmaRadio? then
                 && a.WcdmaRadio? && a.wcdma.mcc == b.wcdma.mcc && a.wcdma.mnc == b.wcdma.mnc
                 && a.wcdma.psc == b.wcdma.psc && a.wcdma.cid == b.wcdma.cid
               else SameCell(a, b)
  {
    TechNamesDiffer(a, b, spelling, Upper);
  }

  /** Among properly filled rows, FindLTE and FindGSM match exactly the row with the radio's unique key. */
  lemma LookupIsByKey(t: Tower, radio: Radio)
    requires Proper(t) && !radio.WcdmaRadio?
    ensures Matches(t, radio) <==> KeyOf(t) == RadioKey(radio)
  {
    var r, spelling :| t == TowerOf(r, spelling);
    assert "LTE" != "GSM" && "LTE"[0] != "WCDMA"[0] && "LTE"[0] != "lte"[0] && "GSM"[0] != "gsm"[0];
    assert "gsm"[0] != "LTE"[0] && "wcdma"[0] != "LTE"[0] && "lte"[0] != "GSM"[0] && "wcdma"[0] != "GSM"[0];
    assert "WCDMA"[0] != "GSM"[0];
  }

  /** FindWCDMA's match says nothing about the location area, which is part of the key. */
  lemma WcdmaLookupIgnoresArea(t: Tower, radio: Radio)
    requires Proper(t) && radio.WcdmaRadio?
    ensures Matches(t, radio)
       <==> && KeyOf(t).(area := None) == RadioKey(radio).(area := None)
            && t.reception.psc == Some(radio.wcdma.psc)
  {
    var r, spelling :| t == TowerOf(r, spelling);
    assert "WCDMA"[0] != "wcdma"[0] && "WCDMA"[0] != "lte"[0] && "WCDMA"[0] != "gsm"[0];
    assert "WCDMA"[0] != "LTE"[0] && "WCDMA"[0] != "GSM"[0];
  }

  /** The WCDMA cell that differs from this one in its location area only. */
  function InArea(radio: Radio, area: int): Radio
    requires radio.WcdmaRadio?
  {
    WcdmaRadio(radio.wcdma.(lac := area))
  }

  /** So what FindWCDMA matches has the key of that cell in some area. */
  lemma WcdmaLookupFindsSomeArea(t: Tower, radio: Radio) returns (area: int)
    requires Proper(t) && radio.WcdmaRadio? && Matches(t, radio)
    ensures KeyOf(t) == RadioKey(InArea(radio, area))
  {
    WcdmaLookupIgnoresArea(t, radio);
    var r, spelling :| t == TowerOf(r, spelling);
    assert r.WcdmaRadio?;
    area := r.wcdma.lac;
  }
}
