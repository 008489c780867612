/** What the search of a /locate request promises, and how a metro report reaches it. */
module LocateAnswers {
  import opened Wrappers
  import opened Domain
  import opened Repositories
  import opened Locate
  import opened Paging
  import Pipeline = CellPipeline
  import Answers = CellAnswers
  import Refreshes = CellRefreshes

  // ---------- whose answer it is ----------

  lemma FusedIsAtMostWifi(cell: Place, wifi: Point, w: World)
    requires w.Valid()
    ensures 1 <= FusedAccuracy(cell, wifi, w) <= 100
  {
    var d := w.distance(cell.point, wifi);
    Geo.AccuracyBounds(d, CELL_ACCURACY, WIFI_ACCURACY, MIN_ACCURACY, w.sqrt);
  }

  /**
    Every located answer has coordinates of exactly one source and an accuracy in [1, 1000]; it has
    Wi-Fi's coordinates exactly if Wi-Fi was found and no cell was, or a non-metro cell within five
    kilometres confirms it, and then its accuracy is never worse than the 100 of Wi-Fi alone.
    */
  lemma LocatedAnswers(cell: Answer<Place>, wifi: Answer<Point>, ip: Answer<Point>, w: World)
    requires w.Valid()
    requires Choose(cell, wifi, ip, w).Ok? && Choose(cell, wifi, ip, w).value.Some?
    ensures var fix := Choose(cell, wifi, ip, w).value.value;
            var useWifi :=
              && wifi.Found?
              && (cell.Missing? || (!cell.value.fromMetro && w.distance(cell.value.point, wifi.value) < 5000.0));
            var useCell := cell.Found? && !useWifi;
            && (useWifi ==> fix.point == wifi.value && 1 <= fix.accuracy <= 100 && !fix.fromMetro)
            && (useCell ==> fix == Fix(cell.value.point, 1000, cell.value.source, cell.value.fromMetro))
            && (!useWifi && !useCell ==>
                  ip.Found? && cell.Missing? && wifi.Missing? && fix == Fix(ip.value, 100, "", false))
  {
    if cell.Found? && wifi.Found? {
      FusedIsAtMostWifi(cell.value, wifi.value, w);
    }
  }

  /**
    The reported accuracy of a confirmed answer, from the distance alone: when the circles of 1000 and 100
    metres cross, it is at most `n` exactly if the chord is shorter than that of half-length n + 1.
    */
  lemma FusedAccuracyAtMostIff(cell: Place, wifi: Point, w: World, n: nat)
    requires w.Valid() && 1 <= n && 900.0 < w.distance(cell.point, wifi) <= 1100.0
    ensures var d := w.distance(cell.point, wifi);
            FusedAccuracy(cell, wifi, w) <= n
            <==> (1210000.0 - d * d) * (d * d - 810000.0) < 4.0 * (d * d) * ((n as real + 1.0) * (n as real + 1.0))
  {
    var d, bound := w.distance(cell.point, wifi), n as real + 1.0;
    assert Geo.Crossing(d, CELL_ACCURACY, WIFI_ACCURACY);
    Geo.AccuracyBelowIff(d, CELL_ACCURACY, WIFI_ACCURACY, MIN_ACCURACY, bound, w.sqrt);
    FloorIsAtMostIff(Geo.ChordAccuracy(d, CELL_ACCURACY, WIFI_ACCURACY, MIN_ACCURACY, w.sqrt), n);
    assert (CELL_ACCURACY + WIFI_ACCURACY) * (CELL_ACCURACY + WIFI_ACCURACY) == 1210000.0;
    assert (CELL_ACCURACY - WIFI_ACCURACY) * (CELL_ACCURACY - WIFI_ACCURACY) == 810000.0;
  }

  lemma FloorIsAtMostIff(x: real, n: int)
    ensures x.Floor <= n <==> x < n as real + 1.0
  {
  }

  /**
    The fused accuracy is not monotone in the distance: at exactly 900 metres it is the full 100, and
    just beyond it is 1.
    */
  lemma FusedAccuracyJumps(cell: Place, wifi: Point, w: World)
    requires w.Valid()
    ensures var d := w.distance(cell.point, wifi);
            && (d <= 900.0 || d > 1100.0 ==> FusedAccuracy(cell, wifi, w) == 100)
            && (900.0 < d <= 900.004 ==> FusedAccuracy(cell, wifi, w) == 1)
  {
    var d := w.distance(cell.point, wifi);
    if 900.0 < d <= 900.004 {
      assert Geo.Crossing(d, CELL_ACCURACY, WIFI_ACCURACY);
      assert (1210000.0 - d * d) * (d * d - 810000.0) <= 4.0 * (d * d) by {
        NearInnerTangency(d);
      }
      Geo.AccuracyAtMostIff(d, CELL_ACCURACY, WIFI_ACCURACY, MIN_ACCURACY, 1.0, w.sqrt);
      Geo.AccuracyBounds(d, CELL_ACCURACY, WIFI_ACCURACY, MIN_ACCURACY, w.sqrt);
    }
  }

  lemma NearInnerTangency(d: real)
    requires 900.0 < d <= 900.004
    ensures (1210000.0 - d * d) * (d * d - 810000.0) <= 4.0 * (d * d)
  {
    var D := d * d;
    assert 810000.0 < D <= 900.004 * 900.004 by {
      Geo.SquareGrows(900.0, d);
      if d < 900.004 { Geo.SquareGrows(d, 900.004); }
    }
    var a, b := 1210000.0 - D, D - 810000.0;
    assert 0.0 < a < 400000.0 && 0.0 < b < 7.3;
    assert a * b <= 400000.0 * b;
    assert 400000.0 * 7.3 < 4.0 * 810000.0;
  }

  // ---------- what becomes of a request, by its lists ----------

  /** Nothing in the list is known. */
  predicate AllMiss<T>(outcomes: seq<Answer<T>>) {
    forall k :: 0 <= k < |outcomes| ==> outcomes[k].Missing?
  }

  /** The k-th item is the first that is not a miss. */
  predicate EndsAt<T>(outcomes: seq<Answer<T>>, k: nat) {
    k < |outcomes| && !outcomes[k].Missing? && forall m :: 0 <= m < k ==> outcomes[m].Missing?
  }

  predicate HitsAt<T>(outcomes: seq<Answer<T>>, k: nat) {
    EndsAt(outcomes, k) && outcomes[k].Found?
  }

  /** The list's search fails: the first item that is not a miss is an error. */
  ghost predicate Breaks<T>(outcomes: seq<Answer<T>>) {
    exists k: nat :: EndsAt(outcomes, k) && outcomes[k].Broken?
  }

  lemma ListsResolve<T>(outcomes: seq<Answer<T>>)
    ensures Resolve(outcomes, 0).Missing? <==> AllMiss(outcomes)
    ensures Resolve(outcomes, 0).Broken? <==> Breaks(outcomes)
    ensures forall k: nat :: EndsAt(outcomes, k) ==> Resolve(outcomes, 0) == outcomes[k]
    ensures Resolve(outcomes, 0).Found? <==> exists k: nat :: HitsAt(outcomes, k)
  {
    ResolveIsFirst(outcomes, 0);
    forall k: nat | EndsAt(outcomes, k) ensures Resolve(outcomes, 0) == outcomes[k] {
      ResolvesAt(outcomes, 0, k);
    }
    if !Resolve(outcomes, 0).Missing? {
      var k :| 0 <= k < |outcomes| && outcomes[k] == Resolve(outcomes, 0)
               && forall m :: 0 <= m < k ==> outcomes[m].Missing?;
      assert EndsAt(outcomes, k) && (outcomes[k].Found? ==> HitsAt(outcomes, k));
    }
  }

  /**
    One cell: an error if it has no radio part or the database that decides fails, a miss if both miss it,
    and else LocateDB's place or, as a place of its own that is never metro, ExternalDB's point.
    */
  lemma CellOutcomeIs(cells: seq<Cell>, w: World, i: nat)
    requires i < |cells|
    ensures var bare := cells[i].lte.None? && cells[i].gsm.None? && cells[i].wcdma.None?;
            var outcome := CellOutcomes(cells, w)[i];
            && (outcome.Broken? <==>
                  bare || w.locate(i).Broken? || (w.locate(i).Missing? && w.external(i).Broken?))
            && (outcome.Missing? <==> !bare && w.locate(i).Missing? && w.external(i).Missing?)
            && (forall place :: outcome == Found(place) <==>
                  !bare && (w.locate(i) == Found(place)
                            || (w.locate(i).Missing? && w.external(i) == Found(place.point)
                                && place.source == "external" && !place.fromMetro)))
  {
  }

  /**
    Exactly when a request finds nothing and exactly when it fails: a list's failure is reported if no
    earlier list settled the request, and a non-metro cell does not settle it before Wi-Fi was asked.
    */
  lemma RequestFailsIff(cells: seq<Cell>, w: World)
    ensures var r, outcomes := Chosen(cells, w), CellOutcomes(cells, w);
            && (r == Ok(None) <==> AllMiss(outcomes) && AllMiss(w.wifi) && AllMiss(w.ip))
            && (r == Err(CellStage) <==> Breaks(outcomes))
            && (r == Err(WifiStage) <==>
                  && Breaks(w.wifi)
                  && (AllMiss(outcomes) || exists k: nat :: HitsAt(outcomes, k) && !outcomes[k].value.fromMetro))
            && (r == Err(IpStage) <==> Breaks(w.ip) && AllMiss(outcomes) && AllMiss(w.wifi))
  {
    ListsResolve(CellOutcomes(cells, w));
    ListsResolve(w.wifi);
    ListsResolve(w.ip);
  }

  /** What a request is answered whose cell search finds a place. */
  lemma CellRequestIsAnswered(cells: seq<Cell>, w: World, k: nat)
    requires w.Valid() && HitsAt(CellOutcomes(cells, w), k)
    ensures var place := CellOutcomes(cells, w)[k].value;
            var ofCell := Ok(Some(Fix(place.point, 1000, place.source, place.fromMetro)));
            && (place.fromMetro ==> Chosen(cells, w) == ofCell)
            && (AllMiss(w.wifi) ==> Chosen(cells, w) == ofCell)
            && (forall n: nat :: HitsAt(w.wifi, n) && !place.fromMetro ==>
                  if w.distance(place.point, w.wifi[n].value) < 5000.0 then
                    var accuracy := FusedAccuracy(place, w.wifi[n].value, w);
                    1 <= accuracy <= 100 && Chosen(cells, w) == Ok(Some(Fix(w.wifi[n].value, accuracy, "", false)))
                  else Chosen(cells, w) == ofCell)
  {
    ListsResolve(CellOutcomes(cells, w));
    ListsResolve(w.wifi);
    var place := CellOutcomes(cells, w)[k].value;
    forall n: nat | HitsAt(w.wifi, n) ensures 1 <= FusedAccuracy(place, w.wifi[n].value, w) <= 100 {
      FusedIsAtMostWifi(place, w.wifi[n].value, w);
    }
  }

  /** What a request is answered whose cells are all unknown: by its access points, else by its addresses. */
  lemma CellLessRequestIsAnswered(cells: seq<Cell>, w: World, k: nat)
    requires AllMiss(CellOutcomes(cells, w))
    ensures HitsAt(w.wifi, k) ==> Chosen(cells, w) == Ok(Some(Fix(w.wifi[k].value, 100, "", false)))
    ensures AllMiss(w.wifi) && HitsAt(w.ip, k) ==> Chosen(cells, w) == Ok(Some(Fix(w.ip[k].value, 100, "", false)))
  {
    ListsResolve(CellOutcomes(cells, w));
    ListsResolve(w.wifi);
    ListsResolve(w.ip);
  }

  // ---------- which queries are made ----------

  lemma {:induction false} CellQueriesAreOrdered(cells: seq<Cell>, w: World, i: nat)
    requires i <= |cells|
    ensures var qs := CellQueries(cells, w, i);
            && (forall q :: q in qs ==> (q.LocateCell? || q.ExternalCell?) && i <= q.i)
            && Distinct(qs)
    decreases |cells| - i
  {
    if i < |cells| && RadioOf(cells[i]).Some? {
      CellQueriesAreOrdered(cells, w, i + 1);
    }
  }

  lemma {:induction false} SpotQueriesAreConsecutive(outcomes: seq<Answer<Point>>, kind: Kind, i: nat)
    requires i <= |outcomes|
    ensures var qs := SpotQueries(outcomes, kind, i);
            |qs| <= |outcomes| - i && forall k :: 0 <= k < |qs| ==> qs[k] == SpotQuery(kind, i + k)
    decreases |outcomes| - i
  {
    if i < |outcomes| {
      SpotQueriesAreConsecutive(outcomes, kind, i + 1);
    }
  }

  predicate Distinct(qs: seq<Query>) {
    forall a, b :: 0 <= a < b < |qs| ==> qs[a] != qs[b]
  }

  lemma DisjointParts(s: seq<Query>, t: seq<Query>)
    requires Distinct(s) && Distinct(t)
    requires forall a, b :: 0 <= a < |s| && 0 <= b < |t| ==> s[a] != t[b]
    ensures Distinct(s + t)
  {
    forall a, b | 0 <= a < b < |s + t| ensures (s + t)[a] != (s + t)[b] {
      if a < |s| && b >= |s| {
        assert s[a] != t[b - |s|];
      }
    }
  }

  function WifiQueries(cells: seq<Cell>, w: World): seq<Query> {
    if NeedsWifi(CellAnswer(cells, w)) then SpotQueries(w.wifi, Wifi, 0) else []
  }

  function IpQueries(cells: seq<Cell>, w: World): seq<Query> {
    if NeedsIp(CellAnswer(cells, w), SpotAnswer(w, Wifi)) then SpotQueries(w.ip, Ip, 0) else []
  }

  lemma SpotPartsAreOrdered(cells: seq<Cell>, w: World)
    ensures forall k :: 0 <= k < |WifiQueries(cells, w)| ==> WifiQueries(cells, w)[k] == SpotQuery(Wifi, k)
    ensures forall k :: 0 <= k < |IpQueries(cells, w)| ==> IpQueries(cells, w)[k] == SpotQuery(Ip, k)
  {
    SpotQueriesAreConsecutive(w.wifi, Wifi, 0);
    SpotQueriesAreConsecutive(w.ip, Ip, 0);
  }

  lemma QueriesAreDistinct(c: seq<Query>, s: seq<Query>, p: seq<Query>)
    requires Distinct(c) && forall q :: q in c ==> !q.SpotQuery?
    requires forall k :: 0 <= k < |s| ==> s[k] == SpotQuery(Wifi, k)
    requires forall k :: 0 <= k < |p| ==> p[k] == SpotQuery(Ip, k)
    ensures Distinct(c + (s + p))
  {
    DisjointParts(s, p);
    forall a, b | 0 <= a < |c| && 0 <= b < |s + p| ensures c[a] != (s + p)[b] {
      assert c[a] in c && (s + p)[b].SpotQuery?;
    }
    DisjointParts(c, s + p);
  }

  /**
    No query is made twice; Wi-Fi is not asked after a metro cell or a failed cell search; IP is asked
    only when both other searches have missed.
    */
  lemma QueriesAreMinimal(cells: seq<Cell>, w: World)
    ensures var qs := RequestQueries(cells, w);
            && Distinct(qs)
            && (forall q :: q in qs && q.SpotQuery? && q.kind.Wifi? ==> NeedsWifi(CellAnswer(cells, w)))
            && (forall q :: q in qs && q.SpotQuery? && q.kind.Ip? ==>
                  CellAnswer(cells, w).Missing? && SpotAnswer(w, Wifi).Missing?)
  {
    var c, s, p := CellQueries(cells, w, 0), WifiQueries(cells, w), IpQueries(cells, w);
    CellQueriesAreOrdered(cells, w, 0);
    SpotPartsAreOrdered(cells, w);
    QueriesAreDistinct(c, s, p);
    assert RequestQueries(cells, w) == c + (s + p);
    assert forall q :: q in RequestQueries(cells, w) ==> q in c || q in s || q in p;
  }

  predicate MissBefore<T>(outcomes: seq<Answer<T>>, i: nat, k: nat) {
    i <= k < |outcomes| && forall m :: i <= m < k ==> outcomes[m].Missing?
  }

  lemma OneCellQueriesIff(cells: seq<Cell>, w: World, i: nat, k: nat)
    requires i < |cells|
    ensures LocateCell(k) in OneCellQueries(cells, w, i) <==> k == i && RadioOf(cells[i]).Some?
    ensures ExternalCell(k) in OneCellQueries(cells, w, i)
       <==> k == i && RadioOf(cells[i]).Some? && w.locate(i).Missing?
  {
  }

  lemma MissBeforeStep<T>(outcomes: seq<Answer<T>>, i: nat, k: nat)
    requires i < |outcomes|
    ensures MissBefore(outcomes, i, k) <==> k == i || (outcomes[i].Missing? && MissBefore(outcomes, i + 1, k))
  {
  }

  lemma {:induction false} CellQueriesIff(cells: seq<Cell>, w: World, i: nat, k: nat)
    requires i <= |cells|
    ensures LocateCell(k) in CellQueries(cells, w, i)
       <==> MissBefore(CellOutcomes(cells, w), i, k) && RadioOf(cells[k]).Some?
    ensures ExternalCell(k) in CellQueries(cells, w, i)
       <==> MissBefore(CellOutcomes(cells, w), i, k) && RadioOf(cells[k]).Some? && w.locate(k).Missing?
    decreases |cells| - i
  {
    if i < |cells| {
      var one := OneCellQueries(cells, w, i);
      var rest := if CellOutcome(cells, w, i).Missing? then CellQueries(cells, w, i + 1) else [];
      assert CellQueries(cells, w, i) == one + rest;
      OneCellQueriesIff(cells, w, i, k);
      MissBeforeStep(CellOutcomes(cells, w), i, k);
      CellQueriesIff(cells, w, i + 1, k);
    }
  }

  lemma {:induction false} SpotQueriesIff(outcomes: seq<Answer<Point>>, kind: Kind, i: nat, k: nat)
    requires i <= |outcomes|
    ensures SpotQuery(kind, k) in SpotQueries(outcomes, kind, i) <==> MissBefore(outcomes, i, k)
    decreases |outcomes| - i
  {
    if i < |outcomes| {
      SpotQueriesIff(outcomes, kind, i + 1, k);
    }
  }

  /**
    Exactly which queries a request makes: LocateDB for a cell if all before it miss, ExternalDB if LocateDB
    misses it too; LocateDB for an access point if all before it miss and the cells are unknown or found as
    a non-metro place; for an address if all before it and both other lists miss.
    */
  lemma QueriesIff(cells: seq<Cell>, w: World, k: nat)
    ensures var qs, outcomes := RequestQueries(cells, w), CellOutcomes(cells, w);
            var asked := && MissBefore(outcomes, 0, k)
                         && !(cells[k].lte.None? && cells[k].gsm.None? && cells[k].wcdma.None?);
            && (LocateCell(k) in qs <==> asked)
            && (ExternalCell(k) in qs <==> asked && w.locate(k).Missing?)
            && (SpotQuery(Wifi, k) in qs <==>
                  && MissBefore(w.wifi, 0, k)
                  && (AllMiss(outcomes) || exists n: nat :: HitsAt(outcomes, n) && !outcomes[n].value.fromMetro))
            && (SpotQuery(Ip, k) in qs <==> MissBefore(w.ip, 0, k) && AllMiss(outcomes) && AllMiss(w.wifi))
  {
    QueryParts(cells, w, k);
    CellQueriesIff(cells, w, 0, k);
    SpotQueriesIff(w.wifi, Wifi, 0, k);
    SpotQueriesIff(w.ip, Ip, 0, k);
    SearchesNeeded(cells, w);
  }

  /** Each query of a request is one of the search of its own list. */
  lemma QueryParts(cells: seq<Cell>, w: World, k: nat)
    ensures var qs := RequestQueries(cells, w);
            && (LocateCell(k) in qs <==> LocateCell(k) in CellQueries(cells, w, 0))
            && (ExternalCell(k) in qs <==> ExternalCell(k) in CellQueries(cells, w, 0))
            && (SpotQuery(Wifi, k) in qs <==> SpotQuery(Wifi, k) in WifiQueries(cells, w))
            && (SpotQuery(Ip, k) in qs <==> SpotQuery(Ip, k) in IpQueries(cells, w))
  {
    var c, s, p := CellQueries(cells, w, 0), WifiQueries(cells, w), IpQueries(cells, w);
    assert RequestQueries(cells, w) == c + (s + p);
    assert forall q :: q in RequestQueries(cells, w) <==> q in c || q in s || q in p;
    CellQueriesAreOrdered(cells, w, 0);
    SpotPartsAreOrdered(cells, w);
  }

  lemma SearchesNeeded(cells: seq<Cell>, w: World)
    ensures var outcomes := CellOutcomes(cells, w);
            && (NeedsWifi(CellAnswer(cells, w)) <==>
                  AllMiss(outcomes) || exists n: nat :: HitsAt(outcomes, n) && !outcomes[n].value.fromMetro)
            && (NeedsIp(CellAnswer(cells, w), SpotAnswer(w, Wifi)) <==> AllMiss(outcomes) && AllMiss(w.wifi))
  {
    ListsResolve(CellOutcomes(cells, w));
    ListsResolve(w.wifi);
  }

  // ---------- write-backs ----------

  /**
    The row that a write-back inserts is the one the pipeline's write-back of that tower has, whichever
    cell of the request it was: the point found, source "external" and no type.
    */
  lemma TaskRowIsWriteBackRow(t: Task, external: map<CellKey, Point>, radio: Radio)
    requires RadioOf(t.cell) == Some(radio) && RadioKey(radio) in external && t.loc.point == external[RadioKey(radio)]
    ensures TaskRow(t) == Pipeline.WriteBackRow(external, radio)
         == CellRow(TowerOf(radio, Upper), external[RadioKey(radio)], Some(""), Some("external"))
  {
  }

  /**
    A request spawns a write-back exactly if its search stops at a cell that LocateDB missed and
    ExternalDB knows, and then for that cell.
    */
  lemma {:induction false} WriteBackIff(cells: seq<Cell>, w: World, i: nat, k: nat)
    requires i <= k < |cells|
    ensures WriteBackOf(cells, w, i) == Some(k)
       <==> && RadioOf(cells[k]).Some? && w.locate(k).Missing? && w.external(k).Found?
            && forall m: nat :: i <= m < k ==> CellOutcome(cells, w, m).Missing?
    decreases k - i
  {
    if i < k {
      WriteBackIff(cells, w, i + 1, k);
      WriteBackIsLater(cells, w, i + 1);
    }
  }

  lemma {:induction false} WriteBackIsLater(cells: seq<Cell>, w: World, i: nat)
    requires i <= |cells|
    ensures WriteBackOf(cells, w, i).Some? ==> i <= WriteBackOf(cells, w, i).value
    decreases |cells| - i
  {
    if i < |cells| {
      WriteBackIsLater(cells, w, i + 1);
    }
  }

  // ---------- a metro report, from /update to /locate ----------

  /** The request's LocateDB query for cell `k` was made in state `s`. */
  ghost predicate AskedIn(w: World, k: nat, asked: Radio, s: Pipeline.State) {
    match w.locate(k)
    case Broken => true
    case Missing => !Pipeline.Known(s, asked)
    case Found(place) => Pipeline.Known(s, asked) && Pipeline.MayAnswer(s, asked, Some(place))
  }

  /** The request stops at its k-th cell, which LocateDB was asked about in state `s` without failing. */
  ghost predicate StopsAt(cells: seq<Cell>, k: nat, asked: Radio, w: World, s: Pipeline.State) {
    && k < |cells| && RadioOf(cells[k]) == Some(asked) && AskedIn(w, k, asked, s) && !w.locate(k).Broken?
    && forall m: nat :: m < k ==> CellOutcome(cells, w, m).Missing?
  }

  /**
    The first report of an LTE or GSM tower is of type metro.  From any later state in which LocateDB has
    the tower's key, a request that stops at that tower, however its client receives it, is answered with
    the reported coordinates and accuracy 1000, whatever its other lists resolve to.
    */
  lemma MetroReportWins(s: Pipeline.State, radio: Radio, asked: Radio, point: Point, es: seq<Pipeline.Event>,
                        cells: seq<Cell>, k: nat, w: World)
    requires Answers.Reachable(s) && Answers.SameTower(radio, asked) && FirstWith(s.rows, RadioKey(radio)).None?
    requires var end := Pipeline.Exec(Pipeline.Next(s, Pipeline.ClientInsert(radio, point, "metro")), es);
             RadioKey(radio) in end.index && StopsAt(cells, k, asked, w, end)
    ensures Chosen(cells, w) == Ok(Some(Fix(point, 1000, "client", true)))
  {
    var end := Pipeline.Exec(Pipeline.Next(s, Pipeline.ClientInsert(radio, point, "metro")), es);
    var place := Place(point, true, "client");
    Refreshes.FirstReportIsServed(s, radio, asked, point, "metro", es, Some(place));
    if w.locate(k).Found? {
      Refreshes.FirstReportIsServed(s, radio, asked, point, "metro", es, Some(w.locate(k).value));
    }
    assert w.locate(k) == Found(place);
    ResolvesAt(CellOutcomes(cells, w), 0, k);
  }

  /** LocateDB has the key from the first successful upsert of the report on, by whatever refresh. */
  lemma MetroReportWinsOnceUpserted(s: Pipeline.State, radio: Radio, asked: Radio, point: Point,
                                    before: seq<Pipeline.Event>, job: nat, after: seq<Pipeline.Event>,
                                    cells: seq<Cell>, k: nat, w: World)
    requires Answers.Reachable(s) && Answers.SameTower(radio, asked) && FirstWith(s.rows, RadioKey(radio)).None?
    requires var mid := Pipeline.Exec(Pipeline.Next(s, Pipeline.ClientInsert(radio, point, "metro")), before);
             && job in mid.jobs && Current(mid.jobs[job]).Some? && |mid.jobs[job].tried| == |s.rows|
             && StopsAt(cells, k, asked, w, Pipeline.Exec(Pipeline.Next(mid, Pipeline.Upsert(job, true)), after))
    ensures Chosen(cells, w) == Ok(Some(Fix(point, 1000, "client", true)))
  {
    var mid := Pipeline.Exec(Pipeline.Next(s, Pipeline.ClientInsert(radio, point, "metro")), before);
    Refreshes.FirstReportIsServedOnceUpserted(s, radio, asked, point, "metro", before, job, after, None);
    var rest := [Pipeline.Upsert(job, true)] + after;
    assert rest[1..] == after;
    Answers.ExecConcat(Pipeline.Next(s, Pipeline.ClientInsert(radio, point, "metro")), before, rest);
    MetroReportWins(s, radio, asked, point, before + rest, cells, k, w);
  }

  /** And at the latest when a refresh without a failed upsert that began after the report is done. */
  lemma MetroReportWinsOnceRefreshed(s: Pipeline.State, radio: Radio, asked: Radio, point: Point,
                                     es: seq<Pipeline.Event>, job: nat, cells: seq<Cell>, k: nat, w: World)
    requires Answers.Reachable(s) && Answers.SameTower(radio, asked) && FirstWith(s.rows, RadioKey(radio)).None?
    requires var end := Pipeline.Exec(Pipeline.Next(s, Pipeline.ClientInsert(radio, point, "metro")), es);
             && job in end.jobs && end.jobs[job].done && end.jobs[job].clean && end.jobs[job].start > |s.rows|
             && StopsAt(cells, k, asked, w, end)
    ensures Chosen(cells, w) == Ok(Some(Fix(point, 1000, "client", true)))
  {
    Refreshes.FirstReportIsServedOnceRefreshed(s, radio, asked, point, "metro", es, job, None);
    MetroReportWins(s, radio, asked, point, es, cells, k, w);
  }

  lemma {:induction false} ResolvesAt<T>(outcomes: seq<Answer<T>>, i: nat, k: nat)
    requires i <= k < |outcomes| && !outcomes[k].Missing?
    requires forall m :: i <= m < k ==> outcomes[m].Missing?
    ensures Resolve(outcomes, i) == outcomes[k]
    decreases k - i
  {
    if i < k {
      ResolvesAt(outcomes, i + 1, k);
    }
  }
}
