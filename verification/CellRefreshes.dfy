/**
  What refreshes do to the cells of LocateDB: which rows they bring over, that their order does not
  matter, and how a client's report comes to be served.
  */
module CellRefreshes {
  import opened Wrappers
  import opened Domain
  import opened Repositories
  import opened Paging
  import opened CellPipeline
  import opened CellAnswers

  // ---------- what a refresh covers ----------

  /**
    A refresh none of whose upserts has failed so far: it has tried exactly a prefix of UpdateDB, each row
    once and in order, and counted them all, and LocateDB holds each of these rows, whatever other
    refreshes did meanwhile; once it is done, the prefix holds every row present when it began.
    */
  lemma CleanRefreshCovers(s: State, id: nat)
    requires Reachable(s) && id in s.jobs && s.jobs[id].clean
    ensures var j := s.jobs[id];
            && |j.tried| <= |s.rows| && j.tried == s.rows[..|j.tried|] && j.total == |j.tried|
            && (j.done ==> j.start <= |j.tried|)
            && forall i :: 0 <= i < |j.tried| ==>
                 KeyOf(s.rows[i].tower) in s.index && s.index[KeyOf(s.rows[i].tower)] == Indexed(s.rows[i])
  {
    ReachableIsCoherent(s);
    var j := s.jobs[id];
    assert JobTracks(j, s.rows, s.index);
    forall i | 0 <= i < |j.tried|
      ensures KeyOf(s.rows[i].tower) in s.index && s.index[KeyOf(s.rows[i].tower)] == Indexed(s.rows[i])
    {
      assert j.tried[i] == s.rows[i];
      ServerKeysAreUpper(s.rows[i]);
    }
  }

  // ---------- confluence ----------

  /** What LocateDB holds under a key depends on nothing but UpdateDB's first row of it. */
  lemma IndexIsDetermined(s1: State, s2: State, key: CellKey)
    requires Reachable(s1) && Reachable(s2) && key.tech in UPPER_TECHS
    requires FirstWith(s1.rows, key) == FirstWith(s2.rows, key)
    requires key in s1.index && key in s2.index
    ensures s1.index[key] == s2.index[key]
  {
    ReachableIsCoherent(s1);
    ReachableIsCoherent(s2);
  }

  lemma CoveredKeyIsIndexed(s: State, id: nat, key: CellKey)
    requires Reachable(s) && id in s.jobs && s.jobs[id].clean && FirstWith(s.jobs[id].tried, key).Some?
    ensures key in s.index && s.index[key] == Indexed(FirstWith(s.jobs[id].tried, key).value)
  {
    CleanRefreshCovers(s, id);
    var tried := s.jobs[id].tried;
    var i :| 0 <= i < |tried| && tried[i] == FirstWith(tried, key).value;
    assert KeyOf(s.rows[i].tower) == key;
  }

  /**
    Confluence: two runs, each with a refresh without a failed upsert, hold the same row under every key
    that both refreshes cover with the same row, however these and other refreshes overlapped.
    */
  lemma RefreshesAreConfluent(s1: State, s2: State, id1: nat, id2: nat, key: CellKey)
    requires Reachable(s1) && Reachable(s2)
    requires id1 in s1.jobs && s1.jobs[id1].clean && id2 in s2.jobs && s2.jobs[id2].clean
    requires FirstWith(s1.jobs[id1].tried, key).Some?
    requires FirstWith(s2.jobs[id2].tried, key) == FirstWith(s1.jobs[id1].tried, key)
    ensures key in s1.index && key in s2.index && s1.index[key] == s2.index[key]
  {
    CoveredKeyIsIndexed(s1, id1, key);
    CoveredKeyIsIndexed(s2, id2, key);
  }

  /** Refreshes of the whole of the same UpdateDB leave the same LocateDB under the keys the server writes. */
  lemma FullRefreshesAreConfluent(s1: State, s2: State, id1: nat, id2: nat, key: CellKey)
    requires Reachable(s1) && Reachable(s2) && s1.rows == s2.rows && key.tech in UPPER_TECHS
    requires id1 in s1.jobs && s1.jobs[id1].clean && s1.jobs[id1].tried == s1.rows
    requires id2 in s2.jobs && s2.jobs[id2].clean && s2.jobs[id2].tried == s2.rows
    ensures key in s1.index <==> key in s2.index
    ensures key in s1.index ==> s1.index[key] == s2.index[key]
  {
    ReachableIsCoherent(s1);
    ReachableIsCoherent(s2);
    if FirstWith(s1.rows, key).Some? {
      RefreshesAreConfluent(s1, s2, id1, id2, key);
    }
  }

  // ---------- rows that are served ----------

  /** Once LocateDB has a row of UpdateDB under its LTE or GSM key, it is what lookups return from then on. */
  lemma IndexedRowsAreServed(s: State, i: nat, radio: Radio, es: seq<Event>, a: Option<Place>, id: nat)
    requires Reachable(s) && i < |s.rows| && KeyOf(s.rows[i].tower) == RadioKey(radio) && !radio.WcdmaRadio?
    requires RadioKey(radio) in s.index
    ensures Known(Exec(s, es), radio)
    ensures MayAnswer(Exec(s, es), radio, a) <==> a == Some(PlaceOf(Indexed(s.rows[i])))
    ensures Next(Exec(s, es), Ask(id, radio)) == Exec(s, es)
  {
    ReachableIsCoherent(s);
    UpperKey(radio);
    AnswerIsUnique(s, radio);
    KnownAnswersNeverChange(s, es, radio, radio, a);
  }

  /** One successful upsert of a row by any refresh is enough, whatever else that refresh does or fails to do. */
  lemma UpsertedRowsAreServed(s: State, job: nat, radio: Radio, es: seq<Event>, a: Option<Place>, id: nat)
    requires Reachable(s) && job in s.jobs && Current(s.jobs[job]).Some? && !radio.WcdmaRadio?
    requires KeyOf(Current(s.jobs[job]).value.tower) == RadioKey(radio)
    ensures var end := Exec(Next(s, Upsert(job, true)), es);
            && RadioKey(radio) in end.index && Known(end, radio)
            && (MayAnswer(end, radio, a) <==> a == Some(PlaceOf(Indexed(Current(s.jobs[job]).value))))
            && Next(end, Ask(id, radio)) == end
  {
    ReachableIsCoherent(s);
    var s', j := Next(s, Upsert(job, true)), s.jobs[job];
    assert JobTracks(j, s.rows, s.index);
    TracksUpsert(j, s.rows, true);
    ReachableStep(s, Upsert(job, true));
    IndexedRowsAreServed(s', |j.tried|, radio, es, a, id);
    ReachableIsCoherent(s');
    UpperKey(radio);
    IndexedRowsAreFinal(s', es, RadioKey(radio));
  }

  lemma ReachableStep(s: State, e: Event)
    requires Reachable(s)
    ensures Reachable(Next(s, e))
  {
    ReachableLater(s, [e]);
    assert Exec(Next(s, e), [e][1..]) == Next(s, e);
  }

  /** So are all rows that a refresh without a failed upsert has tried. */
  lemma CoveredRowsAreServed(s: State, job: nat, i: nat, radio: Radio, es: seq<Event>, a: Option<Place>, id: nat)
    requires Reachable(s) && job in s.jobs && s.jobs[job].clean && i < |s.jobs[job].tried|
    requires i < |s.rows| && KeyOf(s.rows[i].tower) == RadioKey(radio) && !radio.WcdmaRadio?
    ensures Known(Exec(s, es), radio)
    ensures MayAnswer(Exec(s, es), radio, a) <==> a == Some(PlaceOf(Indexed(s.rows[i])))
    ensures Next(Exec(s, es), Ask(id, radio)) == Exec(s, es)
  {
    CleanRefreshCovers(s, job);
    IndexedRowsAreServed(s, i, radio, es, a, id);
  }

  // ---------- the life of a first report ----------

  lemma StepOnlyGrows(s: State, e: Event)
    ensures |s.rows| <= |Next(s, e).rows| && Next(s, e).rows[..|s.rows|] == s.rows
  {
  }

  lemma {:induction false} RowsOnlyGrow(s: State, es: seq<Event>)
    ensures |s.rows| <= |Exec(s, es).rows| && Exec(s, es).rows[..|s.rows|] == s.rows
    decreases es
  {
    if es != [] {
      var s' := Next(s, es[0]);
      StepOnlyGrows(s, es[0]);
      RowsOnlyGrow(s', es[1..]);
      var end := Exec(s', es[1..]);
      assert end.rows[..|s.rows|] == end.rows[..|s'.rows|][..|s.rows|];
    } else {
      assert s.rows[..|s.rows|] == s.rows;
    }
  }

  /** A first report is in UpdateDB, as the first row of its key, in all later states. */
  lemma FirstReportStays(s: State, radio: Radio, point: Point, objectType: string, es: seq<Event>)
    requires Reachable(s) && FirstWith(s.rows, RadioKey(radio)).None?
    ensures var end := Exec(Next(s, ClientInsert(radio, point, objectType)), es);
            && Reachable(end) && |s.rows| < |end.rows|
            && end.rows[|s.rows|] == NewRow(radio, point, "client", objectType)
            && FirstWith(end.rows, RadioKey(radio)) == Some(end.rows[|s.rows|])
  {
    var s1 := Next(s, ClientInsert(radio, point, objectType));
    var end := Exec(s1, es);
    ReachableStep(s, ClientInsert(radio, point, objectType));
    ReachableLater(s1, es);
    RowsOnlyGrow(s1, es);
    var n := |s.rows|;
    assert end.rows[n] == end.rows[..|s1.rows|][n] == s1.rows[n];
    ReachableIsCoherent(end);
  }

  /**
    A client's report of an LTE or GSM tower that is the first for its key, and any lookup `asked` of that
    tower: in every later state the report can be the lookup's answer exactly if LocateDB has the key by
    then, however it got there, and then it is the only answer, marked as metro exactly if it was reported so.
    */
  lemma FirstReportIsServed(s: State, radio: Radio, asked: Radio, point: Point, objectType: string, es: seq<Event>,
                            a: Option<Place>)
    requires Reachable(s) && SameTower(radio, asked) && FirstWith(s.rows, RadioKey(radio)).None?
    ensures var end := Exec(Next(s, ClientInsert(radio, point, objectType)), es);
            var report := Some(Place(point, objectType == "metro", "client"));
            && (MayAnswer(end, asked, report) <==> RadioKey(radio) in end.index)
            && (RadioKey(radio) in end.index ==> Known(end, asked) && (MayAnswer(end, asked, a) <==> a == report))
  {
    FirstReportStays(s, radio, point, objectType, es);
    var end := Exec(Next(s, ClientInsert(radio, point, objectType)), es);
    ReachableIsCoherent(end);
    AnswerIsUnique(end, asked);
    AnswerIsFirstWritten(end, asked, a);
    assert "client" != "external" by { assert "client"[0] != "external"[0]; }
  }

  /** In particular from the first successful upsert of the report by any refresh, whenever that refresh began. */
  lemma FirstReportIsServedOnceUpserted(s: State, radio: Radio, asked: Radio, point: Point, objectType: string,
                                        before: seq<Event>, job: nat, after: seq<Event>, a: Option<Place>)
    requires Reachable(s) && SameTower(radio, asked) && FirstWith(s.rows, RadioKey(radio)).None?
    requires var mid := Exec(Next(s, ClientInsert(radio, point, objectType)), before);
             job in mid.jobs && Current(mid.jobs[job]).Some? && |mid.jobs[job].tried| == |s.rows|
    ensures var mid := Exec(Next(s, ClientInsert(radio, point, objectType)), before);
            var end := Exec(Next(mid, Upsert(job, true)), after);
            && RadioKey(radio) in end.index
            && (MayAnswer(end, asked, a) <==> a == Some(Place(point, objectType == "metro", "client")))
  {
    FirstReportStays(s, radio, point, objectType, before);
    var mid := Exec(Next(s, ClientInsert(radio, point, objectType)), before);
    ReachableIsCoherent(mid);
    assert JobTracks(mid.jobs[job], mid.rows, mid.index);
    TracksUpsert(mid.jobs[job], mid.rows, true);
    UpsertedRowsAreServed(mid, job, asked, after, a, 0);
  }

  /** And at the latest from the end of a refresh without a failed upsert that began after the report. */
  lemma FirstReportIsServedOnceRefreshed(s: State, radio: Radio, asked: Radio, point: Point, objectType: string,
                                         es: seq<Event>, job: nat, a: Option<Place>)
    requires Reachable(s) && SameTower(radio, asked) && FirstWith(s.rows, RadioKey(radio)).None?
    requires var end := Exec(Next(s, ClientInsert(radio, point, objectType)), es);
             job in end.jobs && end.jobs[job].done && end.jobs[job].clean && end.jobs[job].start > |s.rows|
    ensures var end := Exec(Next(s, ClientInsert(radio, point, objectType)), es);
            && RadioKey(radio) in end.index
            && (MayAnswer(end, asked, a) <==> a == Some(Place(point, objectType == "metro", "client")))
  {
    FirstReportStays(s, radio, point, objectType, es);
    CleanRefreshCovers(Exec(Next(s, ClientInsert(radio, point, objectType)), es), job);
    FirstReportIsServed(s, radio, asked, point, objectType, es, a);
  }

  // ---------- a refresh on its own ----------

  /** The step writes nothing to LocateDB but for job `id`, whose n-th attempt fails exactly if it is rejected. */
  predicate LoneStep(s: State, e: Event, id: nat, rejected: nat -> bool) {
    match e
    case SessionUpsert(_, _, ok) => !ok
    case Upsert(j, ok) => if j == id && id in s.jobs then ok == !rejected(|s.jobs[id].tried|) else !ok
    case FetchFail(j) => j != id
    case _ => true
  }

  predicate LoneRun(s: State, es: seq<Event>, id: nat, rejected: nat -> bool)
    decreases es
  {
    es == [] || (LoneStep(s, es[0], id, rejected) && LoneRun(Next(s, es[0]), es[1..], id, rejected))
  }

  lemma OtherStepsWriteNothing(s: State, e: Event, id: nat, rejected: nat -> bool)
    requires id in s.jobs && LoneStep(s, e, id, rejected)
    requires !(e.Upsert? && e.job == id && Current(s.jobs[id]).Some?)
    ensures id in Next(s, e).jobs && Next(s, e).jobs[id].tried == s.jobs[id].tried
    ensures Next(s, e).index == s.index
  {
  }

  lemma OwnUpsertApplies(s: State, id: nat, ok: bool, before: CellIndex, rejected: nat -> bool)
    requires id in s.jobs && Current(s.jobs[id]).Some? && ok == !rejected(|s.jobs[id].tried|)
    requires s.index == AppliedCells(before, s.jobs[id].tried, rejected)
    ensures id in Next(s, Upsert(id, ok)).jobs
    ensures Next(s, Upsert(id, ok)).index == AppliedCells(before, Next(s, Upsert(id, ok)).jobs[id].tried, rejected)
  {
    var j, row := s.jobs[id], Current(s.jobs[id]).value;
    AppliedCellsMore(before, j.tried, row, rejected);
    assert Next(s, Upsert(id, ok)).jobs[id].tried == j.tried + [row];
  }

  lemma LoneStepApplies(s: State, e: Event, id: nat, before: CellIndex, rejected: nat -> bool)
    requires id in s.jobs && LoneStep(s, e, id, rejected)
    requires s.index == AppliedCells(before, s.jobs[id].tried, rejected)
    ensures id in Next(s, e).jobs
    ensures Next(s, e).index == AppliedCells(before, Next(s, e).jobs[id].tried, rejected)
  {
    if e.Upsert? && e.job == id && Current(s.jobs[id]).Some? {
      OwnUpsertApplies(s, id, e.ok, before, rejected);
    } else {
      OtherStepsWriteNothing(s, e, id, rejected);
    }
  }

  lemma {:induction false} LoneRunApplies(s: State, es: seq<Event>, id: nat, before: CellIndex, rejected: nat -> bool)
    requires id in s.jobs && LoneRun(s, es, id, rejected)
    requires s.index == AppliedCells(before, s.jobs[id].tried, rejected)
    ensures id in Exec(s, es).jobs
    ensures Exec(s, es).index == AppliedCells(before, Exec(s, es).jobs[id].tried, rejected)
    decreases es
  {
    if es != [] {
      LoneStepApplies(s, es[0], id, before, rejected);
      LoneRunApplies(Next(s, es[0]), es[1..], id, before, rejected);
    }
  }

  /**
    From any state of a run, a refresh that is the only one to write leaves in LocateDB what the loop of
    RefreshService is proved to leave: the prefix of UpdateDB it has tried, applied in order without the
    upserts that failed.  Reports, lookups, write-backs and other refreshes' fetches may go on meanwhile.
    */
  lemma LoneRefreshApplies(s: State, es: seq<Event>, id: nat, rejected: nat -> bool)
    requires Inv(s) && id !in s.jobs && LoneRun(Next(s, Start(id)), es, id, rejected)
    ensures var end := Exec(Next(s, Start(id)), es);
            && id in end.jobs && |end.jobs[id].tried| <= |end.rows|
            && end.index == AppliedCells(s.index, end.rows[..|end.jobs[id].tried|], rejected)
  {
    var s1 := Next(s, Start(id));
    LoneRunApplies(s1, es, id, s.index, rejected);
    StepKeepsInv(s, Start(id));
    EveryRunIsCoherent(s1, es);
    var end := Exec(s1, es);
    assert JobTracks(end.jobs[id], end.rows, end.index);
  }
}
