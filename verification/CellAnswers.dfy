/**
  What the runs of the cell pipeline promise to a client: whose coordinates a lookup returns, for how
  long, and what write-backs add up to.
  */
module CellAnswers {
  import opened Wrappers
  import opened Domain
  import opened Repositories
  import opened CellPipeline

  ghost predicate Reachable(s: State) {
    exists external, es :: s == Exec(Empty(external), es)
  }

  lemma ReachableIsCoherent(s: State)
    requires Reachable(s)
    ensures Inv(s)
  {
    var external, es :| s == Exec(Empty(external), es);
    EveryRunIsCoherent(Empty(external), es);
  }

  // ---------- one answer per key ----------

  /** The answer for LTE and GSM, whose lookups use the whole unique key. */
  function Answer(s: State, radio: Radio): Option<Place> {
    if RadioKey(radio) in s.index then Some(PlaceOf(s.index[RadioKey(radio)]))
    else ExternalAnswer(s.external, radio)
  }

  lemma AnswerIsUnique(s: State, radio: Radio)
    requires Inv(s) && !radio.WcdmaRadio?
    ensures Known(s, radio) <==> RadioKey(radio) in s.index
    ensures forall a :: MayAnswer(s, radio, a) <==> a == Answer(s, radio)
  {
    forall key | key in s.index ensures Matches(s.index[key].tower, radio) <==> key == RadioKey(radio) {
      LookupIsByKey(s.index[key].tower, radio);
    }
  }

  lemma UpperKey(radio: Radio)
    ensures RadioKey(radio).tech in UPPER_TECHS
  {
  }

  /** An answer is the first-written row of UpdateDB if a refresh has brought it over, else ExternalDB's. */
  lemma AnswerIsFirstWritten(s: State, radio: Radio, a: Option<Place>)
    requires Reachable(s) && !radio.WcdmaRadio?
    ensures RadioKey(radio) in s.index ==> FirstWith(s.rows, RadioKey(radio)).Some?
    ensures MayAnswer(s, radio, a)
       <==> a == if RadioKey(radio) in s.index
                 then Some(PlaceOf(Indexed(FirstWith(s.rows, RadioKey(radio)).value)))
                 else ExternalAnswer(s.external, radio)
  {
    ReachableIsCoherent(s);
    AnswerIsUnique(s, radio);
    UpperKey(radio);
  }

  lemma {:induction false} ExecConcat(s: State, es: seq<Event>, more: seq<Event>)
    ensures Exec(s, es + more) == Exec(Exec(s, es), more)
    decreases es
  {
    if es == [] {
      assert es + more == more;
    } else {
      assert (es + more)[1..] == es[1..] + more;
      ExecConcat(Next(s, es[0]), es[1..], more);
    }
  }

  lemma ReachableLater(s: State, es: seq<Event>)
    requires Reachable(s)
    ensures Reachable(Exec(s, es))
  {
    var external, before :| s == Exec(Empty(external), before);
    ExecConcat(Empty(external), before, es);
  }

  // ---------- answers from LocateDB are final ----------

  lemma InsertKeepsFirst(rows: seq<CellRow>, row: CellRow, key: CellKey)
    requires FirstWith(rows, key).Some?
    ensures FirstWith(Inserted(rows, row), key) == FirstWith(rows, key)
  {
    FirstWithAppend(rows, [row], key);
  }

  lemma StepKeepsFirst(s: State, e: Event, key: CellKey)
    requires FirstWith(s.rows, key).Some?
    ensures FirstWith(Next(s, e).rows, key) == FirstWith(s.rows, key)
  {
    if e.WriteBack? {
      if e.task < |s.tasks| {
        InsertKeepsFirst(s.rows, s.tasks[e.task], key);
      }
    } else if e.ClientInsert? {
      InsertKeepsFirst(s.rows, NewRow(e.radio, e.point, "client", e.objectType), key);
    } else {
      OtherStepsKeepRows(s, e);
    }
  }

  lemma OtherStepsKeepRows(s: State, e: Event)
    requires !e.WriteBack? && !e.ClientInsert?
    ensures Next(s, e).rows == s.rows
  {
  }

  lemma StepKeepsKeys(s: State, e: Event)
    ensures s.index.Keys <= Next(s, e).index.Keys
    ensures Next(s, e).external == s.external
  {
  }

  lemma {:induction false} IndexedRowsAreFinal(s: State, es: seq<Event>, key: CellKey)
    requires Inv(s) && key in s.index && key.tech in UPPER_TECHS
    ensures key in Exec(s, es).index && Exec(s, es).index[key] == s.index[key]
    decreases es
  {
    if es != [] {
      StepKeepsInv(s, es[0]);
      StepKeepsKeys(s, es[0]);
      StepKeepsFirst(s, es[0], key);
      IndexedRowsAreFinal(Next(s, es[0]), es[1..], key);
    }
  }

  /** Two lookups are for the same LTE or GSM tower; how each client receives it may differ. */
  predicate SameTower(radio: Radio, asked: Radio) {
    RadioKey(asked) == RadioKey(radio) && !asked.WcdmaRadio? && !radio.WcdmaRadio?
  }

  /** Once LocateDB answers for an LTE or GSM tower, every later lookup of it gets the same answer. */
  lemma KnownAnswersNeverChange(s: State, es: seq<Event>, radio: Radio, asked: Radio, a: Option<Place>)
    requires Reachable(s) && SameTower(radio, asked) && Known(s, radio)
    ensures Known(Exec(s, es), asked)
    ensures MayAnswer(Exec(s, es), asked, a) <==> MayAnswer(s, radio, a)
  {
    ReachableIsCoherent(s);
    AnswerIsUnique(s, radio);
    UpperKey(radio);
    EveryRunIsCoherent(s, es);
    IndexedRowsAreFinal(s, es, RadioKey(radio));
    AnswerIsUnique(Exec(s, es), asked);
  }

  // ---------- a lookup's two queries ----------

  predicate NotAnswered(es: seq<Event>, id: nat) {
    forall i :: 0 <= i < |es| ==> es[i] != AskExternal(id) && es[i] != AskFail(id)
  }

  lemma {:induction false} StillAsking(s: State, es: seq<Event>, id: nat)
    requires id in s.asking && NotAnswered(es, id)
    ensures id in Exec(s, es).asking && Exec(s, es).asking[id] == s.asking[id]
    ensures Exec(s, es).external == s.external
    decreases es
  {
    if es != [] {
      assert forall i :: 0 <= i < |es[1..]| ==> es[1..][i] == es[i + 1];
      StepKeepsKeys(s, es[0]);
      StillAsking(Next(s, es[0]), es[1..], id);
    }
  }

  /**
    A lookup asks LocateDB in one state and, on a miss, ExternalDB in a later one.  Whatever write-backs,
    reports and refreshes do in between, its answers are those of the state of its first query.
    */
  lemma AnswersAreOfTheFirstQuery(s: State, id: nat, radio: Radio, es: seq<Event>, a: Option<Place>)
    requires id !in s.asking && NotAnswered(es, id)
    ensures var later := Exec(Next(s, Ask(id, radio)), es);
            MayAnswer(s, radio, a)
            <==> if Known(s, radio) then Returns(s, Ask(id, radio), radio, a)
                 else Returns(later, AskExternal(id), radio, a)
  {
    if !Known(s, radio) {
      StillAsking(Next(s, Ask(id, radio)), es, id);
    }
  }

  // ---------- towers that only ExternalDB has reported ----------

  /** No client reports a tower that a lookup of `radio` would find. */
  predicate Unreported(es: seq<Event>, radio: Radio) {
    forall i :: 0 <= i < |es| && es[i].ClientInsert? ==> !Matches(TowerOf(es[i].radio, Upper), radio)
  }

  predicate NoClientInsert(es: seq<Event>, key: CellKey) {
    forall i :: 0 <= i < |es| && es[i].ClientInsert? ==> RadioKey(es[i].radio) != key
  }

  lemma NoInsertIsUnreported(es: seq<Event>, radio: Radio)
    requires !radio.WcdmaRadio?
    ensures NoClientInsert(es, RadioKey(radio)) <==> Unreported(es, radio)
  {
    forall i | 0 <= i < |es| && es[i].ClientInsert?
      ensures RadioKey(es[i].radio) == RadioKey(radio) <==> Matches(TowerOf(es[i].radio, Upper), radio)
    {
      LookupIsByKey(TowerOf(es[i].radio, Upper), radio);
    }
  }

  predicate ExternalRow(external: map<CellKey, Point>, row: CellRow) {
    && KeyOf(row.tower) in external && row.point == external[KeyOf(row.tower)]
    && row.source == Some("external") && row.objectType == Some("")
  }

  /** Every row that a lookup of `radio` would find, and every write-back, is ExternalDB's. */
  ghost predicate FromExternal(s: State, radio: Radio) {
    && (forall i :: 0 <= i < |s.rows| && Matches(s.rows[i].tower, radio) ==> ExternalRow(s.external, s.rows[i]))
    && (forall i :: 0 <= i < |s.tasks| ==> ExternalRow(s.external, s.tasks[i]))
  }

  lemma StepFromExternal(s: State, e: Event, radio: Radio)
    requires FromExternal(s, radio)
    requires e.ClientInsert? ==> !Matches(TowerOf(e.radio, Upper), radio)
    ensures FromExternal(Next(s, e), radio)
  {
  }

  lemma {:induction false} RunFromExternal(s: State, es: seq<Event>, radio: Radio)
    requires FromExternal(s, radio) && Unreported(es, radio)
    ensures FromExternal(Exec(s, es), radio) && Exec(s, es).external == s.external
    decreases es
  {
    if es != [] {
      assert forall i :: 0 <= i < |es[1..]| ==> es[1..][i] == es[i + 1];
      StepFromExternal(s, es[0], radio);
      StepKeepsKeys(s, es[0]);
      RunFromExternal(Next(s, es[0]), es[1..], radio);
    }
  }

  /** Then what LocateDB has for it is what ExternalDB has under the same key. */
  lemma FoundIsExternal(s: State, radio: Radio, key: CellKey)
    requires Inv(s) && FromExternal(s, radio) && key in s.index && Matches(s.index[key].tower, radio)
    ensures key in s.external && PlaceOf(s.index[key]) == Place(s.external[key], false, "external")
  {
    MatchesUpper(s.index[key].tower, radio);
    var row := FirstWith(s.rows, key).value;
    assert row.tower == s.index[key].tower;
    assert ExternalRow(s.external, row);
  }

  lemma UnreportedAnswers(external: map<CellKey, Point>, es: seq<Event>, radio: Radio)
    requires !radio.WcdmaRadio? && NoClientInsert(es, RadioKey(radio))
    ensures Answer(Exec(Empty(external), es), radio) == ExternalAnswer(external, radio)
    ensures Exec(Empty(external), es).external == external
  {
    var s := Exec(Empty(external), es);
    EveryRunIsCoherent(Empty(external), es);
    NoInsertIsUnreported(es, radio);
    RunFromExternal(Empty(external), es, radio);
    if RadioKey(radio) in s.index {
      LookupIsByKey(s.index[RadioKey(radio)].tower, radio);
      FoundIsExternal(s, radio, RadioKey(radio));
    }
  }

  /**
    For an LTE or GSM cell that no client has reported, every lookup of every run returns ExternalDB's
    answer: before, during or after the write-back and any refresh, and in between its own two queries.
    */
  lemma WriteBackPreservesAnswers(external: map<CellKey, Point>, es: seq<Event>, radio: Radio, e: Event,
                                  a: Option<Place>)
    requires !radio.WcdmaRadio? && NoClientInsert(es, RadioKey(radio))
    ensures MayAnswer(Exec(Empty(external), es), radio, a) <==> a == ExternalAnswer(external, radio)
    ensures Returns(Exec(Empty(external), es), e, radio, a) ==> a == ExternalAnswer(external, radio)
  {
    EveryRunIsCoherent(Empty(external), es);
    AnswerIsUnique(Exec(Empty(external), es), radio);
    UnreportedAnswers(external, es, radio);
  }

  // ---------- WCDMA ----------

  /** In every run without a client report that its lookup would find, `radio` gets ExternalDB's answer. */
  ghost predicate AlwaysExternal(external: map<CellKey, Point>, radio: Radio) {
    forall es, a :: Unreported(es, radio) && MayAnswer(Exec(Empty(external), es), radio, a)
      ==> a == ExternalAnswer(external, radio)
  }

  /** ExternalDB has no tower at another place that differs from `radio` in its location area only. */
  ghost predicate NoTwin(external: map<CellKey, Point>, radio: Radio)
    requires radio.WcdmaRadio?
  {
    forall area :: RadioKey(InArea(radio, area)) in external ==>
      RadioKey(radio) in external && external[RadioKey(InArea(radio, area))] == external[RadioKey(radio)]
  }

  lemma ThreeSteps(s: State, e1: Event, e2: Event, e3: Event)
    ensures Exec(s, [e1, e2, e3]) == Next(Next(Next(s, e1), e2), e3)
  {
    var es := [e1, e2, e3];
    assert es[1..] == [e2, e3] && [e2, e3][1..] == [e3] && [e3][1..] == [];
    assert Exec(s, es) == Exec(Next(s, e1), [e2, e3]) == Exec(Next(Next(s, e1), e2), [e3]);
    assert Exec(Next(Next(Next(s, e1), e2), e3), []) == Next(Next(Next(s, e1), e2), e3);
  }

  /** One tower of ExternalDB is looked up and written back. */
  function WriteBackRun(radio: Radio): seq<Event> {
    [Ask(0, radio), AskExternal(0), WriteBack(0, true)]
  }

  lemma WriteBackRunInserts(external: map<CellKey, Point>, radio: Radio)
    requires RadioKey(radio) in external
    ensures Exec(Empty(external), WriteBackRun(radio))
         == Empty(external).(tasks := [WriteBackRow(external, radio)], ran := {0},
                             rows := [WriteBackRow(external, radio)])
  {
    var row, s0 := WriteBackRow(external, radio), Empty(external);
    var s1, s2 := s0.(asking := map[0 := radio]), s0.(tasks := [row]);
    assert Next(s0, Ask(0, radio)) == s1;
    assert Next(s1, AskExternal(0)) == s2;
    assert Next(s2, WriteBack(0, true)) == s2.(ran := {0}, rows := [row]);
    ThreeSteps(s0, Ask(0, radio), AskExternal(0), WriteBack(0, true));
  }

  const REFRESH_RUN: seq<Event> := [Start(0), Fetch(0), Upsert(0, true)]

  lemma RefreshRunIndexes(s: State, row: CellRow)
    requires s.rows == [row] && s.index == map[] && s.jobs == map[]
    ensures Exec(s, REFRESH_RUN).index == map[KeyOf(row.tower) := Indexed(row)]
    ensures Exec(s, REFRESH_RUN).external == s.external
  {
    var j := Paging.NewJob([row]);
    var j' := Paging.AfterFetch(j, [row]);
    var s1, s2 := s.(jobs := map[0 := j]), s.(jobs := map[0 := j']);
    assert Next(s, Start(0)) == s1;
    assert Next(s1, Fetch(0)) == s2;
    assert j'.page == Some([row]) && Paging.Current(j') == Some(row);
    ThreeSteps(s, Start(0), Fetch(0), Upsert(0, true));
  }

  /** And then refreshed. */
  function IndexingRun(radio: Radio): seq<Event> {
    WriteBackRun(radio) + REFRESH_RUN
  }

  lemma IndexingRunIndexes(external: map<CellKey, Point>, radio: Radio)
    requires RadioKey(radio) in external
    ensures Exec(Empty(external), IndexingRun(radio)).index
         == map[RadioKey(radio) := Indexed(WriteBackRow(external, radio))]
    ensures Exec(Empty(external), IndexingRun(radio)).external == external
  {
    WriteBackRunInserts(external, radio);
    RefreshRunIndexes(Exec(Empty(external), WriteBackRun(radio)), WriteBackRow(external, radio));
    ExecConcat(Empty(external), WriteBackRun(radio), REFRESH_RUN);
  }

  /**
    Any WCDMA tower of ExternalDB, once it is indexed, is the answer for each cell that differs from it in
    its area only, whatever ExternalDB has for that cell.
    */
  lemma WcdmaTwinIsMistaken(external: map<CellKey, Point>, radio: Radio, area: int, a: Option<Place>)
    requires radio.WcdmaRadio? && RadioKey(InArea(radio, area)) in external
    ensures var key, s := RadioKey(InArea(radio, area)), Exec(Empty(external), IndexingRun(InArea(radio, area)));
            MayAnswer(s, radio, a) <==> a == Some(Place(external[key], false, "external"))
  {
    var key, s := RadioKey(InArea(radio, area)), Exec(Empty(external), IndexingRun(InArea(radio, area)));
    IndexingRunIndexes(external, InArea(radio, area));
    assert key in s.index && Matches(s.index[key].tower, radio);
  }

  lemma NoTwinSuffices(external: map<CellKey, Point>, radio: Radio, es: seq<Event>, a: Option<Place>)
    requires radio.WcdmaRadio? && NoTwin(external, radio) && Unreported(es, radio)
    requires MayAnswer(Exec(Empty(external), es), radio, a)
    ensures a == ExternalAnswer(external, radio)
  {
    var s := Exec(Empty(external), es);
    EveryRunIsCoherent(Empty(external), es);
    RunFromExternal(Empty(external), es, radio);
    if Known(s, radio) {
      var key :| key in s.index && Matches(s.index[key].tower, radio) && a == Some(PlaceOf(s.index[key]));
      var area := WcdmaLookupFindsSomeArea(s.index[key].tower, radio);
      assert key == RadioKey(InArea(radio, area));
      FoundIsExternal(s, radio, key);
    }
  }

  /**
    An unreported WCDMA cell gets ExternalDB's answer in all runs exactly if ExternalDB has no tower with
    the same network and cell id in another area at another place.
    */
  lemma WcdmaAnswersIff(external: map<CellKey, Point>, radio: Radio)
    requires radio.WcdmaRadio?
    ensures AlwaysExternal(external, radio) <==> NoTwin(external, radio)
  {
    if NoTwin(external, radio) {
      forall es, a | Unreported(es, radio) && MayAnswer(Exec(Empty(external), es), radio, a)
        ensures a == ExternalAnswer(external, radio)
      {
        NoTwinSuffices(external, radio, es, a);
      }
    }
    if AlwaysExternal(external, radio) {
      forall area | RadioKey(InArea(radio, area)) in external
        ensures RadioKey(radio) in external && external[RadioKey(InArea(radio, area))] == external[RadioKey(radio)]
      {
        var a := Some(Place(external[RadioKey(InArea(radio, area))], false, "external"));
        WcdmaTwinIsMistaken(external, radio, area, a);
        assert Unreported(IndexingRun(InArea(radio, area)), radio);
        assert a == ExternalAnswer(external, radio);
      }
    }
  }

  // ---------- session refreshes ----------

  /**
    A session refresh writes its cells under lower-case technologies and lookups ask for upper-case
    ones, so it changes the answer of no lookup, whatever it writes.
    */
  lemma SessionCellsAreNeverFound(s: State, radio: Radio, point: Point, ok: bool, query: Radio, a: Option<Place>)
    requires Reachable(s)
    ensures var s' := Next(s, SessionUpsert(radio, point, ok));
            && (Known(s', query) <==> Known(s, query))
            && (MayAnswer(s', query, a) <==> MayAnswer(s, query, a))
  {
    ReachableIsCoherent(s);
    SessionKeysAreLower(radio, point);
    if ok {
      var s', own := Next(s, SessionUpsert(radio, point, ok)), KeyOf(SessionRow(radio, point).tower);
      SessionKeepsInv(s, radio, point, ok);
      OnlyUpperMatches(s, query, own);
      OnlyUpperMatches(s', query, own);
      assert s'.index == s.index[own := s'.index[own]];
      UnmatchedRowIsInvisible(s, s', own, query, a);
    }
  }

  lemma UnmatchedRowIsInvisible(s: State, s': State, own: CellKey, query: Radio, a: Option<Place>)
    requires s'.external == s.external && own in s'.index && s'.index == s.index[own := s'.index[own]]
    requires !Matches(s'.index[own].tower, query) && (own in s.index ==> !Matches(s.index[own].tower, query))
    ensures Known(s', query) <==> Known(s, query)
    ensures MayAnswer(s', query, a) <==> MayAnswer(s, query, a)
  {
    forall key | key != own
      ensures (key in s'.index <==> key in s.index) && (key in s.index ==> s'.index[key] == s.index[key])
    {
    }
  }

  lemma OnlyUpperMatches(s: State, query: Radio, own: CellKey)
    requires Inv(s) && own.tech !in UPPER_TECHS
    ensures own in s.index ==> !Matches(s.index[own].tower, query)
  {
    if own in s.index && Matches(s.index[own].tower, query) {
      MatchesUpper(s.index[own].tower, query);
    }
  }

  lemma MatchesUpper(t: Tower, radio: Radio)
    requires Matches(t, radio)
    ensures KeyOf(t).tech in UPPER_TECHS
  {
  }

  // ---------- write-backs as tasks ----------

  predicate IsExternalHit(s: State, e: Event) {
    e.AskExternal? && e.lookup in s.asking && RadioKey(s.asking[e.lookup]) in s.external
  }

  /** How many lookups of a run were answered by ExternalDB. */
  function ExternalHits(s: State, es: seq<Event>): nat
    decreases es
  {
    if es == [] then 0
    else (if IsExternalHit(s, es[0]) then 1 else 0) + ExternalHits(Next(s, es[0]), es[1..])
  }

  /** The goroutines spawned and not finished: the wait group's counter. */
  function Live(s: State): int {
    |s.tasks| - |s.ran|
  }

  lemma {:induction false} BoundedSet(s: set<nat>, n: nat)
    requires forall k :: k in s ==> k < n
    ensures |s| <= n
    ensures |s| == n <==> (forall k: nat :: k < n ==> k in s)
  {
    if n == 0 {
      assert s == {};
    } else {
      var rest := s - {n - 1};
      BoundedSet(rest, n - 1);
      assert (n - 1 in s) ==> s == rest + {n - 1};
      assert (n - 1 !in s) ==> s == rest;
    }
  }

  lemma StepSpawnsForHits(s: State, e: Event)
    ensures |Next(s, e).tasks| == |s.tasks| + if IsExternalHit(s, e) then 1 else 0
  {
  }

  lemma {:induction false} TasksAreExternalHits(s: State, es: seq<Event>)
    ensures |Exec(s, es).tasks| == |s.tasks| + ExternalHits(s, es)
    decreases es
  {
    if es != [] {
      StepSpawnsForHits(s, es[0]);
      TasksAreExternalHits(Next(s, es[0]), es[1..]);
    }
  }

  /**
    Each ExternalDB hit spawns exactly one write-back and nothing else spawns any; the counter is never
    negative, and it is zero exactly when every spawned write-back has finished.
    */
  lemma WriteBacksAreCounted(external: map<CellKey, Point>, es: seq<Event>)
    ensures var s := Exec(Empty(external), es);
            && |s.tasks| == ExternalHits(Empty(external), es)
            && Live(s) >= 0
            && (Live(s) == 0 <==> forall n: nat :: n < |s.tasks| ==> n in s.ran)
  {
    var s := Exec(Empty(external), es);
    TasksAreExternalHits(Empty(external), es);
    EveryRunIsCoherent(Empty(external), es);
    BoundedSet(s.ran, |s.tasks|);
  }
}
