/**
  The wifi side and the ip side of the server, which are alike: client reports, concurrent refreshes and
  session refreshes over UpdateDB's table without a unique key and LocateDB's keyed by name.
  */
module SpotPipeline {
  import opened Wrappers
  import opened Domain
  import opened Repositories
  import opened Paging
  import opened Refresh

  /** `sessions` records the rows that session refreshes have written. */
  datatype State = State(rows: seq<SpotRow>, index: SpotIndex, jobs: map<nat, Job<SpotRow>>, sessions: seq<SpotRow>)

  datatype Event =
    | ClientInsert(row: SpotRow)
    | Start(job: nat)
    | Fetch(job: nat)
    | FetchFail(job: nat)
    | Upsert(job: nat, ok: bool)
    | TurnPage(job: nat)
    | SessionUpsert(row: SpotRow, ok: bool)

  const EMPTY := State([], map[], map[], [])

  function WithJob(s: State, id: nat, j: Job<SpotRow>): State {
    s.(jobs := s.jobs[id := j])
  }

  function Next(s: State, e: Event): State {
    match e
    case ClientInsert(row) => s.(rows := s.rows + [row])
    case Start(id) => if id in s.jobs then s else WithJob(s, id, NewJob(s.rows))
    case Fetch(id) => if id in s.jobs then WithJob(s, id, AfterFetch(s.jobs[id], s.rows)) else s
    case FetchFail(id) =>
      if id in s.jobs && !s.jobs[id].done && s.jobs[id].page.None? then s.(jobs := s.jobs - {id}) else s
    case Upsert(id, ok) =>
      if id in s.jobs && Current(s.jobs[id]).Some? then
        WithJob(s, id, AfterUpsert(s.jobs[id], ok))
        .(index := if ok then UpsertedSpot(s.index, Current(s.jobs[id]).value) else s.index)
      else s
    case TurnPage(id) => if id in s.jobs then WithJob(s, id, AfterPage(s.jobs[id])) else s
    case SessionUpsert(row, ok) =>
      if ok then s.(index := UpsertedSpot(s.index, row), sessions := s.sessions + [row]) else s
  }

  function Exec(s: State, es: seq<Event>): State
    decreases es
  {
    if es == [] then s else Exec(Next(s, es[0]), es[1..])
  }

  ghost predicate Inv(s: State) {
    && (forall name :: name in s.index ==>
          SpotRow(name, s.index[name]) in s.rows || SpotRow(name, s.index[name]) in s.sessions)
    && (forall id :: id in s.jobs ==>
          && Tracks(s.jobs[id], s.rows)
          && (s.jobs[id].clean ==> forall i :: 0 <= i < |s.jobs[id].tried| ==> s.jobs[id].tried[i].name in s.index))
  }

  lemma JobStepKeepsInv(s: State, id: nat, j: Job<SpotRow>, s': State)
    requires Inv(s) && s' == WithJob(s, id, j) && Tracks(j, s.rows)
    requires j.clean ==> forall i :: 0 <= i < |j.tried| ==> j.tried[i].name in s.index
    ensures Inv(s')
  {
    forall k | k in s'.jobs && k != id ensures s'.jobs[k] == s.jobs[k] {}
  }

  lemma UpsertKeepsInv(s: State, id: nat, ok: bool)
    requires Inv(s) && id in s.jobs && Current(s.jobs[id]).Some?
    ensures Inv(Next(s, Upsert(id, ok)))
  {
    var row := Current(s.jobs[id]).value;
    TracksUpsert(s.jobs[id], s.rows, ok);
    assert row in s.rows;
    var mid := if ok then s.(index := UpsertedSpot(s.index, row)) else s;
    assert s.index.Keys <= mid.index.Keys;
    assert Inv(mid);
    JobStepKeepsInv(mid, id, AfterUpsert(s.jobs[id], ok), Next(s, Upsert(id, ok)));
  }

  lemma StepKeepsInv(s: State, e: Event)
    requires Inv(s)
    ensures Inv(Next(s, e))
  {
    var s' := Next(s, e);
    match e {
      case ClientInsert(row) =>
        forall id | id in s.jobs ensures Tracks(s.jobs[id], s'.rows) {
          TracksAppend(s.jobs[id], s.rows, [row]);
        }
      case Start(id) =>
        NewJobTracks(s.rows);
        if id !in s.jobs { JobStepKeepsInv(s, id, NewJob(s.rows), s'); }
      case Fetch(id) =>
        if id in s.jobs {
          TracksFetch(s.jobs[id], s.rows);
          JobStepKeepsInv(s, id, AfterFetch(s.jobs[id], s.rows), s');
        }
      case FetchFail(id) =>
      case Upsert(id, ok) =>
        if id in s.jobs && Current(s.jobs[id]).Some? { UpsertKeepsInv(s, id, ok); }
      case TurnPage(id) =>
        if id in s.jobs {
          TracksPage(s.jobs[id], s.rows);
          JobStepKeepsInv(s, id, AfterPage(s.jobs[id]), s');
        }
      case SessionUpsert(row, ok) =>
        assert s.index.Keys <= s'.index.Keys;
    }
  }

  lemma {:induction false} RunKeepsInv(s: State, es: seq<Event>)
    requires Inv(s)
    ensures Inv(Exec(s, es))
    decreases es
  {
    if es != [] {
      StepKeepsInv(s, es[0]);
      RunKeepsInv(Next(s, es[0]), es[1..]);
    }
  }

  /**
    In every state of every run LocateDB holds, for each name, the coordinates of some client report or
    session point of that name; and a refresh that finished cleanly tried a prefix of UpdateDB, once and
    in order, with every row present when it began, and LocateDB knows every name in it.
    */
  lemma SpotsComeFromReports(es: seq<Event>)
    ensures var s := Exec(EMPTY, es);
            && (forall name :: name in s.index ==>
                  SpotRow(name, s.index[name]) in s.rows || SpotRow(name, s.index[name]) in s.sessions)
            && (forall id :: id in s.jobs && s.jobs[id].done && s.jobs[id].clean ==>
                  var tried := s.jobs[id].tried;
                  && s.jobs[id].start <= |tried| <= |s.rows| && tried == s.rows[..|tried|]
                  && s.jobs[id].total == |tried|
                  && forall i :: 0 <= i < |tried| ==> tried[i].name in s.index)
  {
    RunKeepsInv(EMPTY, es);
  }

  // ---------- a refresh on its own, and two that overlap ----------

  /** The step writes nothing to LocateDB but for job `id`, whose n-th attempt fails exactly if it is rejected. */
  predicate LoneStep(s: State, e: Event, id: nat, rejected: nat -> bool) {
    match e
    case SessionUpsert(_, ok) => !ok
    case Upsert(j, ok) => if j == id && id in s.jobs then ok == !rejected(|s.jobs[id].tried|) else !ok
    case FetchFail(j) => j != id
    case _ => true
  }

  predicate LoneRun(s: State, es: seq<Event>, id: nat, rejected: nat -> bool)
    decreases es
  {
    es == [] || (LoneStep(s, es[0], id, rejected) && LoneRun(Next(s, es[0]), es[1..], id, rejected))
  }

  lemma OtherStepsWriteNothing(s: State, e: Event, id: nat, rejected: nat -> bool)
    requires id in s.jobs && LoneStep(s, e, id, rejected)
    requires !(e.Upsert? && e.job == id && Current(s.jobs[id]).Some?)
    ensures id in Next(s, e).jobs && Next(s, e).index == s.index
    ensures Next(s, e).jobs[id].tried == s.jobs[id].tried && Next(s, e).jobs[id].start == s.jobs[id].start
  {
  }

  lemma OwnUpsertApplies(s: State, id: nat, ok: bool, before: SpotIndex, rejected: nat -> bool)
    requires id in s.jobs && Current(s.jobs[id]).Some? && ok == !rejected(|s.jobs[id].tried|)
    requires s.index == AppliedSpots(before, s.jobs[id].tried, rejected)
    ensures id in Next(s, Upsert(id, ok)).jobs && Next(s, Upsert(id, ok)).jobs[id].start == s.jobs[id].start
    ensures Next(s, Upsert(id, ok)).index == AppliedSpots(before, Next(s, Upsert(id, ok)).jobs[id].tried, rejected)
  {
    var j, row := s.jobs[id], Current(s.jobs[id]).value;
    AppliedSpotsMore(before, j.tried, row, rejected);
    assert Next(s, Upsert(id, ok)).jobs[id].tried == j.tried + [row];
  }

  lemma LoneStepApplies(s: State, e: Event, id: nat, before: SpotIndex, rejected: nat -> bool)
    requires id in s.jobs && LoneStep(s, e, id, rejected)
    requires s.index == AppliedSpots(before, s.jobs[id].tried, rejected)
    ensures id in Next(s, e).jobs && Next(s, e).jobs[id].start == s.jobs[id].start
    ensures Next(s, e).index == AppliedSpots(before, Next(s, e).jobs[id].tried, rejected)
  {
    if e.Upsert? && e.job == id && Current(s.jobs[id]).Some? {
      OwnUpsertApplies(s, id, e.ok, before, rejected);
    } else {
      OtherStepsWriteNothing(s, e, id, rejected);
    }
  }

  lemma {:induction false} LoneRunApplies(s: State, es: seq<Event>, id: nat, before: SpotIndex, rejected: nat -> bool)
    requires id in s.jobs && LoneRun(s, es, id, rejected)
    requires s.index == AppliedSpots(before, s.jobs[id].tried, rejected)
    ensures id in Exec(s, es).jobs && Exec(s, es).jobs[id].start == s.jobs[id].start
    ensures Exec(s, es).index == AppliedSpots(before, Exec(s, es).jobs[id].tried, rejected)
    decreases es
  {
    if es != [] {
      LoneStepApplies(s, es[0], id, before, rejected);
      LoneRunApplies(Next(s, es[0]), es[1..], id, before, rejected);
    }
  }

  /**
    From any state of a run, however LocateDB got there: a refresh that is the only one to write has at
    every moment brought each name to the coordinates of its latest row among those it has tried and that
    did not fail, and left the other names alone, even while clients keep reporting; once it is done, the
    rows it tried include all that were there when it began.
    */
  lemma LoneRefreshRepairs(s: State, es: seq<Event>, id: nat, rejected: nat -> bool, name: string)
    requires Inv(s) && id !in s.jobs && LoneRun(Next(s, Start(id)), es, id, rejected)
    ensures var end := Exec(Next(s, Start(id)), es);
            && id in end.jobs && |end.jobs[id].tried| <= |end.rows|
            && (end.jobs[id].done ==> |s.rows| <= |end.jobs[id].tried|)
            && var tried := end.rows[..|end.jobs[id].tried|];
               var last := LastAcceptedPoint(tried, name, rejected);
               && end.index == AppliedSpots(s.index, tried, rejected)
               && (name in end.index <==> name in s.index || last.Some?)
               && (name in end.index ==> end.index[name] == if last.Some? then last.value else s.index[name])
  {
    var s1 := Next(s, Start(id));
    LoneRunApplies(s1, es, id, s.index, rejected);
    StepKeepsInv(s, Start(id));
    RunKeepsInv(s1, es);
    var end := Exec(s1, es);
    assert Tracks(end.jobs[id], end.rows);
    LastAcceptedRowWins(s.index, end.jobs[id].tried, rejected, name);
  }

  predicate Writes(s: State, e: Event, name: string) {
    match e
    case Upsert(id, ok) => id in s.jobs && Current(s.jobs[id]).Some? && ok && Current(s.jobs[id]).value.name == name
    case SessionUpsert(row, ok) => ok && row.name == name
    case _ => false
  }

  /** Nothing in `es` writes LocateDB's row of `name`. */
  predicate Quiet(s: State, es: seq<Event>, name: string)
    decreases es
  {
    es == [] || (!Writes(s, es[0], name) && Quiet(Next(s, es[0]), es[1..], name))
  }

  lemma {:induction false} QuietKeeps(s: State, es: seq<Event>, name: string)
    requires Quiet(s, es, name) && name in s.index
    ensures name in Exec(s, es).index && Exec(s, es).index[name] == s.index[name]
    decreases es
  {
    if es != [] {
      var s' := Next(s, es[0]);
      assert name in s'.index && s'.index[name] == s.index[name];
      QuietKeeps(s', es[1..], name);
    }
  }

  /** No two reports of `name` are at the same place. */
  predicate Moving(rows: seq<SpotRow>, name: string) {
    forall i, j :: 0 <= i < j < |rows| && rows[i].name == name && rows[j].name == name
      ==> rows[i].point != rows[j].point
  }

  lemma {:induction false} LastPointIsAt(rows: seq<SpotRow>, name: string, p: nat)
    requires p < |rows| && rows[p].name == name
    requires forall i :: p < i < |rows| ==> rows[i].name != name
    ensures LastPoint(rows, name) == Some(rows[p].point)
  {
    if p < |rows| - 1 {
      LastPointIsAt(rows[..|rows| - 1], name, p);
    }
  }

  lemma {:induction false} LastPositionOf(rows: seq<SpotRow>, name: string, p: nat) returns (q: nat)
    requires p < |rows| && rows[p].name == name
    ensures p <= q < |rows| && rows[q].name == name && forall i :: q < i < |rows| ==> rows[i].name != name
  {
    q := |rows| - 1;
    if rows[q].name != name {
      q := LastPositionOf(rows[..q], name, p);
    }
  }

  /** The row that a step writes. */
  function Written(s: State, e: Event): SpotRow
    requires exists name :: Writes(s, e, name)
  {
    if e.SessionUpsert? then e.row else Current(s.jobs[e.job]).value
  }

  /** Whoever writes a name last, a refresh of UpdateDB or of a session, decides what LocateDB has for it. */
  lemma LastWriteStays(s: State, e: Event, es: seq<Event>, name: string)
    requires Writes(s, e, name) && Quiet(Next(s, e), es, name)
    ensures var end := Exec(Next(s, e), es);
            name in end.index && end.index[name] == Written(s, e).point && Written(s, e).name == name
  {
    QuietKeeps(Next(s, e), es, name);
  }

  /**
    However refreshes overlap, LocateDB has for each name the row at the position of the refresh that
    wrote it last.  That is its newest report if UpdateDB has no report of it after that position, and,
    for an access point that was never reported twice at the same place, only then.
    */
  lemma LastWriterDecides(s: State, id: nat, es: seq<Event>, name: string)
    requires Inv(s) && Writes(s, Upsert(id, true), name) && Quiet(Next(s, Upsert(id, true)), es, name)
    ensures var end, p := Exec(Next(s, Upsert(id, true)), es), |s.jobs[id].tried|;
            var isNewest := name in end.index && Some(end.index[name]) == LastPoint(end.rows, name);
            var noneLater := forall i :: p < i < |end.rows| ==> end.rows[i].name != name;
            && p < |end.rows| && end.rows[p].name == name
            && name in end.index && end.index[name] == end.rows[p].point
            && (noneLater ==> isNewest)
            && (Moving(end.rows, name) && isNewest ==> noneLater)
  {
    var s1, p := Next(s, Upsert(id, true)), |s.jobs[id].tried|;
    TracksUpsert(s.jobs[id], s.rows, true);
    LastWriteStays(s, Upsert(id, true), es, name);
    RowsOnlyGrow(s1, es);
    var end := Exec(s1, es);
    assert end.rows[p] == end.rows[..|s.rows|][p] == s.rows[p];
    var q := LastPositionOf(end.rows, name, p);
    LastPointIsAt(end.rows, name, q);
  }

  lemma {:induction false} RowsOnlyGrow(s: State, es: seq<Event>)
    ensures |s.rows| <= |Exec(s, es).rows| && Exec(s, es).rows[..|s.rows|] == s.rows
    decreases es
  {
    if es != [] {
      var s' := Next(s, es[0]);
      assert |s.rows| <= |s'.rows| && s'.rows[..|s.rows|] == s.rows;
      RowsOnlyGrow(s', es[1..]);
      var end := Exec(s', es[1..]);
      assert end.rows[..|s.rows|] == end.rows[..|s'.rows|][..|s.rows|];
    } else {
      assert s.rows[..|s.rows|] == s.rows;
    }
  }

  lemma {:induction false} ExecConcat(s: State, es: seq<Event>, more: seq<Event>)
    ensures Exec(s, es + more) == Exec(Exec(s, es), more)
    decreases es
  {
    if es == [] {
      assert es + more == more;
    } else {
      assert (es + more)[1..] == es[1..] + more;
      ExecConcat(Next(s, es[0]), es[1..], more);
    }
  }

  /** A job that has read all of `rows`, a short page, and has upserted the first `n` of them. */
  function Reading(rows: seq<SpotRow>, n: nat): Job<SpotRow>
    requires n <= |rows|
  {
    Job(|rows|, 0, Some(rows), n, rows[..n], n, true, false)
  }

  lemma ReadingSteps(rows: seq<SpotRow>, n: nat)
    requires n <= |rows| && 0 < |rows| < PAGE_SIZE
    ensures AfterFetch(NewJob(rows), rows) == Reading(rows, 0)
    ensures n < |rows| ==>
      Current(Reading(rows, n)) == Some(rows[n]) && AfterUpsert(Reading(rows, n), true) == Reading(rows, n + 1)
    ensures AfterPage(Reading(rows, |rows|)).done && AfterPage(Reading(rows, |rows|)).clean
    ensures AfterPage(Reading(rows, |rows|)).tried == rows
  {
    assert rows[..0] == [] && rows[..|rows|] == rows;
    assert Page(rows, 0, PAGE_SIZE) == rows;
    if n < |rows| {
      assert rows[..n] + [rows[n]] == rows[..n + 1];
    }
  }

  lemma UpsertWhileReading(s: State, id: nat, rows: seq<SpotRow>, n: nat)
    requires n < |rows| < PAGE_SIZE && id in s.jobs && s.jobs[id] == Reading(rows, n)
    ensures Next(s, Upsert(id, true))
         == State(s.rows, s.index[rows[n].name := rows[n].point], s.jobs[id := Reading(rows, n + 1)], s.sessions)
  {
    ReadingSteps(rows, n);
  }

  /** An old page and a new one, both read and nothing of either written yet. */
  function BothRead(a: SpotRow, b: SpotRow): State {
    State([a, b], map[], map[0 := Reading([a], 0), 1 := Reading([a, b], 0)], [])
  }

  /** A client reports, and a new refresh reads its first page. */
  function ReportAndRead(row: SpotRow, id: nat): seq<Event> {
    [ClientInsert(row), Start(id), Fetch(id)]
  }

  lemma ReportAndReadReads(s: State, row: SpotRow, id: nat)
    requires id !in s.jobs && |s.rows| + 1 < PAGE_SIZE
    ensures Exec(s, ReportAndRead(row, id))
         == State(s.rows + [row], s.index, s.jobs[id := Reading(s.rows + [row], 0)], s.sessions)
  {
    var rows := s.rows + [row];
    ReadingSteps(rows, 0);
    PathIsRun(s, ReportAndRead(row, id), [
      State(rows, s.index, s.jobs, s.sessions),
      State(rows, s.index, s.jobs[id := NewJob(rows)], s.sessions),
      State(rows, s.index, s.jobs[id := Reading(rows, 0)], s.sessions)]);
  }

  lemma ReachBothRead(a: SpotRow, b: SpotRow)
    ensures Exec(EMPTY, ReportAndRead(a, 0) + ReportAndRead(b, 1)) == BothRead(a, b)
  {
    ReportAndReadReads(EMPTY, a, 0);
    ReportAndReadReads(Exec(EMPTY, ReportAndRead(a, 0)), b, 1);
    ExecConcat(EMPTY, ReportAndRead(a, 0), ReportAndRead(b, 1));
    assert [] + [a] == [a] && [a] + [b] == [a, b];
  }

  /** The newer refresh writes its page and ends, then the older one does. */
  const NEW_THEN_OLD: seq<Event> := [Upsert(1, true), Upsert(1, true), TurnPage(1), Upsert(0, true), TurnPage(0)]

  lemma NewFirstOldLast(a: SpotRow, b: SpotRow)
    requires a.name == b.name
    ensures var end := Exec(BothRead(a, b), NEW_THEN_OLD);
            && end.rows == [a, b] && end.index == map[a.name := a.point]
            && 0 in end.jobs && end.jobs[0] == AfterPage(Reading([a], 1))
            && 1 in end.jobs && end.jobs[1] == AfterPage(Reading([a, b], 2))
  {
    var s0 := BothRead(a, b);
    UpsertWhileReading(s0, 1, [a, b], 0);
    var s1 := Next(s0, Upsert(1, true));
    UpsertWhileReading(s1, 1, [a, b], 1);
    var s2 := Next(s1, Upsert(1, true));
    var s3 := Next(s2, TurnPage(1));
    assert s3 == s2.(jobs := s2.jobs[1 := AfterPage(Reading([a, b], 2))]);
    UpsertWhileReading(s3, 0, [a], 0);
    var s4 := Next(s3, Upsert(0, true));
    var s5 := s4.(jobs := s4.jobs[0 := AfterPage(Reading([a], 1))]);
    PathIsRun(s0, NEW_THEN_OLD, [s1, s2, s3, s4, s5]);
  }

  /**
    Overlapping refreshes are not confluent here: an older page that is still being written undoes a
    newer report, although both refreshes finish cleanly and one of them covered that report.
    */
  lemma OverlapCanLoseTheNewest(name: string, older: Point, newer: Point)
    requires older != newer
    ensures var es := ReportAndRead(SpotRow(name, older), 0) + ReportAndRead(SpotRow(name, newer), 1) + NEW_THEN_OLD;
            var s := Exec(EMPTY, es);
            && 0 in s.jobs && s.jobs[0].done && s.jobs[0].clean
            && 1 in s.jobs && s.jobs[1].done && s.jobs[1].clean && s.jobs[1].tried == s.rows
            && LastPoint(s.rows, name) == Some(newer)
            && s.index == map[name := older]
  {
    var a, b := SpotRow(name, older), SpotRow(name, newer);
    ReachBothRead(a, b);
    ReadingSteps([a], 1);
    ReadingSteps([a, b], 2);
    NewFirstOldLast(a, b);
    ExecConcat(EMPTY, ReportAndRead(a, 0) + ReportAndRead(b, 1), NEW_THEN_OLD);
  }

  /** `path` lists the states that `es` passes through. */
  lemma {:induction false} PathIsRun(s: State, es: seq<Event>, path: seq<State>)
    requires |path| == |es| > 0 && path[0] == Next(s, es[0])
    requires forall i :: 0 < i < |es| ==> path[i] == Next(path[i - 1], es[i])
    ensures Exec(s, es) == path[|path| - 1]
    decreases es
  {
    if |es| > 1 {
      PathIsRun(path[0], es[1..], path[1..]);
    } else {
      assert Exec(path[0], es[1..]) == path[0];
    }
  }
}
