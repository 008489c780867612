/**
  The cell side of the server as one state machine: lookups, write-backs of ExternalDB hits, client
  updates, any number of concurrent refreshes, and session refreshes (internal/service/locate.go,
  update.go, refresh.go and session_admin.go over the three databases).

  A run is any sequence of events from a server with empty UpdateDB and LocateDB; an event that is not
  possible in a state changes nothing.
  */
module CellPipeline {
  import opened Wrappers
  import opened Domain
  import opened Repositories
  import opened Paging

  /**
    `asking` are the lookups that LocateDB has missed and that have not heard from ExternalDB yet.
    `tasks` are the rows of all write-backs ever spawned, in order, and `ran` the numbers of those
    whose goroutine has finished.
    */
  datatype State = State(
    external: map<CellKey, Point>,
    rows: seq<CellRow>,
    index: CellIndex,
    asking: map<nat, Radio>,
    tasks: seq<CellRow>,
    ran: set<nat>,
    jobs: map<nat, Job<CellRow>>)

  datatype Event =
    | Ask(lookup: nat, radio: Radio)
    | AskExternal(lookup: nat)
    | AskFail(lookup: nat)
    | WriteBack(task: nat, ok: bool)
    | ClientInsert(radio: Radio, point: Point, objectType: string)
    | Start(job: nat)
    | Fetch(job: nat)
    | FetchFail(job: nat)
    | Upsert(job: nat, ok: bool)
    | TurnPage(job: nat)
    | SessionUpsert(radio: Radio, point: Point, ok: bool)

  function Empty(external: map<CellKey, Point>): State {
    State(external, [], map[], map[], [], {}, map[])
  }

  // ---------- answers ----------

  predicate Known(s: State, radio: Radio) {
    exists key :: key in s.index && Matches(s.index[key].tower, radio)
  }

  /** An ExternalDB hit is marked as such before it is returned. */
  function ExternalAnswer(external: map<CellKey, Point>, radio: Radio): Option<Place> {
    if RadioKey(radio) in external then Some(Place(external[RadioKey(radio)], false, "external")) else None
  }

  /** What findCellLocation may return if its LocateDB query is made now: LIMIT 1 picks some matching row. */
  ghost predicate MayAnswer(s: State, radio: Radio, answer: Option<Place>) {
    if Known(s, radio) then
      exists key :: key in s.index && Matches(s.index[key].tower, radio) && answer == Some(PlaceOf(s.index[key]))
    else answer == ExternalAnswer(s.external, radio)
  }

  /** In this step some lookup of `radio` is answered, and `answer` is a possible answer. */
  ghost predicate Returns(s: State, e: Event, radio: Radio, answer: Option<Place>) {
    match e
    case Ask(id, r) => r == radio && id !in s.asking && Known(s, radio) && MayAnswer(s, radio, answer)
    case AskExternal(id) => id in s.asking && s.asking[id] == radio && answer == ExternalAnswer(s.external, radio)
    case _ => false
  }

  /** The row an ExternalDB hit writes back. */
  function WriteBackRow(external: map<CellKey, Point>, radio: Radio): CellRow
    requires RadioKey(radio) in external
  {
    NewRow(radio, external[RadioKey(radio)], "external", "")
  }

  // ---------- steps ----------

  function WithJob(s: State, id: nat, j: Job<CellRow>): State {
    s.(jobs := s.jobs[id := j])
  }

  function Next(s: State, e: Event): State {
    match e
    case Ask(id, radio) =>
      if id in s.asking || Known(s, radio) then s else s.(asking := s.asking[id := radio])
    case AskExternal(id) =>
      if id !in s.asking then s
      else
        s.(asking := s.asking - {id},
           tasks := if RadioKey(s.asking[id]) in s.external
                    then s.tasks + [WriteBackRow(s.external, s.asking[id])] else s.tasks)
    case AskFail(id) => s.(asking := s.asking - {id})
    case WriteBack(n, ok) =>
      if n < |s.tasks| && n !in s.ran then
        s.(ran := s.ran + {n}, rows := if ok then Inserted(s.rows, s.tasks[n]) else s.rows)
      else s
    case ClientInsert(radio, point, objectType) =>
      s.(rows := Inserted(s.rows, NewRow(radio, point, "client", objectType)))
    case Start(id) => if id in s.jobs then s else WithJob(s, id, NewJob(s.rows))
    case Fetch(id) => if id in s.jobs then WithJob(s, id, AfterFetch(s.jobs[id], s.rows)) else s
    case FetchFail(id) =>
      if id in s.jobs && !s.jobs[id].done && s.jobs[id].page.None? then s.(jobs := s.jobs - {id}) else s
    case Upsert(id, ok) =>
      if id in s.jobs && Current(s.jobs[id]).Some? then
        WithJob(s, id, AfterUpsert(s.jobs[id], ok))
        .(index := if ok then UpsertedCell(s.index, Current(s.jobs[id]).value) else s.index)
      else s
    case TurnPage(id) => if id in s.jobs then WithJob(s, id, AfterPage(s.jobs[id])) else s
    case SessionUpsert(radio, point, ok) =>
      if ok then s.(index := UpsertedCell(s.index, SessionRow(radio, point))) else s
  }

  function Exec(s: State, es: seq<Event>): State
    decreases es
  {
    if es == [] then s else Exec(Next(s, es[0]), es[1..])
  }

  // ---------- the invariant ----------

  /** A row that InsertCell wrote: upper-case technology, columns of one radio. */
  ghost predicate FromServer(row: CellRow) {
    exists radio :: row.tower == TowerOf(radio, Upper)
  }

  ghost predicate AllFromServer(rows: seq<CellRow>) {
    forall i :: 0 <= i < |rows| ==> FromServer(rows[i])
  }

  ghost predicate KeysAreUnique(rows: seq<CellRow>) {
    forall i :: 0 <= i < |rows| ==> FirstWith(rows, KeyOf(rows[i].tower)) == Some(rows[i])
  }

  /** LocateDB agrees with UpdateDB on every key that the server itself writes. */
  ghost predicate IndexCoherent(index: CellIndex, rows: seq<CellRow>) {
    forall key :: key in index ==>
      && KeyOf(index[key].tower) == key && Proper(index[key].tower)
      && (key.tech in UPPER_TECHS ==>
            FirstWith(rows, key).Some? && index[key] == Indexed(FirstWith(rows, key).value))
  }

  /** A job without a failure so far has brought all it tried into LocateDB. */
  ghost predicate JobTracks(j: Job<CellRow>, rows: seq<CellRow>, index: CellIndex) {
    Tracks(j, rows) && (j.clean ==> forall i :: 0 <= i < |j.tried| ==> KeyOf(j.tried[i].tower) in index)
  }

  ghost predicate JobsTrack(jobs: map<nat, Job<CellRow>>, rows: seq<CellRow>, index: CellIndex) {
    forall id :: id in jobs ==> JobTracks(jobs[id], rows, index)
  }

  ghost predicate Inv(s: State) {
    && AllFromServer(s.rows) && AllFromServer(s.tasks) && KeysAreUnique(s.rows)
    && IndexCoherent(s.index, s.rows) && JobsTrack(s.jobs, s.rows, s.index)
    && (forall n :: n in s.ran ==> n < |s.tasks|)
  }

  lemma ServerKeysAreUpper(row: CellRow)
    requires FromServer(row)
    ensures KeyOf(row.tower).tech in UPPER_TECHS && Proper(row.tower)
  {
  }

  lemma SessionKeysAreLower(radio: Radio, point: Point)
    ensures KeyOf(SessionRow(radio, point).tower).tech !in UPPER_TECHS && Proper(SessionRow(radio, point).tower)
  {
    var tech := TechName(radio, Lower);
    assert tech[0] in {'l', 'g', 'w'};
    assert forall t :: t in UPPER_TECHS ==> t[0] in {'L', 'G', 'W'};
  }

  // ---------- inserts keep it ----------

  lemma InsertKeepsKeys(rows: seq<CellRow>, row: CellRow)
    requires KeysAreUnique(rows) && AllFromServer(rows) && FromServer(row)
    ensures KeysAreUnique(Inserted(rows, row)) && AllFromServer(Inserted(rows, row))
  {
    var more := Inserted(rows, row);
    if more != rows {
      forall i | 0 <= i < |more| ensures FirstWith(more, KeyOf(more[i].tower)) == Some(more[i]) {
        FirstWithAppend(rows, [row], KeyOf(more[i].tower));
      }
    }
  }

  lemma InsertKeepsIndex(index: CellIndex, rows: seq<CellRow>, row: CellRow)
    requires IndexCoherent(index, rows)
    ensures IndexCoherent(index, Inserted(rows, row))
  {
    forall key | key in index && key.tech in UPPER_TECHS
      ensures FirstWith(Inserted(rows, row), key) == FirstWith(rows, key)
    {
      FirstWithAppend(rows, [row], key);
    }
  }

  lemma InsertKeepsJobs(jobs: map<nat, Job<CellRow>>, rows: seq<CellRow>, row: CellRow, index: CellIndex)
    requires JobsTrack(jobs, rows, index)
    ensures JobsTrack(jobs, Inserted(rows, row), index)
  {
    forall id | id in jobs ensures Tracks(jobs[id], Inserted(rows, row)) {
      TracksAppend(jobs[id], rows, [row]);
    }
  }

  lemma InsertKeepsInv(s: State, row: CellRow, s': State)
    requires Inv(s) && FromServer(row)
    requires s' == s.(rows := Inserted(s.rows, row))
    ensures Inv(s')
  {
    InsertKeepsKeys(s.rows, row);
    InsertKeepsIndex(s.index, s.rows, row);
    InsertKeepsJobs(s.jobs, s.rows, row, s.index);
  }

  // ---------- refreshes keep it ----------

  lemma OtherJobsKeepTrack(jobs: map<nat, Job<CellRow>>, id: nat, j: Job<CellRow>, rows: seq<CellRow>, index: CellIndex)
    requires JobsTrack(jobs, rows, index) && JobTracks(j, rows, index)
    ensures JobsTrack(jobs[id := j], rows, index)
  {
  }

  lemma MoreKeysKeepTrack(jobs: map<nat, Job<CellRow>>, rows: seq<CellRow>, index: CellIndex, index': CellIndex)
    requires JobsTrack(jobs, rows, index) && index.Keys <= index'.Keys
    ensures JobsTrack(jobs, rows, index')
  {
    forall id | id in jobs ensures JobTracks(jobs[id], rows, index') {
      assert JobTracks(jobs[id], rows, index);
    }
  }

  lemma UpsertKeepsIndex(index: CellIndex, rows: seq<CellRow>, row: CellRow)
    requires IndexCoherent(index, rows) && KeysAreUnique(rows) && AllFromServer(rows) && row in rows
    ensures IndexCoherent(UpsertedCell(index, row), rows)
  {
    ServerKeysAreUpper(row);
  }

  /** The job itself after its upsert, and LocateDB after it. */
  lemma UpsertKeepsTrack(j: Job<CellRow>, rows: seq<CellRow>, index: CellIndex, ok: bool)
    requires JobTracks(j, rows, index) && Current(j).Some?
    ensures JobTracks(AfterUpsert(j, ok), rows, if ok then UpsertedCell(index, Current(j).value) else index)
    ensures Current(j).value in rows
  {
    TracksUpsert(j, rows, ok);
  }

  lemma UpsertKeepsInv(s: State, id: nat, ok: bool)
    requires Inv(s) && id in s.jobs && Current(s.jobs[id]).Some?
    ensures Inv(Next(s, Upsert(id, ok)))
  {
    var j, row := s.jobs[id], Current(s.jobs[id]).value;
    var index' := if ok then UpsertedCell(s.index, row) else s.index;
    assert Next(s, Upsert(id, ok)) == s.(jobs := s.jobs[id := AfterUpsert(j, ok)], index := index');
    UpsertKeepsTrack(j, s.rows, s.index, ok);
    MoreKeysKeepTrack(s.jobs, s.rows, s.index, index');
    OtherJobsKeepTrack(s.jobs, id, AfterUpsert(j, ok), s.rows, index');
    if ok {
      UpsertKeepsIndex(s.index, s.rows, row);
    }
    assert IndexCoherent(index', s.rows);
  }

  lemma StartKeepsInv(s: State, id: nat)
    requires Inv(s)
    ensures Inv(Next(s, Start(id)))
  {
    NewJobTracks(s.rows);
    OtherJobsKeepTrack(s.jobs, id, NewJob(s.rows), s.rows, s.index);
  }

  /** Fetching a page or turning it tries nothing. */
  lemma ReadingKeepsInv(s: State, id: nat, e: Event)
    requires Inv(s) && id in s.jobs && (e == Fetch(id) || e == TurnPage(id))
    ensures Inv(Next(s, e))
  {
    var j := s.jobs[id];
    assert JobTracks(j, s.rows, s.index);
    var j' := if e.Fetch? then AfterFetch(j, s.rows) else AfterPage(j);
    if e.Fetch? {
      TracksFetch(j, s.rows);
    } else {
      TracksPage(j, s.rows);
    }
    assert j'.tried == j.tried && j'.clean == j.clean;
    OtherJobsKeepTrack(s.jobs, id, j', s.rows, s.index);
  }

  lemma SessionKeepsIndex(index: CellIndex, rows: seq<CellRow>, radio: Radio, point: Point)
    requires IndexCoherent(index, rows)
    ensures IndexCoherent(UpsertedCell(index, SessionRow(radio, point)), rows)
  {
    SessionKeysAreLower(radio, point);
  }

  lemma SessionKeepsInv(s: State, radio: Radio, point: Point, ok: bool)
    requires Inv(s)
    ensures Inv(Next(s, SessionUpsert(radio, point, ok)))
  {
    if ok {
      SessionKeepsIndex(s.index, s.rows, radio, point);
      MoreKeysKeepTrack(s.jobs, s.rows, s.index, UpsertedCell(s.index, SessionRow(radio, point)));
    }
  }

  // ---------- every step keeps it ----------

  lemma LookupKeepsInv(s: State, e: Event)
    requires Inv(s) && (e.Ask? || e.AskExternal? || e.AskFail?)
    ensures Inv(Next(s, e))
  {
    if e.AskExternal? && e.lookup in s.asking && RadioKey(s.asking[e.lookup]) in s.external {
      assert FromServer(WriteBackRow(s.external, s.asking[e.lookup]));
    }
  }

  lemma WriteBackKeepsInv(s: State, n: nat, ok: bool)
    requires Inv(s)
    ensures Inv(Next(s, WriteBack(n, ok)))
  {
    if n < |s.tasks| && n !in s.ran && ok {
      InsertKeepsInv(s, s.tasks[n], s.(rows := Inserted(s.rows, s.tasks[n])));
    }
  }

  lemma ReportKeepsInv(s: State, radio: Radio, point: Point, objectType: string)
    requires Inv(s)
    ensures Inv(Next(s, ClientInsert(radio, point, objectType)))
  {
    var row := NewRow(radio, point, "client", objectType);
    assert FromServer(row);
    InsertKeepsInv(s, row, Next(s, ClientInsert(radio, point, objectType)));
  }

  lemma StepKeepsInv(s: State, e: Event)
    requires Inv(s)
    ensures Inv(Next(s, e))
  {
    match e {
      case WriteBack(n, ok) => WriteBackKeepsInv(s, n, ok);
      case ClientInsert(radio, point, objectType) => ReportKeepsInv(s, radio, point, objectType);
      case Start(id) => StartKeepsInv(s, id);
      case FetchFail(id) =>
      case Upsert(id, ok) =>
        if id in s.jobs && Current(s.jobs[id]).Some? {
          UpsertKeepsInv(s, id, ok);
        }
      case SessionUpsert(radio, point, ok) => SessionKeepsInv(s, radio, point, ok);
      case Fetch(id) =>
        if id in s.jobs {
          ReadingKeepsInv(s, id, e);
        }
      case TurnPage(id) =>
        if id in s.jobs {
          ReadingKeepsInv(s, id, e);
        }
      case _ => LookupKeepsInv(s, e);
    }
  }

  /**
    In every state of every run: UpdateDB's keys are unique, each LocateDB row under a key the server
    writes is exactly UpdateDB's row of that key, and every refresh in progress has tried a prefix of
    UpdateDB in order.
    */
  lemma {:induction false} EveryRunIsCoherent(s: State, es: seq<Event>)
    requires Inv(s)
    ensures Inv(Exec(s, es))
    decreases es
  {
    if es != [] {
      StepKeepsInv(s, es[0]);
      EveryRunIsCoherent(Next(s, es[0]), es[1..]);
    }
  }
}
