/**
  A refresh of one table as a thread of its own: single fetches and single upserts, with anything
  happening in between (internal/service/refresh.go, the three paging loops).

  Refresh runs its three tables one after the other.  Here each table's loop is a job by itself, which
  allows more interleavings than the server has.
  */
module Paging {
  import opened Wrappers
  import opened Repositories
  import opened Refresh

  /**
    `start` is the size of the source when the job began, `page` the rows of the last fetch while they
    are being upserted, `next` the position in that page.  `tried`, `total` and `clean` record what the
    job did: the rows it tried, how many upserts succeeded, and that none failed.
    */
  datatype Job<T> = Job(start: nat, offset: nat, page: Option<seq<T>>, next: nat,
                        tried: seq<T>, total: nat, clean: bool, done: bool)

  function NewJob<T>(source: seq<T>): Job<T> {
    Job(|source|, 0, None, 0, [], 0, true, false)
  }

  function AfterFetch<T>(j: Job<T>, source: seq<T>): Job<T> {
    if j.done || j.page.Some? then j
    else j.(page := Some(Page(source, j.offset, PAGE_SIZE)), next := 0)
  }

  /** The row whose upsert is next. */
  function Current<T>(j: Job<T>): Option<T> {
    if j.page.Some? && j.next < |j.page.value| then Some(j.page.value[j.next]) else None
  }

  function AfterUpsert<T>(j: Job<T>, ok: bool): Job<T> {
    if Current(j).None? then j
    else
      j.(next := j.next + 1, tried := j.tried + [Current(j).value],
         total := if ok then j.total + 1 else j.total, clean := j.clean && ok)
  }

  /** The end of a page: the last one if it is short. */
  function AfterPage<T>(j: Job<T>): Job<T> {
    if j.page.None? || j.next < |j.page.value| then j
    else if |j.page.value| < PAGE_SIZE then j.(page := None, done := true)
    else j.(offset := j.offset + |j.page.value|, page := None)
  }

  /**
    What holds of a job between any two of its steps: it has tried a prefix of the table, each row once
    and in order, and a finished job's prefix covers all rows that were there when it began.
    */
  ghost predicate Tracks<T>(j: Job<T>, source: seq<T>) {
    && j.start <= |source|
    && |j.tried| <= |source| && j.tried == source[..|j.tried|]
    && j.total <= |j.tried| && (j.clean <==> j.total == |j.tried|)
    && (j.done ==> j.page.None? && j.start <= |j.tried|)
    && (!j.done && j.page.None? ==> j.offset == |j.tried|)
    && (j.page.Some? ==>
          var page := j.page.value;
          && j.offset + |page| <= |source| && page == source[j.offset..j.offset + |page|]
          && j.next <= |page| <= PAGE_SIZE && j.offset + j.next == |j.tried|
          && (|page| < PAGE_SIZE ==> j.start <= j.offset + |page|))
  }

  lemma NewJobTracks<T>(source: seq<T>)
    ensures Tracks(NewJob(source), source)
  {
  }

  /** Appending to the source disturbs no job. */
  lemma TracksAppend<T>(j: Job<T>, source: seq<T>, more: seq<T>)
    requires Tracks(j, source)
    ensures Tracks(j, source + more)
  {
    assert (source + more)[..|j.tried|] == source[..|j.tried|];
    if j.page.Some? {
      var n := |j.page.value|;
      assert (source + more)[j.offset..j.offset + n] == source[j.offset..j.offset + n];
    }
  }

  lemma TracksFetch<T>(j: Job<T>, source: seq<T>)
    requires Tracks(j, source)
    ensures Tracks(AfterFetch(j, source), source)
  {
  }

  lemma TracksUpsert<T>(j: Job<T>, source: seq<T>, ok: bool)
    requires Tracks(j, source)
    ensures Tracks(AfterUpsert(j, ok), source)
    ensures Current(j).Some? ==> Current(j).value == source[|j.tried|]
  {
    if Current(j).Some? {
      assert source[..|j.tried|] + [source[|j.tried|]] == source[..|j.tried| + 1];
    }
  }

  lemma TracksPage<T>(j: Job<T>, source: seq<T>)
    requires Tracks(j, source)
    ensures Tracks(AfterPage(j), source)
  {
  }

  // ---------- a job that nobody interrupts is the loop of RefreshService ----------

  /** `k` upserts in a row. */
  function Upserts<T>(j: Job<T>, k: nat, rejected: nat -> bool): Job<T> {
    if k == 0 then j
    else
      var before := Upserts(j, k - 1, rejected);
      AfterUpsert(before, !rejected(|before.tried|))
  }

  /** One turn of the outer loop: fetch, upsert the whole page, go on or end. */
  function Turn<T>(j: Job<T>, source: seq<T>, rejected: nat -> bool): Job<T> {
    var fetched := AfterFetch(j, source);
    AfterPage(Upserts(fetched, if fetched.page.Some? then |fetched.page.value| else 0, rejected))
  }

  /** A job between two turns that has tried, and counted, the first rows up to its offset. */
  predicate BetweenTurns<T(==)>(j: Job<T>, rows: seq<T>, rejected: nat -> bool) {
    && j.page.None? && !j.done && j.offset <= |rows|
    && j.tried == rows[..j.offset] && j.total == Accepted(j.offset, rejected)
  }

  lemma {:induction false} UpsertsOfPage<T>(j: Job<T>, k: nat, rejected: nat -> bool)
    requires j.page.Some? && j.next == 0 && k <= |j.page.value|
    requires j.total == Accepted(|j.tried|, rejected)
    ensures var r := Upserts(j, k, rejected);
            && r.page == j.page && r.offset == j.offset && r.done == j.done && r.next == k
            && r.tried == j.tried + j.page.value[..k]
            && r.total == Accepted(|j.tried| + k, rejected)
  {
    if k > 0 {
      UpsertsOfPage(j, k - 1, rejected);
      OneRowMore(j.page.value, k - 1);
      assert j.tried + j.page.value[..k] == j.tried + j.page.value[..k - 1] + [j.page.value[k - 1]];
    }
  }

  lemma OnePageMore<T>(source: seq<T>, offset: nat)
    requires offset <= |source|
    ensures var page := Page(source, offset, PAGE_SIZE);
            && offset + |page| <= |source| && |page| <= PAGE_SIZE
            && source[..offset] + page == source[..offset + |page|]
  {
    var page := Page(source, offset, PAGE_SIZE);
    assert page == source[offset..offset + |page|];
  }

  lemma OneTurn<T>(j: Job<T>, source: seq<T>, rejected: nat -> bool)
    requires BetweenTurns(j, source, rejected)
    ensures var r, size := Turn(j, source, rejected), |Page(source, j.offset, PAGE_SIZE)|;
            && j.offset + size <= |source| && r.page.None?
            && r.tried == source[..j.offset + size] && r.total == Accepted(j.offset + size, rejected)
            && (if size < PAGE_SIZE then r.done else !r.done && r.offset == j.offset + size)
  {
    var page := Page(source, j.offset, PAGE_SIZE);
    OnePageMore(source, j.offset);
    UpsertsOfPage(AfterFetch(j, source), |page|, rejected);
    assert page[..|page|] == page;
  }

  lemma OneTurnOfFeed<T>(feed: Feed<T>, n: nat, j: Job<T>, rejected: nat -> bool)
    requires feed.Valid() && j.offset <= feed.visible(n) && feed.visible(n) <= |feed.rows| && !feed.down(n)
    requires BetweenTurns(j, feed.rows, rejected)
    ensures var r := Turn(j, feed.rows[..feed.visible(n)], rejected);
            if r.done then
              var (k, complete) := Reach(feed, n, j.offset);
              complete && r.tried == feed.rows[..k] && r.total == Accepted(k, rejected)
            else
              && j.offset < r.offset <= feed.visible(n + 1) && BetweenTurns(r, feed.rows, rejected)
              && Reach(feed, n, j.offset) == Reach(feed, n + 1, r.offset)
  {
    assert feed.visible(n) <= feed.visible(n + 1) <= |feed.rows|;
    var source := feed.rows[..feed.visible(n)];
    assert source[..j.offset] == feed.rows[..j.offset];
    OneTurn(j, source, rejected);
    var k := j.offset + |Page(source, j.offset, PAGE_SIZE)|;
    assert source[..k] == feed.rows[..k];
  }

  /** The job `j` by itself from the n-th fetch on: until it is done, or a fetch fails. */
  ghost function Alone<T>(feed: Feed<T>, n: nat, j: Job<T>, rejected: nat -> bool): Job<T>
    requires feed.Valid() && j.offset <= feed.visible(n) && BetweenTurns(j, feed.rows, rejected)
    decreases |feed.rows| - j.offset
  {
    if feed.down(n) then j
    else
      assert feed.visible(n) <= feed.visible(n + 1) <= |feed.rows|;
      OneTurnOfFeed(feed, n, j, rejected);
      var after := Turn(j, feed.rows[..feed.visible(n)], rejected);
      if after.done then after else Alone(feed, n + 1, after, rejected)
  }

  /**
    A job that nobody interrupts does what the loop of RefreshService is proved to do: the same rows in
    the same order, the same total, and the same end.
    */
  lemma {:induction false} LoneJobIsTheLoop<T>(feed: Feed<T>, n: nat, j: Job<T>, rejected: nat -> bool)
    requires feed.Valid() && j.offset <= feed.visible(n) && BetweenTurns(j, feed.rows, rejected)
    ensures var r, (k, complete) := Alone(feed, n, j, rejected), Reach(feed, n, j.offset);
            r.done == complete && r.tried == feed.rows[..k] && r.total == Accepted(k, rejected)
    decreases |feed.rows| - j.offset
  {
    if !feed.down(n) {
      assert feed.visible(n) <= feed.visible(n + 1) <= |feed.rows|;
      OneTurnOfFeed(feed, n, j, rejected);
      var after := Turn(j, feed.rows[..feed.visible(n)], rejected);
      if !after.done {
        LoneJobIsTheLoop(feed, n + 1, after, rejected);
      }
    }
  }
}
