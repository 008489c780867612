/**
  One refresh: paging UpdateDB into LocateDB (internal/service/refresh.go).

  The source table may grow while it is being paged.  A feed gives all the rows it will ever have, how
  many of them each fetch could see, and which fetches fail.  The upserts that fail are those whose
  attempt number is in `rejected`.
  */
module Refresh {
  import opened Wrappers
  import opened Domain
  import opened Repositories

  const PAGE_SIZE: nat := 1000

  datatype Feed<T> = Feed(rows: seq<T>, visible: nat -> nat, down: nat -> bool) {
    /** Rows are only appended. */
    ghost predicate Valid() {
      forall m: nat, n: nat :: m <= n ==> visible(m) <= visible(n) <= |rows|
    }
  }

  /**
    How many rows a refresh tries, and whether it got to the end, when the n-th fetch is about to read
    from `offset`.
    */
  ghost function Reach<T>(feed: Feed<T>, n: nat, offset: nat): (r: (nat, bool))
    requires feed.Valid() && offset <= feed.visible(n)
    ensures offset <= r.0 <= |feed.rows|
    decreases |feed.rows| - offset
  {
    assert feed.visible(n) <= feed.visible(n + 1) <= |feed.rows|;
    if feed.down(n) then (offset, false)
    else if feed.visible(n) - offset < PAGE_SIZE then (feed.visible(n), true)
    else Reach(feed, n + 1, offset + PAGE_SIZE)
  }

  /** The `last`-th fetch is the first that fails or sees no further full page; all before it saw one. */
  ghost predicate IsLastFetch<T>(feed: Feed<T>, from: nat, last: nat) {
    && from <= last
    && (forall i: nat :: from <= i < last ==> !feed.down(i) && feed.visible(i) >= (i + 1) * PAGE_SIZE)
    && (feed.down(last) || feed.visible(last) < (last + 1) * PAGE_SIZE)
  }

  lemma {:induction false} ReachEndsAt<T>(feed: Feed<T>, n: nat)
    requires feed.Valid() && n * PAGE_SIZE <= feed.visible(n)
    ensures var (k, complete) := Reach(feed, n, n * PAGE_SIZE);
            var last := k / PAGE_SIZE;
            && IsLastFetch(feed, n, last) && complete == !feed.down(last)
            && k == if complete then feed.visible(last) else last * PAGE_SIZE
    decreases |feed.rows| - n * PAGE_SIZE
  {
    assert feed.visible(n) <= feed.visible(n + 1) <= |feed.rows|;
    if !feed.down(n) && feed.visible(n) - n * PAGE_SIZE >= PAGE_SIZE {
      ReachEndsAt(feed, n + 1);
    }
  }

  /**
    Whatever is appended meanwhile, a refresh ends with the first fetch that fails or returns less than a
    full page.  If that fetch does not fail, the refresh tried exactly the rows that this last fetch could
    see, so at least all that were there at the start; if it fails, exactly the full pages before it.
    */
  lemma PagingIsExact<T>(feed: Feed<T>)
    requires feed.Valid()
    ensures var (k, complete) := Reach(feed, 0, 0);
            var last := k / PAGE_SIZE;
            && k <= |feed.rows|
            && IsLastFetch(feed, 0, last)
            && (complete ==> feed.visible(0) <= k && feed.visible(last) == k && !feed.down(last))
            && (!complete ==> feed.down(last) && k == last * PAGE_SIZE)
  {
    ReachEndsAt(feed, 0);
    var last := Reach(feed, 0, 0).0 / PAGE_SIZE;
    assert feed.visible(0) <= feed.visible(last);
  }

  lemma OneRowMore<T>(all: seq<T>, n: nat)
    requires n < |all|
    ensures all[..n + 1] == all[..n] + [all[n]]
  {
  }

  /** A fetch that succeeds: the rows it returns, and what is left to do after them. */
  method Fetch<T>(feed: Feed<T>, n: nat, offset: nat) returns (page: seq<T>)
    requires feed.Valid() && offset <= feed.visible(n) && !feed.down(n)
    ensures offset + |page| <= feed.visible(n) <= feed.visible(n + 1) <= |feed.rows|
    ensures forall i :: 0 <= i < |page| ==> page[i] == feed.rows[offset + i]
    ensures Reach(feed, n, offset)
         == if |page| < PAGE_SIZE then (offset + |page|, true) else Reach(feed, n + 1, offset + |page|)
  {
    assert feed.visible(n) <= feed.visible(n + 1) <= |feed.rows|;
    page := FetchPage(feed.rows[..feed.visible(n)], offset, PAGE_SIZE);
  }

  datatype Stats = Stats(cells: nat, wifis: nat, ips: nat)

  class RefreshService {
    const dst: LocateRepo

    constructor (dst: LocateRepo)
      ensures this.dst == dst
    {
      this.dst := dst;
    }

    /** The inner loop over one page of cells: a failed upsert is skipped and not counted. */
    method UpsertCells(table: CellTable, page: seq<CellRow>, rejected: nat -> bool,
                       ghost before: CellIndex, ghost all: seq<CellRow>, offset: nat)
      returns (upserted: nat)
      requires offset + |page| <= |all| && forall i :: 0 <= i < |page| ==> page[i] == all[offset + i]
      requires table.rows == AppliedCells(before, all[..offset], rejected)
      modifies table
      ensures table.rows == AppliedCells(before, all[..offset + |page|], rejected)
      ensures Accepted(offset, rejected) + upserted == Accepted(offset + |page|, rejected)
    {
      upserted := 0;
      for i := 0 to |page|
        invariant Accepted(offset, rejected) + upserted == Accepted(offset + i, rejected)
        invariant table.rows == AppliedCells(before, all[..offset + i], rejected)
      {
        var one := table.UpsertNext(page[i], offset + i, rejected, before, all[..offset + i]);
        OneRowMore(all, offset + i);
        upserted := upserted + one;
      }
    }

    method RefreshCells(feed: Feed<CellRow>, table: CellTable, rejected: nat -> bool) returns (total: nat, ok: bool)
      requires feed.Valid()
      modifies table
      ensures ok == Reach(feed, 0, 0).1
      ensures total == Accepted(Reach(feed, 0, 0).0, rejected)
      ensures table.rows == AppliedCells(old(table.rows), feed.rows[..Reach(feed, 0, 0).0], rejected)
    {
      ghost var before, goal := table.rows, Reach(feed, 0, 0);
      var offset, n := 0, 0;
      total := 0;
      while true
        invariant 0 <= n && 0 <= offset <= feed.visible(n) <= |feed.rows|
        invariant goal == Reach(feed, n, offset)
        invariant total == Accepted(offset, rejected)
        invariant table.rows == AppliedCells(before, feed.rows[..offset], rejected)
        decreases |feed.rows| - offset
      {
        if feed.down(n) {
          return total, false;
        }
        var rows := Fetch(feed, n, offset);
        var upserted := UpsertCells(table, rows, rejected, before, feed.rows, offset);
        total := total + upserted;
        if |rows| < PAGE_SIZE {
          return total, true;
        }
        offset := offset + |rows|;
        n := n + 1;
      }
    }

    /** The inner loop over one page of wifis or ips: a failed upsert is skipped and not counted. */
    method UpsertSpots(table: SpotTable, page: seq<SpotRow>, rejected: nat -> bool,
                       ghost before: SpotIndex, ghost all: seq<SpotRow>, offset: nat)
      returns (upserted: nat)
      requires offset + |page| <= |all| && forall i :: 0 <= i < |page| ==> page[i] == all[offset + i]
      requires table.rows == AppliedSpots(before, all[..offset], rejected)
      modifies table
      ensures table.rows == AppliedSpots(before, all[..offset + |page|], rejected)
      ensures Accepted(offset, rejected) + upserted == Accepted(offset + |page|, rejected)
    {
      upserted := 0;
      for i := 0 to |page|
        invariant Accepted(offset, rejected) + upserted == Accepted(offset + i, rejected)
        invariant table.rows == AppliedSpots(before, all[..offset + i], rejected)
      {
        var one := table.UpsertNext(page[i], offset + i, rejected, before, all[..offset + i]);
        OneRowMore(all, offset + i);
        upserted := upserted + one;
      }
    }

    /** refreshWifis and refreshIPs: the same loop over the two tables of spots. */
    method RefreshSpots(feed: Feed<SpotRow>, table: SpotTable, rejected: nat -> bool) returns (total: nat, ok: bool)
      requires feed.Valid()
      modifies table
      ensures ok == Reach(feed, 0, 0).1
      ensures total == Accepted(Reach(feed, 0, 0).0, rejected)
      ensures table.rows == AppliedSpots(old(table.rows), feed.rows[..Reach(feed, 0, 0).0], rejected)
    {
      ghost var before, goal := table.rows, Reach(feed, 0, 0);
      var offset, n := 0, 0;
      total := 0;
      while true
        invariant 0 <= n && 0 <= offset <= feed.visible(n) <= |feed.rows|
        invariant goal == Reach(feed, n, offset)
        invariant total == Accepted(offset, rejected)
        invariant table.rows == AppliedSpots(before, feed.rows[..offset], rejected)
        decreases |feed.rows| - offset
      {
        if feed.down(n) {
          return total, false;
        }
        var rows := Fetch(feed, n, offset);
        var upserted := UpsertSpots(table, rows, rejected, before, feed.rows, offset);
        total := total + upserted;
        if |rows| < PAGE_SIZE {
          return total, true;
        }
        offset := offset + |rows|;
        n := n + 1;
      }
    }

    /** Cells, then wifis, then ips; the first table that cannot be read ends it. */
    method Refresh(cells: Feed<CellRow>, wifis: Feed<SpotRow>, ips: Feed<SpotRow>,
                   rejectedCells: nat -> bool, rejectedWifis: nat -> bool, rejectedIps: nat -> bool)
      returns (stats: Stats, ok: bool)
      requires cells.Valid() && wifis.Valid() && ips.Valid()
      requires dst.wifi != dst.ip
      modifies dst.cells, dst.wifi, dst.ip
      ensures ok == (Reach(cells, 0, 0).1 && Reach(wifis, 0, 0).1 && Reach(ips, 0, 0).1)
      ensures dst.cells.rows == AppliedCells(old(dst.cells.rows), cells.rows[..Reach(cells, 0, 0).0], rejectedCells)
      ensures dst.wifi.rows == if Reach(cells, 0, 0).1
                then AppliedSpots(old(dst.wifi.rows), wifis.rows[..Reach(wifis, 0, 0).0], rejectedWifis)
                else old(dst.wifi.rows)
      ensures dst.ip.rows == if Reach(cells, 0, 0).1 && Reach(wifis, 0, 0).1
                then AppliedSpots(old(dst.ip.rows), ips.rows[..Reach(ips, 0, 0).0], rejectedIps)
                else old(dst.ip.rows)
      ensures stats.cells == Accepted(Reach(cells, 0, 0).0, rejectedCells)
      ensures stats.wifis == if Reach(cells, 0, 0).1 then Accepted(Reach(wifis, 0, 0).0, rejectedWifis) else 0
      ensures stats.ips == if Reach(cells, 0, 0).1 && Reach(wifis, 0, 0).1
                then Accepted(Reach(ips, 0, 0).0, rejectedIps) else 0
    {
      var cellsUpserted, wifisUpserted, ipsUpserted := 0, 0, 0;
      cellsUpserted, ok := RefreshCells(cells, dst.cells, rejectedCells);
      if !ok {
        return Stats(cellsUpserted, 0, 0), false;
      }
      wifisUpserted, ok := RefreshSpots(wifis, dst.wifi, rejectedWifis);
      if !ok {
        return Stats(cellsUpserted, wifisUpserted, 0), false;
      }
      ipsUpserted, ok := RefreshSpots(ips, dst.ip, rejectedIps);
      return Stats(cellsUpserted, wifisUpserted, ipsUpserted), ok;
    }
  }

  /**
    A refresh of wifi or ip that runs alone and without failures leaves, for every name in the rows it
    covers, the point of that name's last row, and leaves all other names alone.
    */
  lemma LoneRefreshKeepsLatest(before: SpotIndex, feed: Feed<SpotRow>, rejected: nat -> bool, name: string)
    requires feed.Valid() && Reach(feed, 0, 0).1
    requires forall i: nat :: i < Reach(feed, 0, 0).0 ==> !rejected(i)
    ensures var k := Reach(feed, 0, 0).0;
            var after, last := AppliedSpots(before, feed.rows[..k], rejected), LastPoint(feed.rows[..k], name);
            && feed.visible(0) <= k
            && (name in after <==> name in before || last.Some?)
            && (name in after ==> after[name] == if last.Some? then last.value else before[name])
  {
    PagingIsExact(feed);
    LastRowWins(before, feed.rows[..Reach(feed, 0, 0).0], rejected, name);
  }

  /** The i-th row is the last one under `key`. */
  predicate IsLastOf(rows: seq<CellRow>, i: nat, key: CellKey) {
    i < |rows| && KeyOf(rows[i].tower) == key && forall m :: i < m < |rows| ==> KeyOf(rows[m].tower) != key
  }

  lemma {:induction false} LastAcceptedIsLast(rows: seq<CellRow>, i: nat, key: CellKey, rejected: nat -> bool)
    requires IsLastOf(rows, i, key) && !rejected(i)
    ensures LastAccepted(rows, key, rejected) == Some(rows[i])
  {
    if i < |rows| - 1 {
      LastAcceptedIsLast(rows[..|rows| - 1], i, key, rejected);
    }
  }

  lemma {:induction false} NoneAccepted(rows: seq<CellRow>, key: CellKey, rejected: nat -> bool)
    requires forall i :: 0 <= i < |rows| ==> KeyOf(rows[i].tower) != key
    ensures LastAccepted(rows, key, rejected).None?
  {
    if rows != [] {
      NoneAccepted(rows[..|rows| - 1], key, rejected);
    }
  }

  /**
    A refresh of cells that runs alone and without failures leaves under every key that the rows it covers
    have the coordinates, metro flag and source of the key's last row, and leaves all other keys alone.
    */
  lemma LoneRefreshKeepsCells(before: CellIndex, feed: Feed<CellRow>, rejected: nat -> bool, key: CellKey)
    requires feed.Valid() && Reach(feed, 0, 0).1
    requires forall i: nat :: i < Reach(feed, 0, 0).0 ==> !rejected(i)
    ensures var rows := feed.rows[..Reach(feed, 0, 0).0];
            var after := AppliedCells(before, rows, rejected);
            && feed.visible(0) <= |rows|
            && (forall i: nat :: IsLastOf(rows, i, key) ==>
                  key in after && after[key].(tower := rows[i].tower) == Indexed(rows[i]))
            && ((forall i :: 0 <= i < |rows| ==> KeyOf(rows[i].tower) != key) ==>
                  (key in after <==> key in before) && (key in after ==> after[key] == before[key]))
  {
    PagingIsExact(feed);
    var rows := feed.rows[..Reach(feed, 0, 0).0];
    LastCellRowWins(before, rows, rejected, key);
    forall i: nat | IsLastOf(rows, i, key) ensures LastAccepted(rows, key, rejected) == Some(rows[i]) {
      LastAcceptedIsLast(rows, i, key, rejected);
    }
    if forall i :: 0 <= i < |rows| ==> KeyOf(rows[i].tower) != key {
      NoneAccepted(rows, key, rejected);
    }
  }
}
