/** Trade paging of apps/web/lib/backtest-form.ts: pages of one stored list,
    arriving in any order, merged into a view that never shrinks. */
module TradePaging {
  import opened Results

  /** `body` stands for the fields of a trade that paging never looks at. */
  datatype Trade = Trade(seqNo: int, body: int)

  const MAX_BACKTEST_TRADES: nat := 500
  const PAGE_SIZES: seq<nat> := [50, 100, 250, 500]
  const FIRST_TRADES_PAGE: nat := 50

  predicate IsAscending(trades: seq<Trade>) {
    forall i, j | 0 <= i < j < |trades| :: trades[i].seqNo < trades[j].seqNo
  }

  // --------------------------------------------------------------- merging by seq

  /** The Map after setting every trade of the list, in order. */
  function Fill(trades: seq<Trade>): (m: map<int, Trade>)
    ensures forall k | k in m :: m[k].seqNo == k
  {
    if trades == [] then map[]
    else
      var last := trades[|trades| - 1];
      Fill(trades[..|trades| - 1])[last.seqNo := last]
  }

  lemma FillAppend(trades: seq<Trade>, t: Trade)
    ensures Fill(trades + [t]) == Fill(trades)[t.seqNo := t]
  {
    assert (trades + [t])[..|trades|] == trades;
  }

  lemma {:induction false} LeastExists(s: set<int>)
    requires |s| > 0
    ensures exists k :: IsLeast(k, s)
  {
    HasElement(s);
    var x :| x in s;
    var rest := s - {x};
    if |rest| > 0 {
      LeastExists(rest);
      var k :| IsLeast(k, rest);
      assert forall k' | k' in s :: k' == x || k' in rest;
      assert IsLeast(if x < k then x else k, s);
    } else {
      assert forall k' | k' in s :: k' == x || k' in rest;
      assert IsLeast(x, s);
    }
  }

  lemma HasElement(s: set<int>)
    ensures |s| > 0 ==> exists x :: x in s
  {
    if forall x :: x !in s {
      assert s == {};
    }
  }

  predicate IsLeast(k: int, s: set<int>) {
    k in s && forall k' | k' in s :: k <= k'
  }

  function Least(s: set<int>): (k: int)
    requires |s| > 0
    ensures IsLeast(k, s)
  {
    LeastExists(s);
    var k :| IsLeast(k, s);
    k
  }

  predicate IsKeyed(m: map<int, Trade>) {
    forall k | k in m :: m[k].seqNo == k
  }

  /** `[...m.values()].sort((a, b) => a.seq - b.seq)`; the keys are the seq numbers, so no two compare equal. */
  function SortedValues(m: map<int, Trade>): (trades: seq<Trade>)
    decreases |m|
  {
    if |m| == 0 then []
    else
      var k := Least(m.Keys);
      [m[k]] + SortedValues(m - {k})
  }

  lemma {:induction false} SortedValuesHolds(m: map<int, Trade>, t: Trade)
    requires IsKeyed(m)
    ensures t in SortedValues(m) <==> t.seqNo in m && m[t.seqNo] == t
    decreases |m|
  {
    if |m| > 0 {
      var k := Least(m.Keys);
      SortedValuesHolds(m - {k}, t);
    }
  }

  lemma {:induction false} SortedValuesAscends(m: map<int, Trade>)
    requires IsKeyed(m)
    ensures IsAscending(SortedValues(m))
    decreases |m|
  {
    if |m| > 0 {
      var k := Least(m.Keys);
      var rest := SortedValues(m - {k});
      SortedValuesAscends(m - {k});
      forall i | 0 <= i < |rest| ensures k < rest[i].seqNo {
        SortedValuesHolds(m - {k}, rest[i]);
      }
    }
  }

  function Merged(existing: seq<Trade>, incoming: seq<Trade>): seq<Trade> {
    SortedValues(Fill(existing + incoming))
  }

  method MergeTrades(existing: seq<Trade>, incoming: seq<Trade>) returns (merged: seq<Trade>)
    ensures merged == Merged(existing, incoming)
  {
    var bySeq: map<int, Trade> := map[];
    for i := 0 to |existing|
      invariant bySeq == Fill(existing[..i])
    {
      FillAppend(existing[..i], existing[i]);
      assert existing[..i + 1] == existing[..i] + [existing[i]];
      bySeq := bySeq[existing[i].seqNo := existing[i]];
    }
    assert existing[..|existing|] == existing + incoming[..0];
    for i := 0 to |incoming|
      invariant bySeq == Fill(existing + incoming[..i])
    {
      FillAppend(existing + incoming[..i], incoming[i]);
      assert existing + incoming[..i + 1] == existing + incoming[..i] + [incoming[i]];
      bySeq := bySeq[incoming[i].seqNo := incoming[i]];
    }
    assert existing + incoming[..|incoming|] == existing + incoming;
    merged := SortedValues(bySeq);
  }

  /** The last trade with its seq number. */
  predicate IsLast(trades: seq<Trade>, i: nat)
    requires i < |trades|
  {
    forall j | i < j < |trades| :: trades[j].seqNo != trades[i].seqNo
  }

  lemma {:induction false} FillKeepsLast(trades: seq<Trade>, t: Trade)
    ensures t.seqNo in Fill(trades) && Fill(trades)[t.seqNo] == t <==>
            exists i | 0 <= i < |trades| :: trades[i] == t && IsLast(trades, i)
  {
    if trades != [] {
      var n := |trades| - 1;
      var init := trades[..n];
      FillKeepsLast(init, t);
      assert IsLast(trades, n);
      if t.seqNo != trades[n].seqNo {
        assert forall i | 0 <= i < n && trades[i] == t :: IsLast(trades, i) <==> IsLast(init, i);
      }
    }
  }

  /** What merging means: strictly ascending by seq, and for every seq number of
      either list the last trade given for it, an incoming one before an existing one. */
  lemma MergedIsLastWriter(existing: seq<Trade>, incoming: seq<Trade>)
    ensures var all := existing + incoming;
      && IsAscending(Merged(existing, incoming))
      && forall t :: t in Merged(existing, incoming) <==>
                     exists i | 0 <= i < |all| :: all[i] == t && IsLast(all, i)
  {
    var all := existing + incoming;
    SortedValuesAscends(Fill(all));
    forall t
      ensures t in Merged(existing, incoming) <==> exists i | 0 <= i < |all| :: all[i] == t && IsLast(all, i)
    {
      SortedValuesHolds(Fill(all), t);
      FillKeepsLast(all, t);
    }
  }

  /** A strictly ascending list is determined by its trades. */
  lemma {:induction false} AscendingUnique(a: seq<Trade>, b: seq<Trade>)
    requires IsAscending(a) && IsAscending(b)
    requires forall t :: t in a <==> t in b
    ensures a == b
  {
    assert a != [] ==> a[0] in a;
    assert b != [] ==> b[0] in b;
    if a != [] {
      assert a[0] in b && b[0] in a;
      assert a[0] == b[0];
      forall t ensures t in a[1..] <==> t in b[1..] {
        InTail(a, t);
        InTail(b, t);
      }
      AscendingUnique(a[1..], b[1..]);
    }
  }

  lemma InTail(a: seq<Trade>, t: Trade)
    requires IsAscending(a) && a != []
    ensures t in a[1..] <==> t in a && t != a[0]
  {
    assert a == [a[0]] + a[1..];
  }

  // -------------------------------------------------------------------- the view

  datatype View = View(trades: seq<Trade>, truncated: bool, limit: nat)

  const EMPTY_VIEW: View := View([], false, FIRST_TRADES_PAGE)

  function ApplyTradesPage(current: View, page: View): View {
    View(
      Merged(current.trades, page.trades),
      if page.limit >= current.limit then page.truncated else current.truncated,
      if page.limit > current.limit then page.limit else current.limit)
  }

  predicate TradesHasMore(view: View) {
    view.truncated && |view.trades| < MAX_BACKTEST_TRADES
  }

  /** `sizes.find(size => size > loaded)` */
  function FirstAbove(sizes: seq<nat>, loaded: nat): Option<nat> {
    if sizes == [] then None
    else if sizes[0] > loaded then Some(sizes[0])
    else FirstAbove(sizes[1..], loaded)
  }

  function NextTradesPageSize(loaded: nat): Option<nat> {
    FirstAbove(PAGE_SIZES, loaded)
  }

  /** The next size above what is loaded, and none exactly at the storage cap. */
  lemma NextSizeIsLeastAbove(loaded: nat)
    ensures var next := NextTradesPageSize(loaded);
      && (next.None? <==> loaded >= MAX_BACKTEST_TRADES)
      && (next.Some? ==> next.value in PAGE_SIZES && next.value > loaded)
      && (next.Some? ==> forall n | n in PAGE_SIZES && n > loaded :: next.value <= n)
  {
    assert [500][1..] == [] && [250, 500][1..] == [500] && [100, 250, 500][1..] == [250, 500];
    assert PAGE_SIZES[1..] == [100, 250, 500];
    assert FirstAbove([500], loaded) == if loaded < 500 then Some(500) else None;
    assert FirstAbove([250, 500], loaded) == if loaded < 250 then Some(250) else FirstAbove([500], loaded);
    assert FirstAbove([100, 250, 500], loaded) == if loaded < 100 then Some(100) else FirstAbove([250, 500], loaded);
  }

  datatype Caption = NoCaption | StorageCap | LoadMore(loaded: nat)

  function TradesTruncationMessage(truncated: bool, loaded: nat): Caption {
    if !truncated then NoCaption
    else if loaded >= MAX_BACKTEST_TRADES then StorageCap
    else LoadMore(loaded)
  }

  function KeyRange(trades: seq<Trade>): set<int> {
    set t | t in trades :: t.seqNo
  }

  lemma {:induction false} AscendingHasDistinctKeys(trades: seq<Trade>)
    requires IsAscending(trades)
    ensures |KeyRange(trades)| == |trades|
  {
    if trades != [] {
      var n := |trades| - 1;
      AscendingHasDistinctKeys(trades[..n]);
      assert trades == trades[..n] + [trades[n]];
      assert KeyRange(trades) == KeyRange(trades[..n]) + {trades[n].seqNo};
      assert trades[n].seqNo !in KeyRange(trades[..n]);
    }
  }

  lemma {:induction false} FillKeys(trades: seq<Trade>)
    ensures Fill(trades).Keys == KeyRange(trades)
  {
    if trades != [] {
      var n := |trades| - 1;
      FillKeys(trades[..n]);
      assert trades == trades[..n] + [trades[n]];
    }
  }

  lemma SubsetSize(a: set<int>, b: set<int>)
    requires a <= b
    ensures |a| <= |b|
  {
    assert b == a + (b - a);
  }

  /** Whatever page arrives, from whichever run, no seq number on screen
      disappears and the count never decreases. */
  lemma ViewNeverShrinks(current: View, page: View)
    requires IsAscending(current.trades)
    ensures var next := ApplyTradesPage(current, page);
      && IsAscending(next.trades)
      && KeyRange(next.trades) == KeyRange(current.trades) + KeyRange(page.trades)
      && |next.trades| >= |current.trades|
      && next.limit >= current.limit
  {
    MergedKeys(current.trades, page.trades);
    var next := ApplyTradesPage(current, page);
    AscendingHasDistinctKeys(current.trades);
    AscendingHasDistinctKeys(next.trades);
    SubsetSize(KeyRange(current.trades), KeyRange(next.trades));
  }

  lemma MergedKeys(existing: seq<Trade>, incoming: seq<Trade>)
    ensures IsAscending(Merged(existing, incoming))
    ensures KeyRange(Merged(existing, incoming)) == KeyRange(existing) + KeyRange(incoming)
  {
    var all := existing + incoming;
    var m := Fill(all);
    SortedValuesAscends(m);
    FillKeys(all);
    assert KeyRange(all) == KeyRange(existing) + KeyRange(incoming);
    forall k ensures k in KeyRange(SortedValues(m)) <==> k in m.Keys {
      if k in m {
        SortedValuesHolds(m, m[k]);
      }
      forall t | t in SortedValues(m) ensures t.seqNo in m {
        SortedValuesHolds(m, t);
      }
    }
  }

  // --------------------------------------------------------------- pages of one run

  /** A run: how many setups it detected, and the trades stored for it, in seq order. */
  datatype Run = Run(setups: nat, stored: seq<Trade>)

  function Min(a: nat, b: nat): nat {
    if a <= b then a else b
  }

  predicate IsRun(run: Run) {
    IsAscending(run.stored) && |run.stored| == Min(run.setups, MAX_BACKTEST_TRADES)
  }

  /** The response to a request for the first `limit` trades. */
  function Page(run: Run, limit: nat): View {
    var rows := run.stored[..Min(limit, |run.stored|)];
    View(rows, run.setups > |rows| || run.setups > limit, limit)
  }

  lemma MergedPrefixes(stored: seq<Trade>, a: nat, b: nat)
    requires IsAscending(stored) && a <= |stored| && b <= |stored|
    ensures Merged(stored[..a], stored[..b]) == stored[..if a <= b then b else a]
  {
    var merged, longest := Merged(stored[..a], stored[..b]), stored[..if a <= b then b else a];
    var all := stored[..a] + stored[..b];
    MergedIsLastWriter(stored[..a], stored[..b]);
    forall t ensures t in merged <==> t in longest {
      if t in longest {
        var i :| 0 <= i < |longest| && longest[i] == t;
        LastInBothPrefixes(stored, a, b, i);
      }
      assert forall i | 0 <= i < |all| :: all[i] in longest;
    }
    AscendingUnique(merged, longest);
  }

  lemma LastInBothPrefixes(stored: seq<Trade>, a: nat, b: nat, i: nat)
    requires IsAscending(stored) && a <= |stored| && b <= |stored| && (i < a || i < b)
    ensures var all := stored[..a] + stored[..b];
      exists k | 0 <= k < |all| :: all[k] == stored[i] && IsLast(all, k)
  {
    var all := stored[..a] + stored[..b];
    var k := if i < b then a + i else i;
    assert all[k] == stored[i];
    assert forall j | k < j < |all| :: all[j] == if j < a then stored[j] else stored[j - a];
    assert IsLast(all, k);
  }

  /** One more page of the same run: the larger of the two pages is what shows. */
  lemma PageOverPage(run: Run, shown: nat, arriving: nat)
    requires IsRun(run)
    ensures ApplyTradesPage(Page(run, shown), Page(run, arriving)) ==
            Page(run, if arriving > shown then arriving else shown)
  {
    MergedPrefixes(run.stored, Min(shown, |run.stored|), Min(arriving, |run.stored|));
  }

  lemma PageOverEmpty(run: Run, arriving: nat)
    requires IsRun(run) && arriving >= FIRST_TRADES_PAGE
    ensures ApplyTradesPage(EMPTY_VIEW, Page(run, arriving)) == Page(run, arriving)
  {
    MergedPrefixes(run.stored, 0, Min(arriving, |run.stored|));
    assert run.stored[..0] == [];
  }

  /** The view after the responses to these requests, in order of arrival. */
  function Replay(run: Run, limits: seq<nat>): View {
    if limits == [] then EMPTY_VIEW
    else ApplyTradesPage(Replay(run, limits[..|limits| - 1]), Page(run, limits[|limits| - 1]))
  }

  function Largest(limits: seq<nat>): nat {
    if limits == [] then 0
    else
      var rest := Largest(limits[..|limits| - 1]);
      if limits[|limits| - 1] > rest then limits[|limits| - 1] else rest
  }

  predicate AreRequests(limits: seq<nat>) {
    limits != [] && forall n | n in limits :: n in PAGE_SIZES
  }

  /** Over any sequence of responses, in any order and with repeats, the view is
      the largest page requested so far: its rows, its flag and its limit. */
  lemma {:induction false} ViewIsLargestPage(run: Run, limits: seq<nat>)
    requires IsRun(run) && AreRequests(limits)
    ensures Replay(run, limits) == Page(run, Largest(limits))
    ensures Largest(limits) in limits
  {
    var init, last := limits[..|limits| - 1], limits[|limits| - 1];
    assert last in limits;
    if init == [] {
      PageOverEmpty(run, last);
    } else {
      ViewIsLargestPage(run, init);
      PageOverPage(run, Largest(init), last);
    }
  }

  lemma {:induction false} LargestIsUpperBound(limits: seq<nat>)
    ensures forall n | n in limits :: n <= Largest(limits)
  {
    if limits != [] {
      LargestIsUpperBound(limits[..|limits| - 1]);
      assert limits == limits[..|limits| - 1] + [limits[|limits| - 1]];
    }
  }

  /** Any two orders of the same requests, repeated any number of times, converge. */
  lemma ArrivalOrderIsIrrelevant(run: Run, a: seq<nat>, b: seq<nat>)
    requires IsRun(run) && AreRequests(a) && AreRequests(b)
    requires forall n :: n in a <==> n in b
    ensures Replay(run, a) == Replay(run, b)
  {
    ViewIsLargestPage(run, a);
    ViewIsLargestPage(run, b);
    LargestIsUpperBound(a);
    LargestIsUpperBound(b);
  }

  // ------------------------------------------------------------------- "load more"

  /** While there is more, a larger page exists and brings strictly more rows;
      once there is not, every stored trade is shown. */
  lemma LoadMoreMakesProgress(run: Run, limits: seq<nat>)
    requires IsRun(run) && AreRequests(limits)
    ensures var view := Replay(run, limits);
      if TradesHasMore(view) then
        var next := NextTradesPageSize(|view.trades|);
        && next.Some? && next.value in PAGE_SIZES && next.value > |view.trades|
        && |Replay(run, limits + [next.value]).trades| > |view.trades|
      else view.trades == run.stored
  {
    ViewIsLargestPage(run, limits);
    var view := Replay(run, limits);
    LargestIsUpperBound(limits);
    NextSizeIsLeastAbove(|view.trades|);
    if TradesHasMore(view) {
      var next := NextTradesPageSize(|view.trades|).value;
      ViewIsLargestPage(run, limits + [next]);
      assert (limits + [next])[..|limits|] == limits;
    }
  }

  /** Pressing "load more" until it is no longer offered. */
  function LoadAll(run: Run, limits: seq<nat>): View
    requires IsRun(run) && AreRequests(limits)
    decreases MAX_BACKTEST_TRADES - |Replay(run, limits).trades|
  {
    var view := Replay(run, limits);
    if !TradesHasMore(view) then view
    else
      LoadMoreMakesProgress(run, limits);
      LoadAll(run, limits + [NextTradesPageSize(|view.trades|).value])
  }

  /** It stops, and then the view is exactly what the run stores. */
  lemma {:induction false} LoadAllShowsEverything(run: Run, limits: seq<nat>)
    requires IsRun(run) && AreRequests(limits)
    ensures LoadAll(run, limits).trades == run.stored && !TradesHasMore(LoadAll(run, limits))
    ensures LoadAll(run, limits).truncated <==> run.setups > MAX_BACKTEST_TRADES
    decreases MAX_BACKTEST_TRADES - |Replay(run, limits).trades|
  {
    LoadMoreMakesProgress(run, limits);
    var view := Replay(run, limits);
    if TradesHasMore(view) {
      LoadAllShowsEverything(run, limits + [NextTradesPageSize(|view.trades|).value]);
    } else {
      ViewIsLargestPage(run, limits);
    }
  }

  /** The caption says "load more" exactly when more is offered, says nothing
      exactly when the view is the whole run, and names the storage cap exactly
      when the run has more setups than can ever be shown. */
  lemma CaptionIsHonest(run: Run, limits: seq<nat>)
    requires IsRun(run) && AreRequests(limits)
    ensures var view := Replay(run, limits);
      var caption := TradesTruncationMessage(view.truncated, |view.trades|);
      && (caption.LoadMore? <==> TradesHasMore(view))
      && (caption.LoadMore? <==> view.trades != run.stored)
      && (caption.NoCaption? <==> |view.trades| == run.setups)
      && (caption.StorageCap? <==> view.trades == run.stored && run.setups > MAX_BACKTEST_TRADES)
      && (caption.LoadMore? ==> caption.loaded == |view.trades| < run.setups)
  {
    ViewIsLargestPage(run, limits);
    LoadMoreMakesProgress(run, limits);
  }
}
