/** The summary route of tuba_backend/src/server.js: the user's entries of the last `days`
    days grouped by day key, the groups in date order, and the totals over the groups. */
module EntrySummary {

  import opened Wrappers
  import opened Calendar
  import opened EntryLedger
  import opened Sorting

  /** One `$group` row: the day key, the sums of both amounts, and the date of the first
      entry of the group in storage order (`$first`). */
  datatype DayRow = DayRow(dayKey: string, totalWater: nat, totalFertilizer: nat, date: JsTime)

  datatype Totals = Totals(water: nat, fert: nat)

  datatype SummaryReply = SummaryReply(periodDays: int, totals: Totals, days: seq<DayRow>)

  /** `Number(req.query.days || 7)`: a missing or empty parameter means seven days. */
  function PeriodDays(days: Option<int>): int {
    if days.Some? then days.value else 7
  }

  /** Start of the window: `days - 1` whole days before now. */
  function WindowStart(days: int, now: JsTime): int {
    now - (days - 1) * MsPerDay
  }

  predicate InWindow(e: Entry, userId: string, from: int) {
    e.userId == userId && e.date >= from
  }

  /** The `$match` stage, in storage order. */
  function Matched(es: seq<Entry>, userId: string, from: int): (r: seq<Entry>)
    ensures forall e :: e in r <==> e in es && InWindow(e, userId, from)
  {
    if es == [] then []
    else
      var rest := Matched(es[..|es| - 1], userId, from);
      assert es == es[..|es| - 1] + [es[|es| - 1]];
      if InWindow(es[|es| - 1], userId, from) then rest + [es[|es| - 1]] else rest
  }

  /** Day keys of the entries. */
  function DayKeys(es: seq<Entry>): set<string> {
    if es == [] then {} else DayKeys(es[..|es| - 1]) + {es[|es| - 1].dayKey}
  }

  /** Sum of the water amounts of the entries with day key `k`. */
  function WaterOn(es: seq<Entry>, k: string): nat {
    if es == [] then 0
    else WaterOn(es[..|es| - 1], k) + (if es[|es| - 1].dayKey == k then es[|es| - 1].waterAmount else 0)
  }

  function FertilizerOn(es: seq<Entry>, k: string): nat {
    if es == [] then 0
    else FertilizerOn(es[..|es| - 1], k) + (if es[|es| - 1].dayKey == k then es[|es| - 1].fertilizerAmount else 0)
  }

  /** Date of the first entry with day key `k`, if any. */
  function FirstDate(es: seq<Entry>, k: string): Option<JsTime> {
    if es == [] then None
    else
      var f := FirstDate(es[..|es| - 1], k);
      if f.Some? then f else if es[|es| - 1].dayKey == k then Some(es[|es| - 1].date) else None
  }

  function TotalWater(es: seq<Entry>): nat {
    if es == [] then 0 else TotalWater(es[..|es| - 1]) + es[|es| - 1].waterAmount
  }

  function TotalFertilizer(es: seq<Entry>): nat {
    if es == [] then 0 else TotalFertilizer(es[..|es| - 1]) + es[|es| - 1].fertilizerAmount
  }

  function RowKeys(rows: seq<DayRow>): set<string> {
    if rows == [] then {} else {rows[0].dayKey} + RowKeys(rows[1..])
  }

  /** No two rows share a day key. */
  predicate RowKeysDistinct(rows: seq<DayRow>) {
    rows == [] || (rows[0].dayKey !in RowKeys(rows[1..]) && RowKeysDistinct(rows[1..]))
  }

  /** Feed one entry to the grouping: add to the row of its day, or open a new row last. */
  function AddToRows(rows: seq<DayRow>, e: Entry): seq<DayRow> {
    if rows == [] then [DayRow(e.dayKey, e.waterAmount, e.fertilizerAmount, e.date)]
    else if rows[0].dayKey == e.dayKey then
      [rows[0].(totalWater := rows[0].totalWater + e.waterAmount,
                totalFertilizer := rows[0].totalFertilizer + e.fertilizerAmount)] + rows[1..]
    else [rows[0]] + AddToRows(rows[1..], e)
  }

  /** The `$group` stage on `_id: "$dayKey"`, before sorting. */
  function GroupByDay(es: seq<Entry>): seq<DayRow> {
    if es == [] then [] else AddToRows(GroupByDay(es[..|es| - 1]), es[|es| - 1])
  }

  /** The `reduce` over the rows, from `{ water: 0, fert: 0 }`. */
  function FoldTotals(rows: seq<DayRow>): Totals {
    if rows == [] then Totals(0, 0)
    else
      var acc := FoldTotals(rows[..|rows| - 1]);
      Totals(acc.water + rows[|rows| - 1].totalWater, acc.fert + rows[|rows| - 1].totalFertilizer)
  }

  function RowDate(r: DayRow): int {
    r.date
  }

  /** The reply of `GET /api/entries/:userId/summary`. */
  function Summarize(es: seq<Entry>, userId: string, days: Option<int>, now: JsTime): SummaryReply {
    var d := PeriodDays(days);
    var rows := SortBy(GroupByDay(Matched(es, userId, WindowStart(d, now))), RowDate);
    SummaryReply(d, FoldTotals(rows), rows)
  }

  // Keys

  lemma {:induction false} RowKeysMembers(rows: seq<DayRow>)
    ensures forall r :: r in rows ==> r.dayKey in RowKeys(rows)
    ensures forall k :: k in RowKeys(rows) ==> exists r :: r in rows && r.dayKey == k
  {
    if rows != [] {
      RowKeysMembers(rows[1..]);
      assert rows == [rows[0]] + rows[1..];
    }
  }

  /** Distinct keys in the recursive sense are distinct pairwise. */
  lemma {:induction false} RowKeysDistinctPairwise(rows: seq<DayRow>)
    requires RowKeysDistinct(rows)
    ensures forall i, j :: 0 <= i < j < |rows| ==> rows[i].dayKey != rows[j].dayKey
  {
    if rows != [] {
      RowKeysDistinctPairwise(rows[1..]);
      RowKeysMembers(rows[1..]);
      forall i, j | 0 <= i < j < |rows| ensures rows[i].dayKey != rows[j].dayKey {
        assert rows[j] == rows[1..][j - 1];
        assert rows[j] in rows[1..];
        if i > 0 {
          assert rows[i] == rows[1..][i - 1];
        }
      }
    }
  }

  /** Rows with distinct keys are as many as their keys. */
  lemma {:induction false} DistinctKeysCount(rows: seq<DayRow>)
    requires RowKeysDistinct(rows)
    ensures |RowKeys(rows)| == |rows|
  {
    if rows != [] {
      DistinctKeysCount(rows[1..]);
    }
  }

  /** A key without entries has no first date and no amounts. */
  lemma {:induction false} AbsentKey(es: seq<Entry>, k: string)
    requires k !in DayKeys(es)
    ensures FirstDate(es, k).None? && WaterOn(es, k) == 0 && FertilizerOn(es, k) == 0
  {
    if es != [] {
      AbsentKey(es[..|es| - 1], k);
    }
  }

  /** FirstDate is the date of the first entry, in storage order, with the key. */
  lemma {:induction false} FirstDateIsFirst(es: seq<Entry>, k: string)
    ensures FirstDate(es, k).None? <==> forall j :: 0 <= j < |es| ==> es[j].dayKey != k
    ensures FirstDate(es, k).Some? ==>
      exists i :: 0 <= i < |es| && es[i].dayKey == k && es[i].date == FirstDate(es, k).value &&
        (forall j :: 0 <= j < i ==> es[j].dayKey != k)
  {
    if es != [] {
      var init := es[..|es| - 1];
      FirstDateIsFirst(init, k);
      assert forall j :: 0 <= j < |init| ==> init[j] == es[j];
      if FirstDate(init, k).Some? {
        var i :| 0 <= i < |init| && init[i].dayKey == k &&
          init[i].date == FirstDate(init, k).value && forall j :: 0 <= j < i ==> init[j].dayKey != k;
        assert es[i] == init[i];
      }
    }
  }

  // Grouping

  lemma {:induction false} AddToRowsKeys(rows: seq<DayRow>, e: Entry)
    ensures RowKeys(AddToRows(rows, e)) == RowKeys(rows) + {e.dayKey}
  {
    if rows != [] {
      AddToRowsKeys(rows[1..], e);
      var r := AddToRows(rows, e);
      if rows[0].dayKey == e.dayKey {
        assert r[1..] == rows[1..];
      } else {
        assert r[1..] == AddToRows(rows[1..], e);
      }
    }
  }

  lemma {:induction false} AddToRowsDistinct(rows: seq<DayRow>, e: Entry)
    requires RowKeysDistinct(rows)
    ensures RowKeysDistinct(AddToRows(rows, e))
  {
    if rows != [] {
      var r := AddToRows(rows, e);
      if rows[0].dayKey == e.dayKey {
        assert r[1..] == rows[1..];
      } else {
        AddToRowsDistinct(rows[1..], e);
        AddToRowsKeys(rows[1..], e);
        assert r[1..] == AddToRows(rows[1..], e);
      }
    }
  }

  /** The rows have one row per day key of the entries, and no key twice. */
  lemma {:induction false} GroupByDayKeys(es: seq<Entry>)
    ensures RowKeys(GroupByDay(es)) == DayKeys(es)
    ensures RowKeysDistinct(GroupByDay(es))
  {
    if es != [] {
      var init := es[..|es| - 1];
      GroupByDayKeys(init);
      AddToRowsKeys(GroupByDay(init), es[|es| - 1]);
      AddToRowsDistinct(GroupByDay(init), es[|es| - 1]);
    }
  }

  /** What a row of the grouping of `es` holds: that day's sums and first date. */
  predicate RowOf(es: seq<Entry>, r: DayRow) {
    r.totalWater == WaterOn(es, r.dayKey) && r.totalFertilizer == FertilizerOn(es, r.dayKey) &&
    FirstDate(es, r.dayKey) == Some(r.date)
  }

  /** Feeding entry `e` after `es` turns rows of `es` into rows of `es + [e]`. */
  lemma {:induction false} AddToRowsRows(rows: seq<DayRow>, es: seq<Entry>, e: Entry)
    requires RowKeysDistinct(rows)
    requires forall r :: r in rows ==> RowOf(es, r)
    requires e.dayKey !in RowKeys(rows) ==> e.dayKey !in DayKeys(es)
    ensures forall r :: r in AddToRows(rows, e) ==> RowOf(es + [e], r)
  {
    var es' := es + [e];
    assert es'[..|es'| - 1] == es;
    if rows == [] {
      AbsentKey(es, e.dayKey);
    } else if rows[0].dayKey == e.dayKey {
      var r := AddToRows(rows, e);
      RowKeysMembers(rows[1..]);
      assert rows[0] in rows;
      assert RowOf(es, rows[0]);
      assert RowOf(es', r[0]);
      forall x | x in r ensures RowOf(es', x) {
        if x != r[0] {
          assert x in rows[1..];
          assert x in rows;
          assert RowOf(es, x);
          assert x.dayKey != e.dayKey;
        }
      }
    } else {
      assert rows[0] in rows;
      forall x | x in rows[1..] ensures RowOf(es, x) {
        assert x in rows;
      }
      AddToRowsRows(rows[1..], es, e);
      assert AddToRows(rows, e) == [rows[0]] + AddToRows(rows[1..], e);
    }
  }

  /** Each row's sums are the sums of the entries with its day key, and its date is the date
      of the first of them (`$first: "$date"` in storage order). */
  lemma {:induction false} GroupByDayRows(es: seq<Entry>)
    ensures forall r :: r in GroupByDay(es) ==> RowOf(es, r)
  {
    if es != [] {
      var init := es[..|es| - 1];
      GroupByDayRows(init);
      GroupByDayKeys(init);
      AddToRowsRows(GroupByDay(init), init, es[|es| - 1]);
      assert init + [es[|es| - 1]] == es;
    }
  }

  // Totals

  lemma {:induction false} FoldTotalsConcat(a: seq<DayRow>, b: seq<DayRow>)
    ensures FoldTotals(a + b).water == FoldTotals(a).water + FoldTotals(b).water
    ensures FoldTotals(a + b).fert == FoldTotals(a).fert + FoldTotals(b).fert
    decreases |b|
  {
    if b == [] {
      assert a + b == a;
    } else {
      var b' := b[..|b| - 1];
      FoldTotalsConcat(a, b');
      assert (a + b)[..|a + b| - 1] == a + b';
    }
  }

  /** Taking one row out of the fold takes out its amounts. */
  lemma {:induction false} FoldTotalsRemove(b: seq<DayRow>, k: nat)
    requires k < |b|
    ensures FoldTotals(b).water == FoldTotals(b[..k] + b[k + 1..]).water + b[k].totalWater
    ensures FoldTotals(b).fert == FoldTotals(b[..k] + b[k + 1..]).fert + b[k].totalFertilizer
  {
    var front, back := b[..k], b[k + 1..];
    var withX := front + [b[k]];
    assert b == withX + back;
    assert withX[..|withX| - 1] == front;
    FoldTotalsConcat(withX, back);
    FoldTotalsConcat(front, back);
  }

  lemma MultisetRemove(b: seq<DayRow>, k: nat)
    requires k < |b|
    ensures multiset(b[..k] + b[k + 1..]) == multiset(b) - multiset{b[k]}
  {
    assert b == b[..k] + [b[k]] + b[k + 1..];
  }

  /** The totals do not depend on the order of the rows. */
  lemma {:induction false} FoldTotalsPermutation(a: seq<DayRow>, b: seq<DayRow>)
    requires multiset(a) == multiset(b)
    ensures FoldTotals(a) == FoldTotals(b)
    decreases |a|
  {
    if a == [] {
      assert |b| == |multiset(b)| == 0;
    } else {
      var x := a[|a| - 1];
      var a' := a[..|a| - 1];
      MultisetRemove(a, |a| - 1);
      assert a[..|a| - 1] + a[|a|..] == a';
      assert x in multiset(b);
      var k :| 0 <= k < |b| && b[k] == x;
      MultisetRemove(b, k);
      FoldTotalsPermutation(a', b[..k] + b[k + 1..]);
      FoldTotalsRemove(b, k);
    }
  }

  lemma FoldTotalsCons(x: DayRow, rest: seq<DayRow>)
    ensures FoldTotals([x] + rest).water == x.totalWater + FoldTotals(rest).water
    ensures FoldTotals([x] + rest).fert == x.totalFertilizer + FoldTotals(rest).fert
  {
    FoldTotalsConcat([x], rest);
    assert [x][..0] == [];
  }

  lemma {:induction false} AddToRowsTotals(rows: seq<DayRow>, e: Entry)
    ensures FoldTotals(AddToRows(rows, e)).water == FoldTotals(rows).water + e.waterAmount
    ensures FoldTotals(AddToRows(rows, e)).fert == FoldTotals(rows).fert + e.fertilizerAmount
  {
    if rows == [] {
      var r := AddToRows(rows, e);
      assert r[..0] == [];
    } else {
      var head, tail := rows[0], rows[1..];
      assert rows == [head] + tail;
      FoldTotalsCons(head, tail);
      if head.dayKey == e.dayKey {
        var head' := head.(totalWater := head.totalWater + e.waterAmount,
                           totalFertilizer := head.totalFertilizer + e.fertilizerAmount);
        assert AddToRows(rows, e) == [head'] + tail;
        FoldTotalsCons(head', tail);
      } else {
        AddToRowsTotals(tail, e);
        assert AddToRows(rows, e) == [head] + AddToRows(tail, e);
        FoldTotalsCons(head, AddToRows(tail, e));
      }
    }
  }

  /** The totals of the grouped rows are the totals of all grouped entries. */
  lemma {:induction false} GroupByDayTotals(es: seq<Entry>)
    ensures FoldTotals(GroupByDay(es)) == Totals(TotalWater(es), TotalFertilizer(es))
  {
    if es != [] {
      GroupByDayTotals(es[..|es| - 1]);
      AddToRowsTotals(GroupByDay(es[..|es| - 1]), es[|es| - 1]);
    }
  }

  // The reply

  /** The summary reply: the period length, the rows in ascending date order with one row
      per day key of the matched entries, each row holding that day's sums and the date of
      the day's first entry, and totals equal to the sums over all matched entries. */
  lemma SummarizeCorrect(es: seq<Entry>, userId: string, days: Option<int>, now: JsTime)
    ensures var s := Summarize(es, userId, days, now);
      var m := Matched(es, userId, WindowStart(PeriodDays(days), now));
      && s.periodDays == (if days.Some? then days.value else 7)
      && (forall i, j :: 0 <= i < j < |s.days| ==> s.days[i].date <= s.days[j].date)
      && (forall r :: r in s.days ==> r.dayKey in DayKeys(m) && RowOf(m, r))
      && (forall k :: k in DayKeys(m) ==> exists r :: r in s.days && r.dayKey == k)
      && |s.days| == |DayKeys(m)|
      && s.totals == Totals(TotalWater(m), TotalFertilizer(m))
  {
    var m := Matched(es, userId, WindowStart(PeriodDays(days), now));
    var g := GroupByDay(m);
    var rows := SortBy(g, RowDate);
    SortByCorrect(g, RowDate);
    GroupByDayKeys(m);
    GroupByDayRows(m);
    GroupByDayTotals(m);
    FoldTotalsPermutation(rows, g);
    RowKeysMembers(g);
    DistinctKeysCount(g);
    forall r ensures r in rows <==> r in g {
      assert r in rows <==> r in multiset(rows);
      assert r in g <==> r in multiset(g);
    }
  }

  /** One entry of 5 water and 2 fertilizer at `now`: one row, totals 5 and 2. */
  lemma SummarizeSingleEntry(userId: string, now: JsTime, k: string)
    ensures var s := Summarize([Entry(0, userId, "p1", 5, 2, now, k, now, now)], userId, None, now);
      s.periodDays == 7 && s.totals == Totals(5, 2) && s.days == [DayRow(k, 5, 2, now)]
  {
    var e := Entry(0, userId, "p1", 5, 2, now, k, now, now);
    var row := DayRow(k, 5, 2, now);
    assert Matched([e], userId, WindowStart(7, now)) == [e] by {
      assert [e][..0] == [];
    }
    assert GroupByDay([e]) == [row] by {
      assert [e][..0] == [];
    }
    assert SortBy([row], RowDate) == [row] by {
      assert [row][1..] == [];
    }
    assert FoldTotals([row]) == Totals(5, 2) by {
      assert [row][..0] == [];
    }
  }
}
