/**
  Straight-line depreciation over calendar months (`asset_depreciation`).

  An asset has one mark per month of its useful life, `start_date + i months`, where a day beyond
  the end of a month falls back to its last day. A period counts the marks it contains, both ends
  included. Dates are civil dates of the Gregorian calendar, times are microseconds, amounts exact.
*/
module Depreciation {
  import opened Common

  // ---- the calendar ----

  /** A month counted from January of year 0, and a day in it. */
  datatype Date = Date(month: nat, day: nat)

  predicate Leap(year: nat) { year % 4 == 0 && (year % 100 != 0 || year % 400 == 0) }

  function DaysIn(month: nat): (d: nat)
    ensures 28 <= d <= 31
  {
    var m := month % 12;
    if m == 1 then (if Leap(month / 12) then 29 else 28)
    else if m == 3 || m == 5 || m == 8 || m == 10 then 30
    else 31
  }

  predicate ValidDate(d: Date) { 1 <= d.day <= DaysIn(d.month) }

  /** `date + i months`. */
  function AddMonths(d: Date, i: nat): Date { Date(d.month + i, Min(d.day, DaysIn(d.month + i))) }

  /** Days from the start of the count to the first of the month. */
  function DaysBefore(month: nat): nat {
    if month == 0 then 0 else DaysBefore(month - 1) + DaysIn(month - 1)
  }

  const DAY: nat := 86400000000

  /** Midnight of a date. */
  function Midnight(d: Date): int { (DaysBefore(d.month) + d.day - 1) * DAY }

  lemma {:induction false} DaysBeforeIncreases(a: nat, b: nat)
    requires a < b
    ensures DaysBefore(a) + DaysIn(a) <= DaysBefore(b)
  {
    if a < b - 1 {
      DaysBeforeIncreases(a, b - 1);
    }
  }

  // ---- the calendar against a closed formula ----

  /** The leap years before year `y`: every fourth, without the centuries, with every fourth of those. */
  function LeapsBefore(y: nat): int { (y + 3) / 4 - (y + 99) / 100 + (y + 399) / 400 }

  /** Days of a common year before month `m`. */
  const CUMULATIVE: seq<nat> := [0, 31, 59, 90, 120, 151, 181, 212, 243, 273, 304, 334, 365]

  lemma LeapStep(y: nat)
    ensures LeapsBefore(y + 1) - LeapsBefore(y) == if Leap(y) then 1 else 0
  {
    hide Leap;
    Carry4(y);
    Carry100(y);
    Carry400(y);
    LeapCounts(y);
  }

  lemma LeapCounts(y: nat)
    ensures (if y % 4 == 0 then 1 else 0) - (if y % 100 == 0 then 1 else 0) + (if y % 400 == 0 then 1 else 0) ==
            if Leap(y) then 1 else 0
  {
    MultipleOf(y, 4, 25);
    MultipleOf(y, 100, 4);
  }

  lemma MultipleOf(y: nat, d: nat, e: nat)
    requires (d == 4 && e == 25) || (d == 100 && e == 4)
    ensures y % (d * e) == 0 ==> y % d == 0
  {
    if d == 4 {
      assert y % 100 == 0 ==> y == 4 * (25 * (y / 100));
    } else {
      assert y % 400 == 0 ==> y == 100 * (4 * (y / 400));
    }
  }

  lemma Carry4(y: nat)
    ensures (y + 1 + 3) / 4 - (y + 3) / 4 == if y % 4 == 0 then 1 else 0
  {
  }

  lemma Carry100(y: nat)
    ensures (y + 1 + 99) / 100 - (y + 99) / 100 == if y % 100 == 0 then 1 else 0
  {
  }

  lemma Carry400(y: nat)
    ensures (y + 1 + 399) / 400 - (y + 399) / 400 == if y % 400 == 0 then 1 else 0
  {
  }

  lemma {:induction false} MonthStart(y: nat, m: nat)
    requires m <= 12
    ensures DaysBefore(12 * y + m) == DaysBefore(12 * y) + CUMULATIVE[m] + (if m >= 2 && Leap(y) then 1 else 0)
  {
    if m > 0 {
      MonthStart(y, m - 1);
      var k := 12 * y + (m - 1);
      assert k % 12 == m - 1 && k / 12 == y;
      assert CUMULATIVE[m] == CUMULATIVE[m - 1] + (if m == 2 then 28 else DaysIn(k));
    }
  }

  /**
    Month `m` of year `y` starts after the days of the years before it, leap days included, and of its own
    earlier months.
  */
  lemma {:induction false} CalendarIs(y: nat, m: nat)
    requires m < 12
    ensures DaysBefore(12 * y + m) ==
            365 * y + LeapsBefore(y) + CUMULATIVE[m] + (if m >= 2 then LeapsBefore(y + 1) - LeapsBefore(y) else 0)
  {
    MonthStart(y, m);
    LeapStep(y);
    YearStart(y);
  }

  lemma {:induction false} YearStart(y: nat)
    ensures DaysBefore(12 * y) == 365 * y + LeapsBefore(y)
  {
    if y > 0 {
      YearStart(y - 1);
      MonthStart(y - 1, 12);
      LeapStep(y - 1);
      assert 12 * (y - 1) + 12 == 12 * y;
    }
  }

  // ---- assets and marks ----

  /** `asset_upsert` keeps `useful_months` at 1 or more. */
  datatype RawAsset = RawAsset(cost: real, months: nat, start: Date)
  type Asset = a: RawAsset | a.months >= 1 && ValidDate(a.start) witness RawAsset(0.0, 1, Date(0, 1))

  function Mark(a: Asset, i: nat): int { Midnight(AddMonths(a.start, i)) }

  /**
    Mark `i` is midnight, in microseconds, of the start day `i` months later, or of the last day of
    that month when it has no such day.
  */
  lemma MarkIs(a: Asset, i: nat)
    ensures var month := a.start.month + i;
            var day := if a.start.day <= DaysIn(month) then a.start.day else DaysIn(month);
            Mark(a, i) == (DaysBefore(month) + day - 1) * (24 * 60 * 60 * 1_000_000)
  {
  }

  function Share(a: Asset): real { a.cost / a.months as real }

  datatype Period = Period(from: int, to: int)

  predicate Contains(p: Period, t: int) { p.from <= t <= p.to }

  /** The number of marks before number `n` that fall in the period. */
  function MarksIn(a: Asset, p: Period, n: nat): nat {
    if n == 0 then 0 else MarksIn(a, p, n - 1) + (if Contains(p, Mark(a, n - 1)) then 1 else 0)
  }

  /** `x` added up `n` times. */
  function Times(x: real, n: nat): real { if n == 0 then 0.0 else Times(x, n - 1) + x }

  /** What one asset adds: its share, once for each of its marks in the period. */
  function AssetDepreciation(a: Asset, p: Period): real { Times(Share(a), MarksIn(a, p, a.months)) }

  /** `asset_depreciation(p_from, p_to)`. */
  function Depreciated(assets: seq<Asset>, p: Period): real {
    if assets == [] then 0.0 else AssetDepreciation(assets[0], p) + Depreciated(assets[1..], p)
  }

  function TotalCost(assets: seq<Asset>): real {
    if assets == [] then 0.0 else assets[0].cost + TotalCost(assets[1..])
  }

  // ---- marks and months ----

  /** The whole of calendar month `k`. */
  function MonthPeriod(k: nat): Period {
    Period(DaysBefore(k) * DAY, DaysBefore(k + 1) * DAY - 1)
  }

  /** Mark `i` lies in calendar month start + i, and in no other. */
  lemma MarkInItsMonth(a: Asset, i: nat, k: nat)
    ensures Contains(MonthPeriod(k), Mark(a, i)) <==> k == a.start.month + i
  {
    var d := AddMonths(a.start, i);
    assert 1 <= d.day <= DaysIn(d.month);
    if k < d.month {
      DaysBeforeIncreases(k, d.month);
    } else if k > d.month {
      DaysBeforeIncreases(d.month, k);
    }
  }

  /** Marks come strictly later month by month, whatever the end-of-month fallback does to the day. */
  lemma MarksIncrease(a: Asset, i: nat, j: nat)
    requires i < j
    ensures Mark(a, i) < Mark(a, j)
  {
    hide DaysIn, DaysBefore;
    DaysBeforeIncreases(a.start.month + i, a.start.month + j);
    var d, e := AddMonths(a.start, i), AddMonths(a.start, j);
    assert d.day <= DaysIn(d.month) && 1 <= e.day;
    assert DaysBefore(d.month) + d.day - 1 < DaysBefore(e.month) + e.day - 1;
  }

  lemma {:induction false} MonthlyMarks(a: Asset, k: nat, n: nat)
    ensures MarksIn(a, MonthPeriod(k), n) == if a.start.month <= k < a.start.month + n then 1 else 0
  {
    if n > 0 {
      MonthlyMarks(a, k, n - 1);
      MarkInItsMonth(a, n - 1, k);
    }
  }

  /** A calendar month is charged exactly cost / months during the asset's life and nothing outside it. */
  lemma MonthlyCharge(a: Asset, k: nat)
    ensures AssetDepreciation(a, MonthPeriod(k)) ==
            if a.start.month <= k < a.start.month + a.months then Share(a) else 0.0
  {
    MonthlyMarks(a, k, a.months);
    OnceIsShare(Share(a));
  }

  lemma OnceIsShare(x: real)
    ensures Times(x, 1) == x && Times(x, 0) == 0.0
  {
  }

  // ---- additivity and conservation ----

  lemma {:induction false} MarksSplit(a: Asset, from: int, mid: int, to: int, n: nat)
    requires from <= mid + 1 <= to + 1
    ensures MarksIn(a, Period(from, mid), n) + MarksIn(a, Period(mid + 1, to), n) == MarksIn(a, Period(from, to), n)
  {
    if n > 0 {
      MarksSplit(a, from, mid, to, n - 1);
    }
  }

  /** Adjacent periods that do not overlap add up. */
  lemma {:induction false} Additive(assets: seq<Asset>, from: int, mid: int, to: int)
    requires from <= mid + 1 <= to + 1
    ensures Depreciated(assets, Period(from, mid)) + Depreciated(assets, Period(mid + 1, to)) ==
            Depreciated(assets, Period(from, to))
  {
    if assets != [] {
      var a := assets[0];
      Additive(assets[1..], from, mid, to);
      MarksSplit(a, from, mid, to, a.months);
      TimesSplit(Share(a), MarksIn(a, Period(from, mid), a.months), MarksIn(a, Period(mid + 1, to), a.months));
    }
  }

  lemma {:induction false} TimesSplit(x: real, m: nat, n: nat)
    ensures Times(x, m) + Times(x, n) == Times(x, m + n)
  {
    if n > 0 {
      TimesSplit(x, m, n - 1);
    }
  }

  /** Adjacent periods that share an end count what falls on it twice. */
  lemma {:induction false} SharedEndCountsTwice(assets: seq<Asset>, from: int, mid: int, to: int)
    requires from <= mid <= to
    ensures Depreciated(assets, Period(from, mid)) + Depreciated(assets, Period(mid, to)) ==
            Depreciated(assets, Period(from, to)) + Depreciated(assets, Period(mid, mid))
  {
    Additive(assets, from, mid, to);
    Additive(assets, mid, mid, to);
  }

  function Sum(assets: seq<Asset>, ps: seq<Period>): real {
    if ps == [] then 0.0 else Depreciated(assets, ps[0]) + Sum(assets, ps[1..])
  }

  function Hits(ps: seq<Period>, t: int): nat {
    if ps == [] then 0 else (if Contains(ps[0], t) then 1 else 0) + Hits(ps[1..], t)
  }

  predicate Disjoint(ps: seq<Period>) {
    forall i, j :: 0 <= i < j < |ps| ==> ps[i].to < ps[j].from || ps[j].to < ps[i].from
  }

  predicate Covers(ps: seq<Period>, t: int) { exists i :: 0 <= i < |ps| && Contains(ps[i], t) }

  lemma {:induction false} DisjointHits(ps: seq<Period>, t: int)
    requires Disjoint(ps)
    ensures Hits(ps, t) == if Covers(ps, t) then 1 else 0
  {
    if ps != [] {
      DisjointHits(ps[1..], t);
      assert Covers(ps, t) <==> Contains(ps[0], t) || Covers(ps[1..], t) by {
        if Covers(ps[1..], t) {
          var i :| 0 <= i < |ps[1..]| && Contains(ps[1..][i], t);
          assert ps[i + 1] == ps[1..][i];
        }
        if Covers(ps, t) && !Contains(ps[0], t) {
          var i :| 0 <= i < |ps| && Contains(ps[i], t);
          assert ps[1..][i - 1] == ps[i];
        }
      }
      forall i | 0 <= i < |ps[1..]| ensures Contains(ps[0], t) ==> !Contains(ps[1..][i], t) {
        assert ps[1..][i] == ps[i + 1];
      }
    }
  }

  /** The marks before number `n`, counted once for every period they fall in. */
  function AllHits(a: Asset, ps: seq<Period>, n: nat): nat {
    if n == 0 then 0 else AllHits(a, ps, n - 1) + Hits(ps, Mark(a, n - 1))
  }

  lemma {:induction false} HitsByPeriod(a: Asset, ps: seq<Period>, n: nat)
    requires ps != []
    ensures AllHits(a, ps, n) == MarksIn(a, ps[0], n) + AllHits(a, ps[1..], n)
  {
    if n > 0 {
      HitsByPeriod(a, ps, n - 1);
    }
  }

  lemma {:induction false} NoPeriodsNoHits(a: Asset, n: nat)
    ensures AllHits(a, [], n) == 0
  {
    if n > 0 {
      NoPeriodsNoHits(a, n - 1);
    }
  }

  lemma {:induction false} SumOfOne(a: Asset, ps: seq<Period>)
    ensures Sum([a], ps) == Times(Share(a), AllHits(a, ps, a.months))
  {
    if ps == [] {
      NoPeriodsNoHits(a, a.months);
    } else {
      SumOfOne(a, ps[1..]);
      HitsByPeriod(a, ps, a.months);
      TimesSplit(Share(a), MarksIn(a, ps[0], a.months), AllHits(a, ps[1..], a.months));
      assert Depreciated([a], ps[0]) == AssetDepreciation(a, ps[0]);
    }
  }

  lemma {:induction false} EachMarkOnce(a: Asset, ps: seq<Period>, n: nat)
    requires Disjoint(ps)
    requires forall i :: 0 <= i < n ==> Covers(ps, Mark(a, i))
    ensures AllHits(a, ps, n) == n
  {
    hide Hits, Mark, Contains;
    if n > 0 {
      EachMarkOnce(a, ps, n - 1);
      DisjointHits(ps, Mark(a, n - 1));
    }
  }

  lemma {:induction false} SumSplits(a: Asset, rest: seq<Asset>, ps: seq<Period>)
    ensures Sum([a] + rest, ps) == Sum([a], ps) + Sum(rest, ps)
  {
    if ps != [] {
      SumSplits(a, rest, ps[1..]);
      assert ([a] + rest)[1..] == rest;
      assert Depreciated([a], ps[0]) == AssetDepreciation(a, ps[0]);
    }
  }

  lemma {:induction false} TimesIsProduct(x: real, n: nat)
    ensures Times(x, n) == x * n as real
  {
    if n > 0 {
      TimesIsProduct(x, n - 1);
    }
  }

  /** All the shares of an asset make up its cost. */
  lemma WholeShare(a: Asset)
    ensures Times(Share(a), a.months) == a.cost
  {
    TimesIsProduct(Share(a), a.months);
  }

  /** The periods cover the whole life of the asset. */
  predicate CoversLife(ps: seq<Period>, a: Asset) {
    forall i :: 0 <= i < a.months ==> Covers(ps, Mark(a, i))
  }

  /** Over any disjoint periods that cover the lives of the assets, the amounts sum to the total cost. */
  lemma {:induction false} Conserved(assets: seq<Asset>, ps: seq<Period>)
    requires forall i, j :: 0 <= i < j < |ps| ==> ps[i].to < ps[j].from || ps[j].to < ps[i].from
    requires forall j, i :: 0 <= j < |assets| && 0 <= i < assets[j].months ==>
               exists k :: 0 <= k < |ps| && ps[k].from <= Mark(assets[j], i) <= ps[k].to
    ensures Sum(assets, ps) == TotalCost(assets)
  {
    hide Mark;
    assert Disjoint(ps);
    if assets == [] {
      NothingToSum(ps);
    } else {
      var a := assets[0];
      assert assets == [a] + assets[1..];
      SumSplits(a, assets[1..], ps);
      Conserved(assets[1..], ps);
      SumOfOne(a, ps);
      forall i | 0 <= i < a.months ensures Covers(ps, Mark(a, i)) {
        var k :| 0 <= k < |ps| && ps[k].from <= Mark(assets[0], i) <= ps[k].to;
        assert Contains(ps[k], Mark(a, i));
      }
      EachMarkOnce(a, ps, a.months);
      WholeShare(a);
    }
  }

  lemma {:induction false} NothingToSum(ps: seq<Period>)
    ensures Sum([], ps) == 0.0
  {
    if ps != [] {
      NothingToSum(ps[1..]);
    }
  }
}
