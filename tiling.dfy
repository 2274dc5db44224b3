/** Turning an inclusive range of days into Sunday-to-Saturday weeks, and
    placing month labels over the (reversed) weeks. Days are whole days
    counted from 1970-01-01. */
module Tiling {
  import opened MealModel

  /** 1970-01-01 was a Thursday. */
  const EpochWeekday := 4

  /** Day of the week, Sunday = 0 ... Saturday = 6. */
  function Weekday(d: int): (w: nat)
    ensures w < 7
  {
    (d + EpochWeekday) % 7
  }

  lemma WeekdayNext(d: int)
    ensures Weekday(d + 1) == if Weekday(d) == 6 then 0 else Weekday(d) + 1
  {
  }

  /** A date slot of a week, None for padding. */
  type Week = seq<Option<int>>

  function Nones(n: nat): (s: seq<Option<int>>)
    ensures |s| == n && forall i :: 0 <= i < n ==> s[i].None?
  {
    seq(n, _ => None)
  }

  /** The days from `lo` to `hi`, both included; empty when lo > hi. */
  function Days(lo: int, hi: int): (s: seq<Option<int>>)
    ensures |s| == if lo <= hi then hi - lo + 1 else 0
    ensures forall i :: 0 <= i < |s| ==> s[i] == Some(lo + i)
  {
    seq(if lo <= hi then hi - lo + 1 else 0, i => Some(lo + i))
  }

  /** The flat grid of a non-empty range: padding up to the first day's
      weekday, every day of the range, padding after the last day up to Saturday. */
  function Padded(start: int, end: int): seq<Option<int>>
    requires start <= end
  {
    Nones(Weekday(start)) + Days(start, end) + Nones(6 - Weekday(end))
  }

  function Flatten<T>(weeks: seq<seq<T>>): seq<T>
  {
    if |weeks| == 0 then [] else Flatten(weeks[..|weeks| - 1]) + weeks[|weeks| - 1]
  }

  lemma FlattenAppend<T>(weeks: seq<seq<T>>, w: seq<T>)
    ensures Flatten(weeks + [w]) == Flatten(weeks) + w
  {
    assert (weeks + [w])[..|weeks|] == weeks;
  }

  ghost predicate AllFull<T>(weeks: seq<seq<T>>)
  {
    forall i :: 0 <= i < |weeks| ==> |weeks[i]| == 7
  }

  /** Every block has length n. */
  ghost predicate Uniform<T>(blocks: seq<seq<T>>, n: nat)
  {
    forall i :: 0 <= i < |blocks| ==> |blocks[i]| == n
  }

  lemma {:induction false} FlattenUniformLength<T>(blocks: seq<seq<T>>, n: nat)
    requires Uniform(blocks, n)
    ensures |Flatten(blocks)| == n * |blocks|
  {
    if |blocks| > 0 {
      FlattenUniformLength(blocks[..|blocks| - 1], n);
      assert n * |blocks| == n * (|blocks| - 1) + n;
    }
  }

  lemma BlockIndex(n: nat, i: nat, j: nat, k: nat)
    requires i < k && j < n
    ensures n * i + j < n * k
  {
    assert n * i + j < n * (i + 1);
    assert n * (i + 1) <= n * k;
  }

  /** Element j of block i of uniform blocks of length n sits at n * i + j of the flat sequence. */
  lemma {:induction false} FlattenUniformAt<T>(blocks: seq<seq<T>>, n: nat, i: nat, j: nat)
    requires Uniform(blocks, n) && i < |blocks| && j < n
    ensures n * i + j < |Flatten(blocks)|
    ensures Flatten(blocks)[n * i + j] == blocks[i][j]
  {
    var k := |blocks| - 1;
    var init := blocks[..k];
    FlattenUniformLength(init, n);
    FlattenUniformLength(blocks, n);
    assert Flatten(blocks) == Flatten(init) + blocks[k];
    if i < k {
      FlattenUniformAt(init, n, i, j);
      BlockIndex(n, i, j, k);
      assert init[i] == blocks[i];
    } else {
      assert n * i + j - n * k == j;
    }
  }

  /** In a sequence of full weeks, slot j of week i sits at 7 * i + j of the flat sequence. */
  lemma FlattenFull<T>(weeks: seq<seq<T>>)
    requires AllFull(weeks)
    ensures |Flatten(weeks)| == 7 * |weeks|
    ensures forall i, j :: 0 <= i < |weeks| && 0 <= j < 7 ==> Flatten(weeks)[7 * i + j] == weeks[i][j]
  {
    FlattenUniformLength(weeks, 7);
    forall i, j | 0 <= i < |weeks| && 0 <= j < 7
      ensures Flatten(weeks)[7 * i + j] == weeks[i][j]
    {
      FlattenUniformAt(weeks, 7, i, j);
    }
  }

  /** The weeks of the inclusive range start..end, as the program builds them:
      leading padding, then one day at a time with a week closed after each
      Saturday, then the open week padded to seven. When start > end and the
      start is not a Sunday, the leading padding alone becomes one all-padding week. */
  method GenerateWeeks(start: int, end: int) returns (weeks: seq<Week>)
    ensures AllFull(weeks)
    ensures start <= end ==> Flatten(weeks) == Padded(start, end)
    ensures start > end ==> weeks == if Weekday(start) == 0 then [] else [Nones(7)]
  {
    weeks := [];
    var currentWeek: Week := [];
    var currentDate := start;

    var startDay := Weekday(currentDate);
    var i := 0;
    while i < startDay
      invariant 0 <= i <= startDay
      invariant currentWeek == Nones(i)
    {
      currentWeek := currentWeek + [None];
      i := i + 1;
    }

    while currentDate <= end
      invariant TilingState(weeks, currentWeek, start, end, currentDate)
      decreases end - currentDate
    {
      TileStep(weeks, currentWeek, start, end, currentDate);
      currentWeek := currentWeek + [Some(currentDate)];
      if Weekday(currentDate) == 6 {
        weeks := weeks + [currentWeek];
        currentWeek := [];
      }
      currentDate := currentDate + 1;
    }

    ClosingWeek(weeks, currentWeek, start, end, currentDate);
    ghost var closed := weeks + (if |currentWeek| > 0 then [currentWeek + Nones(7 - |currentWeek|)] else []);
    if |currentWeek| > 0 {
      ghost var open := currentWeek;
      while |currentWeek| < 7
        invariant |open| <= |currentWeek| <= 7
        invariant currentWeek == open + Nones(|currentWeek| - |open|)
      {
        assert Nones(|currentWeek| - |open|) + [None] == Nones(|currentWeek| + 1 - |open|);
        currentWeek := currentWeek + [None];
      }
      weeks := weeks + [currentWeek];
    }
    assert weeks == closed;
  }

  /** The state of the tiling loop before day d: the closed weeks are full,
      the open week is as long as d's weekday, and together they hold the
      leading padding and the days before d. */
  ghost predicate TilingState(weeks: seq<Week>, open: Week, start: int, end: int, d: int)
  {
    && start <= d
    && (start <= end ==> d <= end + 1)
    && (start > end ==> d == start && weeks == [])
    && AllFull(weeks)
    && |open| == Weekday(d)
    && Flatten(weeks) + open == Nones(Weekday(start)) + Days(start, d - 1)
  }

  /** One day of the tiling loop: the day joins the open week, which is
      closed after a Saturday. */
  lemma TileStep(weeks: seq<Week>, open: Week, start: int, end: int, d: int)
    requires TilingState(weeks, open, start, end, d) && d <= end
    ensures var next := open + [Some(d)];
      if Weekday(d) == 6 then TilingState(weeks + [next], [], start, end, d + 1)
      else TilingState(weeks, next, start, end, d + 1)
  {
    var next := open + [Some(d)];
    assert Flatten(weeks) + next == (Flatten(weeks) + open) + [Some(d)];
    assert Days(start, d) == Days(start, d - 1) + [Some(d)];
    WeekdayNext(d);
    FlattenAppend(weeks, next);
  }

  /** What the last, open week of the tiling loop turns into once it is padded to seven. */
  lemma ClosingWeek(weeks: seq<Week>, open: Week, start: int, end: int, last: int)
    requires Flatten(weeks) + open == Nones(Weekday(start)) + Days(start, last - 1)
    requires |open| == Weekday(last)
    requires start <= end ==> last == end + 1
    requires start > end ==> last == start && weeks == []
    ensures var closed := weeks + (if |open| > 0 then [open + Nones(7 - |open|)] else []);
      && (start <= end ==> Flatten(closed) == Padded(start, end))
      && (start > end ==> closed == if Weekday(start) == 0 then [] else [Nones(7)])
  {
    var closed := weeks + (if |open| > 0 then [open + Nones(7 - |open|)] else []);
    if |open| > 0 {
      FlattenAppend(weeks, open + Nones(7 - |open|));
    }
    if start <= end {
      WeekdayNext(end);
      if |open| == 0 {
        assert open == [] && closed == weeks;
        assert Flatten(weeks) + open == Flatten(weeks);
        assert Nones(6 - Weekday(end)) == [];
        assert Padded(start, end) == Nones(Weekday(start)) + Days(start, end) + [];
      }
    } else if |open| > 0 {
      assert Days(start, start - 1) == [];
      assert Flatten<Option<int>>([]) == [];
      assert Flatten(weeks) + open == open;
      assert Nones(Weekday(start)) + Days(start, start - 1) == Nones(Weekday(start));
      assert open == Nones(Weekday(start));
      assert closed[0] == Nones(7);
    }
  }

  /** The flat grid of a non-empty range fills whole weeks. */
  lemma PaddedLength(start: int, end: int)
    requires start <= end
    ensures |Padded(start, end)| % 7 == 0
    ensures |Padded(start, end)| / 7 >= 1
  {
    var q := (start + EpochWeekday) / 7;
    var r := (end + EpochWeekday) / 7;
    assert start + EpochWeekday == 7 * q + Weekday(start);
    assert end + EpochWeekday == 7 * r + Weekday(end);
    assert |Padded(start, end)| == 7 * (r - q + 1);
  }

  /** Slot k of the flat grid holds a day exactly in the range part, and then
      the day k positions after the week's Sunday. */
  lemma PaddedAt(start: int, end: int, k: nat)
    requires start <= end && k < |Padded(start, end)|
    ensures Padded(start, end)[k].Some? <==> Weekday(start) <= k < Weekday(start) + (end - start + 1)
    ensures Padded(start, end)[k].Some? ==> Padded(start, end)[k].value == start + k - Weekday(start)
  {
    var a := Nones(Weekday(start));
    var b := Days(start, end);
    assert Padded(start, end) == a + b + Nones(6 - Weekday(end));
    if k < |a| {
      assert Padded(start, end)[k] == a[k];
    } else if k < |a| + |b| {
      assert Padded(start, end)[k] == b[k - |a|];
    } else {
      assert Padded(start, end)[k] == Nones(6 - Weekday(end))[k - |a| - |b|];
    }
  }

  lemma ShiftMod(q: int, k: int)
    ensures (7 * q + k) % 7 == k % 7
  {
  }

  /** A day of the flat grid sits at a position whose remainder by 7 is its weekday. */
  lemma PaddedWeekday(start: int, end: int, k: nat)
    requires start <= end && k < |Padded(start, end)|
    ensures Padded(start, end)[k].Some? ==> Weekday(Padded(start, end)[k].value) == k % 7
  {
    PaddedAt(start, end, k);
    if Padded(start, end)[k].Some? {
      var q := (start + EpochWeekday) / 7;
      var w := Weekday(start);
      assert start + EpochWeekday == 7 * q + w;
      var d := start + k - w;
      assert d + EpochWeekday == 7 * q + k;
      ShiftMod(q, k);
    }
  }

  /** Slot j of week i is the flat index 7 * i + j, whose remainder is j. */
  lemma SlotRemainder(i: nat, j: nat)
    requires j < 7
    ensures (7 * i + j) % 7 == j
  {
  }

  /** Every week of a non-empty range has seven slots, and a day sits at the
      index of its weekday, Sunday = 0. */
  lemma WeeksAligned(weeks: seq<Week>, start: int, end: int)
    requires start <= end
    requires AllFull(weeks) && Flatten(weeks) == Padded(start, end)
    ensures |weeks| >= 1
    ensures forall i, j :: 0 <= i < |weeks| && 0 <= j < 7 && weeks[i][j].Some? ==> Weekday(weeks[i][j].value) == j
  {
    FlattenFull(weeks);
    PaddedLength(start, end);
    forall i, j | 0 <= i < |weeks| && 0 <= j < 7 && weeks[i][j].Some?
      ensures Weekday(weeks[i][j].value) == j
    {
      PaddedWeekday(start, end, 7 * i + j);
      SlotRemainder(i, j);
    }
  }

  /** Padding appears only before the first day in the first week and after
      the last day in the last week. */
  lemma WeeksPaddingAtEnds(weeks: seq<Week>, start: int, end: int)
    requires start <= end
    requires AllFull(weeks) && Flatten(weeks) == Padded(start, end)
    ensures forall i, j :: 0 <= i < |weeks| && 0 <= j < 7 && weeks[i][j].None? ==>
              (i == 0 && j < Weekday(start)) || (i == |weeks| - 1 && j > Weekday(end))
  {
    forall i, j | 0 <= i < |weeks| && 0 <= j < 7 && weeks[i][j].None?
      ensures (i == 0 && j < Weekday(start)) || (i == |weeks| - 1 && j > Weekday(end))
    {
      SlotPadding(weeks, start, end, i, j);
    }
  }

  /** One padding slot of the tiling lies before the first day or after the last. */
  lemma SlotPadding(weeks: seq<Week>, start: int, end: int, i: nat, j: nat)
    requires start <= end
    requires AllFull(weeks) && Flatten(weeks) == Padded(start, end)
    requires i < |weeks| && j < 7 && weeks[i][j].None?
    ensures (i == 0 && j < Weekday(start)) || (i == |weeks| - 1 && j > Weekday(end))
  {
    FlattenUniformLength(weeks, 7);
    BlockIndex(7, i, j, |weeks|);
    FlattenUniformAt(weeks, 7, i, j);
    var k := 7 * i + j;
    PaddedAt(start, end, k);
    assert !(Weekday(start) <= k < Weekday(start) + (end - start + 1));
    assert |Padded(start, end)| == Weekday(start) + (end - start + 1) + (6 - Weekday(end));
  }

  /** The days of a sequence of slots, padding dropped. */
  function Present(s: seq<Option<int>>): (r: seq<int>)
    ensures |r| <= |s|
  {
    if |s| == 0 then []
    else (if s[0].Some? then [s[0].value] else []) + Present(s[1..])
  }

  lemma {:induction false} PresentConcat(a: seq<Option<int>>, b: seq<Option<int>>)
    ensures Present(a + b) == Present(a) + Present(b)
  {
    if |a| == 0 {
      assert a + b == b;
    } else {
      assert (a + b)[1..] == a[1..] + b;
      PresentConcat(a[1..], b);
      assert Present(a + b) == (if a[0].Some? then [a[0].value] else []) + (Present(a[1..]) + Present(b));
    }
  }

  lemma {:induction false} PresentNones(n: nat)
    ensures Present(Nones(n)) == []
  {
    if n > 0 {
      assert Nones(n)[1..] == Nones(n - 1);
      PresentNones(n - 1);
    }
  }

  /** The consecutive days from `lo` to `hi`, both included. */
  function DayRange(lo: int, hi: int): (s: seq<int>)
    ensures |s| == if lo <= hi then hi - lo + 1 else 0
    ensures forall i :: 0 <= i < |s| ==> s[i] == lo + i
  {
    seq(if lo <= hi then hi - lo + 1 else 0, i => lo + i)
  }

  lemma {:induction false} PresentDays(lo: int, hi: int)
    ensures Present(Days(lo, hi)) == DayRange(lo, hi)
    decreases hi - lo + 1
  {
    if lo <= hi {
      assert Days(lo, hi)[1..] == Days(lo + 1, hi);
      PresentDays(lo + 1, hi);
      assert Present(Days(lo, hi)) == [lo] + Present(Days(lo + 1, hi));
      assert DayRange(lo, hi) == [lo] + DayRange(lo + 1, hi);
    }
  }

  /** The days of the weeks of a non-empty range, read week by week, are
      exactly the consecutive days from start to end. */
  lemma WeeksCoverRange(weeks: seq<Week>, start: int, end: int)
    requires start <= end
    requires Flatten(weeks) == Padded(start, end)
    ensures Present(Flatten(weeks)) == DayRange(start, end)
  {
    PresentConcat(Nones(Weekday(start)) + Days(start, end), Nones(6 - Weekday(end)));
    PresentConcat(Nones(Weekday(start)), Days(start, end));
    PresentNones(Weekday(start));
    PresentNones(6 - Weekday(end));
    PresentDays(start, end);
  }

  /** A single day gives one week holding that day at its weekday and padding elsewhere. */
  lemma SingleDayWeek(weeks: seq<Week>, d: int)
    requires AllFull(weeks) && Flatten(weeks) == Padded(d, d)
    ensures |weeks| == 1
    ensures weeks[0][Weekday(d)] == Some(d)
    ensures forall j :: 0 <= j < 7 && j != Weekday(d) ==> weeks[0][j].None?
  {
    FlattenFull(weeks);
    assert weeks[0][Weekday(d)] == Flatten(weeks)[Weekday(d)];
    forall j | 0 <= j < 7 && j != Weekday(d)
      ensures weeks[0][j].None?
    {
      assert weeks[0][j] == Flatten(weeks)[j];
    }
  }

  function Reversed<T>(s: seq<T>): (r: seq<T>)
    ensures |r| == |s|
    ensures forall i :: 0 <= i < |s| ==> r[i] == s[|s| - 1 - i]
  {
    if |s| == 0 then [] else [s[|s| - 1]] + Reversed(s[..|s| - 1])
  }

  /** Reversing twice gives the weeks back; reversal keeps every week full. */
  lemma ReversedRoundTrip<T>(weeks: seq<seq<T>>)
    ensures Reversed(Reversed(weeks)) == weeks
    ensures AllFull(weeks) ==> AllFull(Reversed(weeks))
  {
  }

  /** The first date slot of a week that is not padding. */
  function FirstDay(week: Week): Option<int>
  {
    if |week| == 0 then None
    else if week[0].Some? then week[0]
    else FirstDay(week[1..])
  }

  /** FirstDay finds the first non-padding slot, and finds none only in a week
      of padding. */
  lemma {:induction false} FirstDayFinds(week: Week)
    ensures FirstDay(week).None? <==> forall j :: 0 <= j < |week| ==> week[j].None?
    ensures FirstDay(week).Some? ==>
              exists j :: 0 <= j < |week| && week[j] == FirstDay(week) && forall i :: 0 <= i < j ==> week[i].None?
  {
    if |week| > 0 && week[0].None? {
      var rest := week[1..];
      FirstDayFinds(rest);
      assert forall j :: 1 <= j < |week| ==> week[j] == rest[j - 1];
      if FirstDay(rest).Some? {
        var j :| 0 <= j < |rest| && rest[j] == FirstDay(rest) && forall i :: 0 <= i < j ==> rest[i].None?;
        assert week[j + 1] == FirstDay(week);
      }
    }
  }

  /** Month index as the calendar reports it, January = 0. */
  type MonthIndex = m: int | 0 <= m < 12

  /** A month label over the week column at `weekIndex`. */
  datatype MonthLabel = MonthLabel(weekIndex: nat, month: MonthIndex)

  /** The month of the first day of week i, if the week has a day. */
  function WeekMonth(weeks: seq<Week>, month: int -> MonthIndex, i: nat): Option<MonthIndex>
    requires i < |weeks|
  {
    match FirstDay(weeks[i])
    case None => None
    case Some(d) => Some(month(d))
  }

  /** The month of the last label placed at or before week column i. */
  function MonthInForce(labels: seq<MonthLabel>, i: nat): Option<MonthIndex>
  {
    if |labels| == 0 then None
    else if labels[|labels| - 1].weekIndex <= i then Some(labels[|labels| - 1].month)
    else MonthInForce(labels[..|labels| - 1], i)
  }

  /** Every labelled-eligible week before column upTo (any but the first,
      holding a day) has its own month in force. */
  ghost predicate MonthsInForce(weeks: seq<Week>, month: int -> MonthIndex, labels: seq<MonthLabel>, upTo: nat)
    requires upTo <= |weeks|
  {
    forall i :: 0 < i < upTo && WeekMonth(weeks, month, i).Some? ==> MonthInForce(labels, i) == WeekMonth(weeks, month, i)
  }

  /** Placing a label on week w keeps the months in force before w and puts
      the label's month in force at w. */
  lemma MonthsInForceLabelled(weeks: seq<Week>, month: int -> MonthIndex, labels: seq<MonthLabel>, w: nat, m: MonthIndex)
    requires w < |weeks| && WeekMonth(weeks, month, w) == Some(m)
    requires MonthsInForce(weeks, month, labels, w)
    ensures MonthsInForce(weeks, month, labels + [MonthLabel(w, m)], w + 1)
  {
    assert (labels + [MonthLabel(w, m)])[..|labels|] == labels;
  }

  /** Leaving week w unlabelled keeps every month in force when w is the
      first column, holds no day, or already has its month in force. */
  lemma MonthsInForceUnlabelled(weeks: seq<Week>, month: int -> MonthIndex, labels: seq<MonthLabel>, w: nat)
    requires w < |weeks|
    requires MonthsInForce(weeks, month, labels, w)
    requires w == 0 || WeekMonth(weeks, month, w).None? || MonthInForce(labels, w) == WeekMonth(weeks, month, w)
    ensures MonthsInForce(weeks, month, labels, w + 1)
  {
  }

  /** The labels placed over the first upTo columns: none on column 0, each
      carrying its week's month, columns increasing, consecutive months differing. */
  ghost predicate LabelsPlaced(weeks: seq<Week>, month: int -> MonthIndex, labels: seq<MonthLabel>, upTo: nat)
    requires upTo <= |weeks|
  {
    && (forall k :: 0 <= k < |labels| ==> 0 < labels[k].weekIndex < upTo)
    && (forall k :: 0 <= k < |labels| ==> WeekMonth(weeks, month, labels[k].weekIndex) == Some(labels[k].month))
    && (forall k :: 0 < k < |labels| ==> labels[k - 1].weekIndex < labels[k].weekIndex)
    && (forall k :: 0 < k < |labels| ==> labels[k - 1].month != labels[k].month)
  }

  lemma LabelsPlacedAppend(weeks: seq<Week>, month: int -> MonthIndex, labels: seq<MonthLabel>, w: nat, m: MonthIndex)
    requires 0 < w < |weeks| && WeekMonth(weeks, month, w) == Some(m)
    requires LabelsPlaced(weeks, month, labels, w)
    requires |labels| > 0 ==> labels[|labels| - 1].month != m
    ensures LabelsPlaced(weeks, month, labels + [MonthLabel(w, m)], w + 1)
  {
    var placed := labels + [MonthLabel(w, m)];
    forall k | 0 <= k < |placed|
      ensures 0 < placed[k].weekIndex < w + 1
      ensures WeekMonth(weeks, month, placed[k].weekIndex) == Some(placed[k].month)
    {
      if k < |labels| { assert placed[k] == labels[k]; }
    }
    forall k | 0 < k < |placed|
      ensures placed[k - 1].weekIndex < placed[k].weekIndex && placed[k - 1].month != placed[k].month
    {
      assert placed[k - 1] == labels[k - 1];
      if k < |labels| { assert placed[k] == labels[k]; }
    }
  }

  lemma LabelsPlacedSkip(weeks: seq<Week>, month: int -> MonthIndex, labels: seq<MonthLabel>, w: nat)
    requires w < |weeks|
    requires LabelsPlaced(weeks, month, labels, w)
    ensures LabelsPlaced(weeks, month, labels, w + 1)
  {
  }

  /** The state of the label loop before column w: the labels placed so
      far, the month of the last of them (-1 before any), and the month in
      force at every eligible column already passed. */
  ghost predicate LabelState(weeks: seq<Week>, month: int -> MonthIndex, labels: seq<MonthLabel>, lastMonth: int, w: nat)
    requires w <= |weeks|
  {
    && lastMonth == (if |labels| == 0 then -1 else labels[|labels| - 1].month)
    && LabelsPlaced(weeks, month, labels, w)
    && MonthsInForce(weeks, month, labels, w)
  }

  /** Labelling week w with its month m, which differs from the last label's. */
  lemma LabelStateAppend(weeks: seq<Week>, month: int -> MonthIndex, labels: seq<MonthLabel>, lastMonth: int, w: nat, m: MonthIndex)
    requires 0 < w < |weeks| && WeekMonth(weeks, month, w) == Some(m) && m != lastMonth
    requires LabelState(weeks, month, labels, lastMonth, w)
    ensures LabelState(weeks, month, labels + [MonthLabel(w, m)], m, w + 1)
  {
    MonthsInForceLabelled(weeks, month, labels, w, m);
    LabelsPlacedAppend(weeks, month, labels, w, m);
  }

  /** Leaving week w unlabelled: the first column, a week of padding, or a
      week in the last label's month. */
  lemma LabelStateSkip(weeks: seq<Week>, month: int -> MonthIndex, labels: seq<MonthLabel>, lastMonth: int, w: nat)
    requires w < |weeks| && LabelState(weeks, month, labels, lastMonth, w)
    requires w == 0 || WeekMonth(weeks, month, w).None? || WeekMonth(weeks, month, w) == Some(lastMonth)
    ensures LabelState(weeks, month, labels, lastMonth, w + 1)
  {
    if w > 0 && WeekMonth(weeks, month, w).Some? {
      assert |labels| > 0;
      assert MonthInForce(labels, w) == Some(lastMonth);
    }
    MonthsInForceUnlabelled(weeks, month, labels, w);
    LabelsPlacedSkip(weeks, month, labels, w);
  }

  /** The label loop over the (already reversed) weeks: a week whose first day
      falls in a month other than the last labelled one gets a label, except
      the very first week, which never does. */
  method MonthLabels(weeks: seq<Week>, month: int -> MonthIndex) returns (labels: seq<MonthLabel>)
    ensures forall k :: 0 <= k < |labels| ==> 0 < labels[k].weekIndex < |weeks|
    ensures forall k :: 0 <= k < |labels| ==> WeekMonth(weeks, month, labels[k].weekIndex) == Some(labels[k].month)
    ensures forall k :: 0 < k < |labels| ==> labels[k - 1].weekIndex < labels[k].weekIndex
    ensures forall k :: 0 < k < |labels| ==> labels[k - 1].month != labels[k].month
    ensures forall i :: 0 < i < |weeks| && WeekMonth(weeks, month, i).Some? ==>
              MonthInForce(labels, i) == WeekMonth(weeks, month, i)
  {
    labels := [];
    var lastMonth: int := -1;
    var weekIndex := 0;
    while weekIndex < |weeks|
      invariant weekIndex <= |weeks|
      invariant LabelState(weeks, month, labels, lastMonth, weekIndex)
    {
      var firstDay := FirstDay(weeks[weekIndex]);
      if firstDay.Some? {
        var m: MonthIndex := month(firstDay.value);
        if m != lastMonth && weekIndex > 0 {
          LabelStateAppend(weeks, month, labels, lastMonth, weekIndex, m);
          labels := labels + [MonthLabel(weekIndex, m)];
          lastMonth := m;
        } else {
          LabelStateSkip(weeks, month, labels, lastMonth, weekIndex);
        }
      } else {
        LabelStateSkip(weeks, month, labels, lastMonth, weekIndex);
      }
      weekIndex := weekIndex + 1;
    }
  }
}
