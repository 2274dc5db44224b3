/** The meal tracker object: the meal store it holds and persists, the
    import staged between choosing a file and applying it, the chosen graph
    period and the history date filter, with the operations that change them. */
module Tracker {
  import opened MealModel
  import opened StoreOps
  import opened Codec
  import opened Classification
  import opened Tiling
  import opened Tooltips
  import opened Grid
  import opened History

  /** How a staged import is applied. */
  datatype ImportMode = Replace | Merge

  /** What reading the chosen file gave: no file chosen, a read error, or the
      text, parsed as JSON (None when it is not valid JSON). */
  datatype FileRead = NoFile | ReadFailed | Loaded(parsed: Option<Json>)

  datatype SelectOutcome = NoFileChosen | ReadError | InvalidFormat | Staged

  datatype ImportOutcome = NothingToImport | Declined | Imported

  /** The store a chosen file stages: a parsed payload passing the shape
      check whose meals the store can hold. */
  function StagedImport(file: FileRead): (r: Option<Store>)
    ensures r.Some? ==> file.Loaded? && file.parsed.Some? && CheckImport(file.parsed.value).Some?
  {
    if file.Loaded? && file.parsed.Some? then
      match CheckImport(file.parsed.value)
      case None => None
      case Some(m) => DecodeStore(m)
    else None
  }

  /** A file holding an export stages exactly the exported store. */
  lemma ExportedFileStages(store: Store, exportDate: string)
    ensures StagedImport(Loaded(Some(ExportPayload(store, exportDate)))) == Some(store)
  {
    ExportImportRoundTrip(store, exportDate);
  }

  /** The migration loop of loading: each legacy record becomes its date's lunch. */
  method Migrate(oldMeals: LegacyStore) returns (newMeals: Store)
    ensures newMeals == Migrated(oldMeals)
  {
    newMeals := map[];
    var dates := oldMeals.Keys;
    ghost var done: set<string> := {};
    while dates != {}
      invariant forall d :: d in oldMeals <==> d in dates || d in done
      invariant forall d :: d in dates ==> d !in done
      invariant newMeals == map d | d in done :: map[Lunch := oldMeals[d]]
      decreases |dates|
    {
      var date :| date in dates;
      newMeals := newMeals[date := map[Lunch := oldMeals[date]]];
      dates := dates - {date};
      done := done + {date};
    }
  }

  /** `r` holds `current` overlaid with the incoming records of the dates in
      `done` and of the slots `doneSlots` of `date`; its dates are those of
      `current`, of `done` and `date`. */
  ghost predicate MergedSlots(r: Store, current: Store, incoming: Store, done: set<string>, date: string, doneSlots: set<Slot>)
  {
    && (forall d :: d in r <==> d in current || d in done || d == date)
    && forall d, s :: Lookup(r, d, s) ==
         if (d in done || (d == date && s in doneSlots)) && Lookup(incoming, d, s).Some?
         then Lookup(incoming, d, s) else Lookup(current, d, s)
  }

  /** `r` holds `current` overlaid with the incoming records of the dates in `done`. */
  ghost predicate MergedDates(r: Store, current: Store, incoming: Store, done: set<string>)
  {
    && (forall d :: d in r <==> d in current || d in done)
    && forall d, s :: Lookup(r, d, s) ==
         if d in done && Lookup(incoming, d, s).Some? then Lookup(incoming, d, s) else Lookup(current, d, s)
  }

  lemma MergeStartDate(r: Store, current: Store, incoming: Store, done: set<string>, date: string)
    requires MergedDates(r, current, incoming, done) && date !in done
    ensures MergedSlots(if date in r then r else r[date := map[]], current, incoming, done, date, {})
  {
    var r' := if date in r then r else r[date := map[]];
    forall d, s ensures Lookup(r', d, s) == Lookup(r, d, s) {
    }
  }

  lemma MergeSlotStep(r: Store, current: Store, incoming: Store, done: set<string>, date: string, doneSlots: set<Slot>, slot: Slot)
    requires MergedSlots(r, current, incoming, done, date, doneSlots)
    requires date in incoming && slot in incoming[date]
    ensures date in r
    ensures MergedSlots(r[date := r[date][slot := incoming[date][slot]]], current, incoming, done, date, doneSlots + {slot})
  {
  }

  lemma MergeEndDate(r: Store, current: Store, incoming: Store, done: set<string>, date: string, doneSlots: set<Slot>)
    requires date in incoming && (forall s :: s in incoming[date] <==> s in doneSlots)
    requires MergedSlots(r, current, incoming, done, date, doneSlots)
    ensures MergedDates(r, current, incoming, done + {date})
  {
  }

  lemma MergeBegin(r: Store, incoming: Store)
    ensures MergedDates(r, r, incoming, {})
  {
  }

  lemma MergeComplete(r: Store, current: Store, incoming: Store, done: set<string>)
    requires forall d :: d in incoming <==> d in done
    requires MergedDates(r, current, incoming, done)
    ensures r == MergeStores(current, incoming)
  {
    StoresEqual(r, MergeStores(current, incoming));
  }

  /** The inner merge loop: writes the incoming records of one date into
      the store, creating the date when it is missing. */
  method MergeDate(r: Store, incoming: Store, date: string, ghost start: Store, ghost done: set<string>)
    returns (merged: Store)
    requires date in incoming && date !in done
    requires MergedDates(r, start, incoming, done)
    ensures MergedDates(merged, start, incoming, done + {date})
  {
    MergeStartDate(r, start, incoming, done, date);
    merged := r;
    if date !in merged {
      merged := merged[date := map[]];
    }
    var dayMeals := incoming[date];
    var slots := dayMeals.Keys;
    ghost var doneSlots: set<Slot> := {};
    while slots != {}
      invariant forall s :: s in dayMeals <==> s in slots || s in doneSlots
      invariant forall s :: s in slots ==> s !in doneSlots
      invariant MergedSlots(merged, start, incoming, done, date, doneSlots)
      decreases |slots|
    {
      var mealType :| mealType in slots;
      MergeSlotStep(merged, start, incoming, done, date, doneSlots, mealType);
      merged := merged[date := merged[date][mealType := dayMeals[mealType]]];
      slots := slots - {mealType};
      doneSlots := doneSlots + {mealType};
    }
    MergeEndDate(merged, start, incoming, done, date, doneSlots);
  }

  /** The merge loop: writes every incoming (date, slot) record into the
      store, date by date in the import's iteration order (left unspecified). */
  method MergeAll(current: Store, incoming: Store) returns (merged: Store)
    ensures merged == MergeStores(current, incoming)
  {
    merged := current;
    var dates := incoming.Keys;
    ghost var done: set<string> := {};
    MergeBegin(merged, incoming);
    while dates != {}
      invariant forall d :: d in incoming <==> d in dates || d in done
      invariant forall d :: d in dates ==> d !in done
      invariant MergedDates(merged, current, incoming, done)
      decreases |dates|
    {
      var date :| date in dates;
      merged := MergeDate(merged, incoming, date, current, done);
      dates := dates - {date};
      done := done + {date};
    }
    MergeComplete(merged, current, incoming, done);
  }

  class MealTracker {
    /** The meal store. */
    var meals: Store
    /** The import staged by choosing a file, until it is applied or cancelled. */
    var pendingImport: Option<Store>
    /** The store as last persisted under `mealsV2`, None when nothing was. */
    var saved: Option<Store>
    /** The number of days the daily graph shows. */
    var currentPeriod: int
    /** The history filter's date (None when cleared). */
    var filterDate: Option<string>

    /** Every change to the store is persisted: the store is what was saved
        last, or empty when nothing was. */
    ghost predicate Valid()
      reads this
    {
      && (saved.Some? ==> saved.value == meals)
      && (saved.None? ==> meals == map[])
    }

    /** Loading: the saved store when there is one; otherwise the migrated
        legacy store, which is saved at once; otherwise an empty store. The
        graph period starts at 30 days. */
    constructor(stored: Option<Store>, legacy: Option<LegacyStore>)
      ensures Valid()
      ensures stored.Some? ==> meals == stored.value && saved == stored
      ensures stored.None? && legacy.Some? ==> meals == Migrated(legacy.value) && saved == Some(meals)
      ensures stored.None? && legacy.None? ==> meals == map[] && saved.None?
      ensures pendingImport.None? && currentPeriod == 30 && filterDate.None?
    {
      if stored.Some? {
        meals := stored.value;
        saved := stored;
      } else if legacy.Some? {
        var newMeals := Migrate(legacy.value);
        meals := newMeals;
        saved := Some(newMeals);
      } else {
        meals := map[];
        saved := None;
      }
      pendingImport := None;
      currentPeriod := 30;
      filterDate := None;
    }

    /** Logging a meal sets (date, slot) to the form's record, creating the
        date entry if needed, and persists the store. */
    method AddMeal(date: string, slot: Slot, location: string, healthiness: string, notes: string, timestamp: string)
      requires Valid()
      modifies this
      ensures Valid()
      ensures meals == WithMeal(old(meals), date, slot, NewRecord(slot, location, healthiness, notes, timestamp))
      ensures saved == Some(meals)
      ensures pendingImport == old(pendingImport) && currentPeriod == old(currentPeriod) && filterDate == old(filterDate)
    {
      var m := meals;
      if date !in m {
        m := m[date := map[]];
      }
      assert m[date] == EntryOf(meals, date);
      m := m[date := m[date][slot := NewRecord(slot, location, healthiness, notes, timestamp)]];
      meals := m;
      saved := Some(m);
    }

    /** Deleting a meal, once confirmed (or with confirmation skipped, as when
        editing): removes (date, slot), drops the date when it is left empty,
        and persists the store. An absent date changes and saves nothing. */
    method DeleteMeal(date: string, slot: Slot, skipConfirm: bool, confirmed: bool)
      requires Valid()
      modifies this
      ensures Valid()
      ensures !skipConfirm && !confirmed ==> meals == old(meals) && saved == old(saved)
      ensures skipConfirm || confirmed ==> meals == WithoutMeal(old(meals), date, slot)
      ensures skipConfirm || confirmed ==> saved == if date in old(meals) then Some(meals) else old(saved)
      ensures pendingImport == old(pendingImport) && currentPeriod == old(currentPeriod) && filterDate == old(filterDate)
    {
      if !skipConfirm && !confirmed {
        return;
      }
      var m := meals;
      if date in m {
        m := m[date := m[date] - {slot}];
        if |m[date]| == 0 {
          m := m - {date};
          assert m == meals - {date};
        } else {
          assert m == meals[date := meals[date] - {slot}];
        }
        assert m == WithoutMeal(meals, date, slot);
        meals := m;
        saved := Some(m);
      }
    }

    /** Choosing a file: a payload that parses and passes the shape check is
        staged, replacing any earlier staged import; otherwise nothing changes. */
    method HandleFileSelect(file: FileRead) returns (outcome: SelectOutcome)
      modifies this
      ensures outcome == NoFileChosen <==> file.NoFile?
      ensures outcome == ReadError <==> file.ReadFailed?
      ensures outcome == Staged <==> StagedImport(file).Some?
      ensures pendingImport == if outcome == Staged then StagedImport(file) else old(pendingImport)
      ensures meals == old(meals) && saved == old(saved)
      ensures currentPeriod == old(currentPeriod) && filterDate == old(filterDate)
    {
      match file
      case NoFile =>
        outcome := NoFileChosen;
      case ReadFailed =>
        outcome := ReadError;
      case Loaded(parsed) =>
        var staged := StagedImport(file);
        if staged.Some? {
          pendingImport := staged;
          outcome := Staged;
        } else {
          outcome := InvalidFormat;
        }
    }

    /** Applying the staged import: nothing happens without one, nor when a
        replace is not confirmed; replace makes the store the import, merge
        overlays it; the store is persisted and the staged import dropped. */
    method ImportData(mode: ImportMode, confirmed: bool) returns (outcome: ImportOutcome)
      requires Valid()
      modifies this
      ensures Valid()
      ensures outcome == NothingToImport <==> old(pendingImport).None?
      ensures outcome == Declined <==> old(pendingImport).Some? && mode == Replace && !confirmed
      ensures outcome != Imported ==> meals == old(meals) && saved == old(saved) && pendingImport == old(pendingImport)
      ensures outcome == Imported && mode == Replace ==> meals == old(pendingImport).value
      ensures outcome == Imported && mode == Merge ==> meals == MergeStores(old(meals), old(pendingImport).value)
      ensures outcome == Imported ==> saved == Some(meals) && pendingImport.None?
      ensures currentPeriod == old(currentPeriod) && filterDate == old(filterDate)
    {
      if pendingImport.None? {
        return NothingToImport;
      }
      var incoming := pendingImport.value;
      if mode == Replace {
        if !confirmed {
          return Declined;
        }
        meals := incoming;
      } else {
        meals := MergeAll(meals, incoming);
      }
      saved := Some(meals);
      pendingImport := None;
      outcome := Imported;
    }

    /** Cancelling drops the staged import. */
    method CancelImport()
      modifies this
      ensures pendingImport.None?
      ensures meals == old(meals) && saved == old(saved)
      ensures currentPeriod == old(currentPeriod) && filterDate == old(filterDate)
    {
      pendingImport := None;
    }

    /** A period button sets the number of days the daily graph shows. */
    method SetPeriod(period: int)
      modifies this
      ensures currentPeriod == period
      ensures meals == old(meals) && saved == old(saved) && pendingImport == old(pendingImport) && filterDate == old(filterDate)
    {
      currentPeriod := period;
    }

    /** The history filter's date input; an empty value filters nothing. */
    method SetFilter(date: string)
      modifies this
      ensures filterDate == Some(date)
      ensures meals == old(meals) && saved == old(saved) && pendingImport == old(pendingImport) && currentPeriod == old(currentPeriod)
    {
      filterDate := Some(date);
    }

    /** Clearing the history filter. */
    method ClearFilter()
      modifies this
      ensures filterDate.None?
      ensures meals == old(meals) && saved == old(saved) && pendingImport == old(pendingImport) && currentPeriod == old(currentPeriod)
    {
      filterDate := None;
    }
  
    /** The history list and its count: every stored record, most recent
        date first and by slot within a date, restricted to the filter's date
        when a non-empty one is set; the count covers the whole store. Sorted
        order, distinct keys and these members determine the list. */
    method HistoryView() returns (shown: seq<HistoryEntry>, total: nat)
      ensures total == |Pairs(meals)|
      ensures Sorted(shown) && DistinctKeys(shown)
      ensures forall e :: e in shown <==>
                Lookup(meals, e.date, e.slot) == Some(e.meal)
                && (filterDate.Some? && filterDate.value != "" ==> e.date == filterDate.value)
    {
      var all := FlattenHistory(meals);
      var sorted := SortHistory(all);
      SortHistorySorted(all);
      SortDistinct(all);
      shown := Filtered(sorted, filterDate);
      if filterDate.Some? && filterDate.value != "" {
        FilterKeepsSorted(sorted, filterDate.value);
        FilterKeepsDistinct(sorted, filterDate.value);
      }
      total := |all|;
      forall e ensures e in sorted <==> Lookup(meals, e.date, e.slot) == Some(e.meal) {
        assert e in sorted <==> e in multiset(sorted);
        if Lookup(meals, e.date, e.slot) == Some(e.meal) {
          assert HistoryEntry(e.date, e.slot, meals[e.date][e.slot]) in all;
        }
      }
    }

    /** The daily graph: the weeks of the last `currentPeriod` days up to
        `today`, newest week first, their month labels, and one cell per date
        slot with the day's category and coarse tooltip. */
    method DailyGraph(today: int, key: int -> string, header: int -> string, month: int -> MonthIndex)
      returns (weeks: seq<Week>, labels: seq<MonthLabel>, cells: seq<Cell>)
      ensures AllFull(weeks)
      ensures today - (currentPeriod - 1) <= today ==> Flatten(Reversed(weeks)) == Padded(today - (currentPeriod - 1), today)
      ensures today - (currentPeriod - 1) > today ==>
                weeks == if Weekday(today - (currentPeriod - 1)) == 0 then [] else [Nones(7)]
      ensures forall k :: 0 <= k < |labels| ==> 0 < labels[k].weekIndex < |weeks|
      ensures forall k :: 0 <= k < |labels| ==> WeekMonth(weeks, month, labels[k].weekIndex) == Some(labels[k].month)
      ensures forall k :: 0 < k < |labels| ==> labels[k - 1].weekIndex < labels[k].weekIndex
      ensures forall k :: 0 < k < |labels| ==> labels[k - 1].month != labels[k].month
      ensures forall i :: 0 < i < |weeks| && WeekMonth(weeks, month, i).Some? ==>
                MonthInForce(labels, i) == WeekMonth(weeks, month, i)
      ensures |cells| == 7 * |weeks|
      ensures forall i, j :: 0 <= i < |weeks| && 0 <= j < 7 && weeks[i][j].None? ==> cells[7 * i + j] == Empty
      ensures forall i, j :: 0 <= i < |weeks| && 0 <= j < 7 && weeks[i][j].Some? ==>
                var d := weeks[i][j].value;
                cells[7 * i + j] == Square(d, DayCategory(DayOf(meals, key(d))), CoarseTooltip(header(d), DayOf(meals, key(d))))
    {
      var startDate := today - (currentPeriod - 1);
      var generated := GenerateWeeks(startDate, today);
      weeks := Reversed(generated);
      ReversedRoundTrip(generated);
      labels := MonthLabels(weeks, month);
      var m := meals;
      var classOf := (d: int) => DayCategory(DayOf(m, key(d)));
      var tooltipOf := (d: int) => CoarseTooltip(header(d), DayOf(m, key(d)));
      cells := CoarseCells(weeks, classOf, tooltipOf);
      CoarseCellsAt(weeks, classOf, tooltipOf);
    }

    /** The detailed graph: the weeks of the last 90 days up to `today`,
        newest week first, their month labels, and three cells per date slot
        (breakfast, lunch, dinner) with each record's category and tooltip. */
    method DetailedGraph(today: int, key: int -> string, header: int -> string, month: int -> MonthIndex)
      returns (weeks: seq<Week>, labels: seq<MonthLabel>, cells: seq<Cell>)
      ensures AllFull(weeks)
      ensures Flatten(Reversed(weeks)) == Padded(today - 89, today)
      ensures forall k :: 0 <= k < |labels| ==> 0 < labels[k].weekIndex < |weeks|
      ensures forall k :: 0 <= k < |labels| ==> WeekMonth(weeks, month, labels[k].weekIndex) == Some(labels[k].month)
      ensures forall k :: 0 < k < |labels| ==> labels[k - 1].weekIndex < labels[k].weekIndex
      ensures forall k :: 0 < k < |labels| ==> labels[k - 1].month != labels[k].month
      ensures forall i :: 0 < i < |weeks| && WeekMonth(weeks, month, i).Some? ==>
                MonthInForce(labels, i) == WeekMonth(weeks, month, i)
      ensures |cells| == 21 * |weeks|
      ensures forall i, j, n :: 0 <= i < |weeks| && 0 <= j < 7 && 0 <= n < 3 ==>
                cells[21 * i + 3 * j + n] == DetailCell(weeks[i][j], meals, key, header, DetailSlots[n])
    {
      var startDate := today - 89;
      var generated := GenerateWeeks(startDate, today);
      weeks := Reversed(generated);
      ReversedRoundTrip(generated);
      labels := MonthLabels(weeks, month);
      cells := DetailedCells(weeks, meals, key, header);
      DetailedCellsMeaning(weeks, meals, key, header);
    }
  }
}
