/** The cells of the two heat grids, week column by week column over the
    reversed weeks: one cell per date slot in the coarse view, three (breakfast,
    lunch, dinner) per date slot in the detailed view. The calendar text of a
    date (its tooltip header) and its store key are parameters. */
module Grid {
  import opened MealModel
  import opened Classification
  import opened Tiling
  import opened Tooltips

  /** A padding cell, or a cell for a date with its category and tooltip. */
  datatype Cell = Empty | Square(date: int, category: Category, tooltip: string)

  /** The coarse cell of one date slot. */
  function CoarseCell(slot: Option<int>, classOf: int -> Category, tooltipOf: int -> string): Cell
  {
    match slot
    case None => Empty
    case Some(d) => Square(d, classOf(d), tooltipOf(d))
  }

  /** The coarse cells of one week column, one per date slot, in slot order. */
  function CoarseColumn(week: Week, classOf: int -> Category, tooltipOf: int -> string): (col: seq<Cell>)
    ensures |col| == |week|
  {
    seq(|week|, j requires 0 <= j < |week| => CoarseCell(week[j], classOf, tooltipOf))
  }

  /** The coarse grid: the columns of the weeks in order. */
  function CoarseCells(weeks: seq<Week>, classOf: int -> Category, tooltipOf: int -> string): seq<Cell>
  {
    Flatten(seq(|weeks|, i requires 0 <= i < |weeks| => CoarseColumn(weeks[i], classOf, tooltipOf)))
  }

  /** Over full weeks, coarse cell 7 * i + j shows slot j of week i: padding
      gives an empty cell, a date its category and tooltip. */
  lemma CoarseCellsAt(weeks: seq<Week>, classOf: int -> Category, tooltipOf: int -> string)
    requires AllFull(weeks)
    ensures |CoarseCells(weeks, classOf, tooltipOf)| == 7 * |weeks|
    ensures forall i, j :: 0 <= i < |weeks| && 0 <= j < 7 ==>
              CoarseCells(weeks, classOf, tooltipOf)[7 * i + j] == CoarseCell(weeks[i][j], classOf, tooltipOf)
  {
    var cols := seq(|weeks|, i requires 0 <= i < |weeks| => CoarseColumn(weeks[i], classOf, tooltipOf));
    assert Uniform(cols, 7);
    FlattenUniformLength(cols, 7);
    forall i, j | 0 <= i < |weeks| && 0 <= j < 7
      ensures CoarseCells(weeks, classOf, tooltipOf)[7 * i + j] == CoarseCell(weeks[i][j], classOf, tooltipOf)
    {
      FlattenUniformAt(cols, 7, i, j);
    }
  }

  /** The slots of the detailed view, top to bottom. */
  const DetailSlots: seq<Slot> := [Breakfast, Lunch, Dinner]

  /** The three detailed cells of one date slot: padding gives three empty
      cells; a date gives one cell per meal slot, each classified on its own record. */
  function DetailedDay(slot: Option<int>, store: Store, key: int -> string, header: int -> string): (cells: seq<Cell>)
    ensures |cells| == 3
  {
    match slot
    case None => [Empty, Empty, Empty]
    case Some(d) =>
      var day := EntryOf(store, key(d));
      seq(3, m requires 0 <= m < 3 =>
        var meal := if DetailSlots[m] in day then Some(day[DetailSlots[m]]) else None;
        Square(d, MealClass(meal), DetailedTooltip(header(d), DetailSlots[m], meal)))
  }

  /** The detailed cell of one date slot and meal slot: empty for padding,
      otherwise the category and tooltip of the record stored for that date
      and meal slot. */
  function DetailCell(slot: Option<int>, store: Store, key: int -> string, header: int -> string, mealSlot: Slot): Cell
  {
    match slot
    case None => Empty
    case Some(d) =>
      var meal := Lookup(store, key(d), mealSlot);
      Square(d, MealClass(meal), DetailedTooltip(header(d), mealSlot, meal))
  }

  /** Padding gives three empty cells; meal slot m of a date gets the
      category and tooltip of the record stored for that date and slot. */
  lemma DetailedDayCells(slot: Option<int>, store: Store, key: int -> string, header: int -> string)
    ensures slot.None? ==> DetailedDay(slot, store, key, header) == [Empty, Empty, Empty]
    ensures forall m :: 0 <= m < 3 ==>
              DetailedDay(slot, store, key, header)[m] == DetailCell(slot, store, key, header, DetailSlots[m])
  {
  }

  /** The three detailed cells of each date slot of a week column. */
  function DetailedDays(week: Week, store: Store, key: int -> string, header: int -> string): (days: seq<seq<Cell>>)
    ensures |days| == |week| && Uniform(days, 3)
  {
    seq(|week|, j requires 0 <= j < |week| => DetailedDay(week[j], store, key, header))
  }

  /** The detailed cells of one week column: the three cells of each date slot in order. */
  function DetailedColumn(week: Week, store: Store, key: int -> string, header: int -> string): (col: seq<Cell>)
  {
    Flatten(DetailedDays(week, store, key, header))
  }

  /** Detailed cell 3 * j + m of a column is meal slot m of its date slot j. */
  lemma DetailedColumnCell(week: Week, store: Store, key: int -> string, header: int -> string, j: nat, m: nat)
    requires j < |week| && m < 3
    ensures |DetailedColumn(week, store, key, header)| == 3 * |week|
    ensures DetailedColumn(week, store, key, header)[3 * j + m] == DetailedDay(week[j], store, key, header)[m]
  {
    FlattenUniformLength(DetailedDays(week, store, key, header), 3);
    FlattenUniformAt(DetailedDays(week, store, key, header), 3, j, m);
  }

  lemma DetailedColumnAt(week: Week, store: Store, key: int -> string, header: int -> string)
    ensures |DetailedColumn(week, store, key, header)| == 3 * |week|
    ensures forall j, m :: 0 <= j < |week| && 0 <= m < 3 ==>
              DetailedColumn(week, store, key, header)[3 * j + m] == DetailedDay(week[j], store, key, header)[m]
  {
    FlattenUniformLength(DetailedDays(week, store, key, header), 3);
    forall j, m | 0 <= j < |week| && 0 <= m < 3
      ensures DetailedColumn(week, store, key, header)[3 * j + m] == DetailedDay(week[j], store, key, header)[m]
    {
      DetailedColumnCell(week, store, key, header, j, m);
    }
  }

  /** The detailed cells of each week column. */
  function DetailedColumns(weeks: seq<Week>, store: Store, key: int -> string, header: int -> string): (cols: seq<seq<Cell>>)
    ensures |cols| == |weeks|
    ensures forall i :: 0 <= i < |weeks| ==> cols[i] == DetailedColumn(weeks[i], store, key, header)
  {
    seq(|weeks|, i requires 0 <= i < |weeks| => DetailedColumn(weeks[i], store, key, header))
  }

  /** The detailed grid: the columns of the weeks in order. */
  function DetailedCells(weeks: seq<Week>, store: Store, key: int -> string, header: int -> string): seq<Cell>
  {
    Flatten(DetailedColumns(weeks, store, key, header))
  }

  lemma DetailedColumnsUniform(weeks: seq<Week>, store: Store, key: int -> string, header: int -> string)
    requires AllFull(weeks)
    ensures Uniform(DetailedColumns(weeks, store, key, header), 21)
  {
    forall i | 0 <= i < |weeks| ensures |DetailedColumns(weeks, store, key, header)[i]| == 21 {
      FlattenUniformLength(DetailedDays(weeks[i], store, key, header), 3);
    }
  }

  lemma DetailedCellAt(weeks: seq<Week>, store: Store, key: int -> string, header: int -> string, i: nat, j: nat, m: nat)
    requires AllFull(weeks) && Uniform(DetailedColumns(weeks, store, key, header), 21)
    requires i < |weeks| && j < 7 && m < 3
    ensures 21 * i + 3 * j + m < |DetailedCells(weeks, store, key, header)|
    ensures DetailedCells(weeks, store, key, header)[21 * i + 3 * j + m] == DetailedDay(weeks[i][j], store, key, header)[m]
  {
    var cols := DetailedColumns(weeks, store, key, header);
    FlattenUniformAt(cols, 21, i, 3 * j + m);
    DetailedColumnCell(weeks[i], store, key, header, j, m);
  }

  /** Over full weeks, detailed cell 21 * i + 3 * j + m is meal slot m
      (breakfast, lunch, dinner) of date slot j of week i. */
  lemma DetailedCellsAt(weeks: seq<Week>, store: Store, key: int -> string, header: int -> string)
    requires AllFull(weeks)
    ensures |DetailedCells(weeks, store, key, header)| == 21 * |weeks|
    ensures forall i, j, m :: 0 <= i < |weeks| && 0 <= j < 7 && 0 <= m < 3 ==>
              DetailedCells(weeks, store, key, header)[21 * i + 3 * j + m] == DetailedDay(weeks[i][j], store, key, header)[m]
  {
    DetailedColumnsUniform(weeks, store, key, header);
    FlattenUniformLength(DetailedColumns(weeks, store, key, header), 21);
    forall i, j, m | 0 <= i < |weeks| && 0 <= j < 7 && 0 <= m < 3
      ensures DetailedCells(weeks, store, key, header)[21 * i + 3 * j + m] == DetailedDay(weeks[i][j], store, key, header)[m]
    {
      DetailedCellAt(weeks, store, key, header, i, j, m);
    }
  }

  /** Over full weeks, detailed cell 21 * i + 3 * j + m is the detail cell of
      date slot j of week i for meal slot m (breakfast, lunch, dinner). */
  lemma DetailedCellsMeaning(weeks: seq<Week>, store: Store, key: int -> string, header: int -> string)
    requires AllFull(weeks)
    ensures |DetailedCells(weeks, store, key, header)| == 21 * |weeks|
    ensures forall i, j, m :: 0 <= i < |weeks| && 0 <= j < 7 && 0 <= m < 3 ==>
              DetailedCells(weeks, store, key, header)[21 * i + 3 * j + m] == DetailCell(weeks[i][j], store, key, header, DetailSlots[m])
  {
    DetailedCellsAt(weeks, store, key, header);
    forall i, j | 0 <= i < |weeks| && 0 <= j < 7
      ensures forall m :: 0 <= m < 3 ==>
                DetailedDay(weeks[i][j], store, key, header)[m] == DetailCell(weeks[i][j], store, key, header, DetailSlots[m])
    {
      DetailedDayCells(weeks[i][j], store, key, header);
    }
  }
}
