# Meal tracker core in Dafny

A model of the meal-store logic in `script.js`, the browser meal tracker. The
tracker keeps one record per meal slot (breakfast, lunch, dinner, and a
"skipped" marker) for each calendar date. It colours two heat grids from
those records: one cell per day, and three cells per day. It lists the
records as a sorted, filterable history, and it exports and imports the
store as JSON.

The model is split into these modules:

- `MealModel` (`meal_model.dfy`): slots, records, day entries, the store (a
  map from date key to a map from slot to record) and the categories.
- `Classification` (`classification.dfy`): the category of one record, and
  the category of a day. The day category is a pure priority cascade, and
  `DailyClass` runs the best-so-far loop and is proved equal to it.
- `Tiling` (`tiling.dfy`):
  - days are integers counted from 1970-01-01, a Thursday, so
    `Weekday(d) = (d + 4) % 7`, with Sunday as 0;
  - `GenerateWeeks` is the padding and tiling loop, proved against
    `Padded(start, end)`;
  - `MonthLabels` is the label loop over the reversed weeks.
- `Tooltips` (`tooltips.dfy`): the coarse and detailed tooltip texts, and the
  capitalisation of slot names.
- `Grid` (`grid.dfy`): the cell sequence of both grids, week column by week
  column.
- `StoreOps` (`store_ops.dfy`): what adding, deleting, merging and migrating
  do to the store, as functions of the old store.
- `Codec` (`codec.dfy`): the exported payload and the import shape check on
  an abstract parsed JSON value. Decoding an encoded store gives it back.
  The converse does not hold, because decoding normalises what it reads
  (see `Codec.DecodeRecord` under Left out).
- `History` (`history.dfy`):
  - the traversal that flattens the store into history entries;
  - the comparator order and an insertion sort, used as the reference for
    the array sort;
  - the date filter and the total count.
- `Tracker` (`tracker.dfy`): the `MealTracker` class. It holds `meals`,
  `pendingImport`, the last persisted store `saved`, `currentPeriod` and
  `filterDate`, and has the methods that change them. Each method is proved
  against the `StoreOps` functions. The goal is to keep `Valid()` true: the
  store is always what was persisted last.

Some inputs of the source are parameters of the model:

- the date key of a day (`toISOString().split('T')[0]`);
- its tooltip header (`toLocaleDateString`);
- its month (`getMonth`);
- today's day number;
- the current timestamp;
- the user's answer to a confirmation dialog;
- the outcome of reading and parsing a chosen file.

localStorage is modelled as the `saved` field, plus the two constructor
parameters for the stored and legacy values.

A merge whose incoming data holds a date with no records creates that date
with an empty entry, exactly as the source does. `MergeStores` keeps it,
which is why `StoreOps.MergeKeepsNoEmptyDays` requires an import without
empty days.

## Model

| member | source | states |
|---|---|---|
| MealModel.SlotName | script.js:144-155 | the key a slot is stored under reads back as that slot |
| MealModel.SlotOfNameInverse | script.js:237 | a key that reads as a slot is that slot's name; any other key names no slot |
| Classification.MealClass | script.js:344-354 | absent gives no-data; meal-skipped exactly for a skipped record; a logged record gets a category other than no-data only when it has both a location and a healthiness |
| Classification.MealClassName | script.js:344-354 | the class name of a classified logged record is its location and healthiness joined by a dash |
| Classification.LoggedNoDataIff | script.js:348-353 | a logged record is no-data exactly when its pair is none of home/outside × healthy/unhealthy |
| Classification.Score | script.js:364-370 | scores lie in 0..4 and are 0 exactly for no-data and meal-skipped |
| Classification.ScoreInjective | script.js:364-370 | the four logged categories have distinct scores |
| Classification.DayCategorySkippedIff | script.js:357-362 | a day is meal-skipped exactly when it has records and all are skipped |
| Classification.DayCategoryIsBest | script.js:372-387 | a day not all skipped gets the category of highest score among its non-skipped records, attained by one of them |
| Classification.BestUnique | script.js:372-387 | the best category of a day is unique |
| Classification.DayCategory | script.js:356-388 | reference definition of the day category as a priority cascade: absent or empty is no-data, all skipped is meal-skipped, then home-healthy, outside-healthy, home-unhealthy, outside-unhealthy among the non-skipped records; `DayCategorySkippedIff`, `DayCategoryIsBest` and `BestUnique` state what it means |
| Classification.DailyClass | script.js:356-388 | the best-so-far loop returns the day category for every day, absent and empty included |
| Classification.SkippedIgnoredBesideLogged | script.js:376-385 | a skipped breakfast beside an outside, unhealthy lunch gives outside-unhealthy |
| Tooltips.CapitalizeIdempotent | script.js:518 | capitalising twice equals capitalising once |
| Tooltips.CapitalizedSlotNames | script.js:518 | the detailed headers read "Breakfast", "Lunch", "Dinner" |
| Tooltips.CoarseLines | script.js:415-430 | one line per slot the day holds |
| Tooltips.SplitJoin | script.js:432 | lines without newlines joined with "\n" split back into the same lines |
| Tooltips.CoarseTooltipBody | script.js:414-435 | the coarse body is "No meals logged" exactly when the day is absent or empty |
| Tooltips.CoarseTooltipLines | script.js:407-437 | when the header and the record fields hold no newline, the coarse tooltip splits into the header line, then "No meals logged" for an absent or empty day, else one line per present slot |
| Tooltips.CoarseBodyLines | script.js:414-432 | when no location or healthiness of the day holds a newline, the coarse body of a non-empty day splits into its breakfast, lunch, dinner and "Meal Skipped" lines in that order |
| Tooltips.HomeHealthyLunchBody | script.js:414-432 | one home, healthy lunch gives the body "lunch: home - healthy" and the category home-healthy |
| Tooltips.LoggedTextHasDash | script.js:524 | the text of a logged record holds the " - " separator after its location |
| Tooltips.DetailedTooltipBody | script.js:520-529 | the detailed body is "Not logged" exactly for an absent record and "Skipped" exactly for a skipped one |
| Tooltips.DetailedTooltipLines | script.js:514-529 | when the header, location, healthiness and notes hold no newline, the detailed tooltip splits into the header with the capitalised slot name, then "Not logged", "Skipped", or the location-and-healthiness line followed by the notes when there are any |
| Tooltips.DetailedBodyCases | script.js:520-529 | the detailed body reads "Skipped" exactly when the slot's category is meal-skipped, and "Not logged" only for a no-data slot |
| Tiling.Weekday | script.js:558 | a weekday lies in 0..6 |
| Tiling.WeekdayNext | script.js:564-571 | the day after a Saturday is a Sunday, and otherwise the weekday advances by one |
| Tiling.Padded | script.js:557-581 | reference definition of the tiled range: the leading padding up to the start's weekday, the days start..end, the trailing padding after the end's weekday; `PaddedLength`, `WeeksAligned`, `WeeksPaddingAtEnds` and `WeeksCoverRange` state what it means |
| Tiling.GenerateWeeks | script.js:552-584 | every week has 7 slots; for start <= end the flattened weeks are the leading padding, the days start..end and the trailing padding; for start > end the result is one all-padding week unless start is a Sunday |
| Tiling.PaddedLength | script.js:557-581 | the padded range fills at least one week and a whole number of weeks |
| Tiling.WeeksAligned | script.js:557-581 | every date sits in the slot of its weekday, Sunday first |
| Tiling.WeeksPaddingAtEnds | script.js:559-581 | padding occurs only before the first day in the first week and after the last day in the last week |
| Tiling.WeeksCoverRange | script.js:563-572 | the dates of the weeks, in order, are exactly start, start+1, …, end |
| Tiling.SingleDayWeek | script.js:552-584 | a one-day range gives one week holding that day at its weekday and padding elsewhere |
| Tiling.Reversed | script.js:454 | the reversed list has the same length, entry i being entry n-1-i |
| Tiling.ReversedRoundTrip | script.js:590 | reversing twice is the identity, and reversal keeps weeks full |
| Tiling.FirstDay | script.js:462 | the first date of a week, `week.find` over the non-padding slots; `FirstDayFinds` states what it finds |
| Tiling.FirstDayFinds | script.js:462 | the first date of a week is its first non-padding slot, and a week of padding has none |
| Tiling.MonthLabels | script.js:460-473 | labels never sit on week column 0; each label's month is its week's month; columns increase; consecutive labels differ in month; every later column with a date has its own month in force (the loop at 596-609 is the same) |
| Grid.CoarseCells | script.js:630-650 | the coarse grid, the cells of each week column in turn; `CoarseCellsAt` states which cell sits where |
| Grid.CoarseCellsAt | script.js:630-650 | coarse cell 7i+j is slot j of week i |
| Grid.DetailedDay | script.js:499-537 | three cells for every date slot: three empty ones for padding, one per meal slot of the date's entry otherwise, an absent date reading as an empty entry |
| Grid.DetailCell | script.js:505-529 | reference definition of one detailed cell: empty for padding, else the category and tooltip of the record at that date and meal slot |
| Grid.DetailedDayCells | script.js:505-537 | padding gives three empty cells; meal slot m of a date gets the category and tooltip of the record at that date and slot, an empty entry standing in for a missing date |
| Grid.DetailedColumnAt | script.js:496-540 | detailed cell 3j+m of a column is meal slot m of its date slot j |
| Grid.DetailedCellsAt | script.js:492-544 | detailed cell 21i+3j+m is meal slot m of date slot j of week i |
| Grid.DetailedCells | script.js:492-547 | the detailed grid, the three cells of each date slot of each week column in turn; `DetailedCellsAt` and `DetailedCellsMeaning` state which cell sits where |
| Grid.DetailedCellsMeaning | script.js:492-544 | every detailed cell is the reference detail cell of its date and meal slot |
| StoreOps.NewRecordClass | script.js:144-156 | the form's record is meal-skipped exactly when the chosen slot is the skip marker; any other is no-data unless its location and healthiness are one of the four recognised pairs, and otherwise gets the category named "location-healthiness" (the classes of script.js:344-354) |
| StoreOps.WithMeal | script.js:132-157 | adding sets exactly (date, slot), creates the date when missing, and leaves every other pair untouched |
| StoreOps.WithoutMeal | script.js:201-207 | deleting removes exactly (date, slot) and drops the date iff no other slot remains; an absent date leaves the store unchanged; every other pair is untouched |
| StoreOps.AddKeepsNoEmptyDays | script.js:132-157 | adding keeps every stored date non-empty |
| StoreOps.DeleteKeepsNoEmptyDays | script.js:201-207 | deleting keeps every stored date non-empty |
| StoreOps.DeleteOnlySlotDropsDate | script.js:203-206 | deleting a date's only record removes the date |
| StoreOps.DeleteUndoesAdd | script.js:132-207 | for a store without empty dates where the slot was free, deleting the added slot gives the store back |
| StoreOps.MergeStores | script.js:724-736 | merge keeps the dates of both stores; incoming pairs win and current-only pairs are kept, slot by slot |
| StoreOps.MergeSelf | script.js:724-736 | merging a store into itself leaves it unchanged |
| StoreOps.MergeTwice | script.js:724-736 | merging the same import twice equals merging it once |
| StoreOps.MergeKeepsNoEmptyDays | script.js:724-736 | merging an import without empty days keeps the store without empty days |
| StoreOps.MergeKeepsOtherSlots | script.js:724-736 | an incoming dinner and a stored lunch on the same date are both kept |
| StoreOps.Migrated | script.js:112-118 | reference definition of the migrated store: each legacy record becomes its date's lunch; `MigrationRoundTrip` states that nothing is lost or added |
| StoreOps.MigrationRoundTrip | script.js:112-118 | the migrated store holds each legacy record as its date's lunch and nothing else, with no empty date |
| Codec.CheckImport | script.js:687-692 | a payload passes exactly when it is an object whose `meals` is an object or an array, and then yields that value |
| Codec.EncodeStore | script.js:655-660 | the `meals` value of the export: one object per date, one field per slot name, each record with only the fields it has; `StoreRoundTrip` states it decodes back |
| Codec.ExportPayload | script.js:655-660 | the exported object: version "2.0", the export time, the encoded store; `ExportImportRoundTrip` states it passes the import check and decodes back |
| Codec.DecodeStore | script.js:686-691 | an imported `meals` value decodes to a typed store exactly when it is an object whose every entry decodes as a day, and then the store keeps every date of the value |
| Codec.DecodeStoreContents | script.js:686-691 | under each date of a decoded import, the store holds a slot exactly when the date's object has the slot's name, and under it the record that field decodes to |
| Codec.RecordRoundTrip | script.js:655-660 | decoding an encoded record gives it back |
| Codec.DayRoundTrip | script.js:655-660 | decoding an encoded day entry gives it back |
| Codec.StoreRoundTrip | script.js:655-660 | decoding an encoded store gives it back |
| Codec.ExportImportRoundTrip | script.js:655-692 | an exported payload passes the import check, and its meals decode to the exported store |
| History.SlotOrder | script.js:237 | slot positions lie in 0..3 |
| History.SlotOrderInjective | script.js:237 | distinct slots have distinct positions |
| History.LexTotal | script.js:239 | lexicographic order orders any two distinct date keys |
| History.LexTransitive | script.js:239 | lexicographic order is transitive |
| History.Before | script.js:237-241 | reference definition of the history comparator: a later date first, then breakfast, lunch, dinner, skipped; `Incomparable`, `BeforeAsymmetric` and `NotBeforeTransitive` state what the order is |
| History.BeforeAsymmetric | script.js:237-241 | the comparator never lists two entries each before the other |
| History.Incomparable | script.js:238-242 | the comparator leaves two entries unordered exactly when they share date and slot |
| History.NotBeforeTransitive | script.js:238-242 | "not listed after" is transitive |
| History.Insert | script.js:238-242 | inserting adds exactly one entry |
| History.InsertSorted | script.js:238-242 | inserting into a sorted list keeps it sorted |
| History.SortHistory | script.js:238-242 | sorting is a permutation |
| History.SortHistorySorted | script.js:238-242 | the sorted history is most recent date first, then breakfast, lunch, dinner, skipped |
| History.SortedUnique | script.js:238-242 | two sorted lists with the same entries and distinct keys are equal |
| History.SortDistinct | script.js:238-242 | sorting keeps (date, slot) keys distinct |
| History.FilterDate | script.js:247 | the filtered list holds exactly the entries of the filter's date |
| History.FilterKeepsSorted | script.js:245-248 | filtering keeps the sort order |
| History.FilterKeepsDistinct | script.js:245-248 | filtering keeps keys distinct |
| History.Filtered | script.js:245-248 | an absent or empty filter keeps everything; otherwise only the filter's date is kept |
| History.ListsStoreCount | script.js:251 | the total shown is the number of (date, slot) pairs holding a record |
| History.GatherDay | script.js:227-233 | the inner traversal adds exactly one entry for each slot of one date |
| History.FlattenHistory | script.js:225-234 | the flattened history lists every stored record exactly once and nothing else, and its length is the number of stored pairs |
| History.ListingsSortAlike | script.js:225-242 | whatever order the store is traversed in, the sorted history is the same |
| Tracker.StagedImport | script.js:684-692 | only a parsed payload that passes the shape check can be staged |
| Tracker.ExportedFileStages | script.js:655-692 | choosing an exported file stages exactly the exported store |
| Tracker.Migrate | script.js:108-121 | the migration loop produces the migrated store |
| Tracker.MealTracker.constructor | script.js:101-125 | loads the saved store; else the migrated legacy store, saving it; else the empty store; the period starts at 30 |
| Tracker.MealTracker.AddMeal | script.js:132-159 | the store becomes the store with the record added, and it is persisted |
| Tracker.MealTracker.DeleteMeal | script.js:196-218 | without confirmation nothing changes; otherwise the store becomes the store with the slot deleted, and it is persisted when the date existed |
| Tracker.MealTracker.HandleFileSelect | script.js:677-711 | a valid file replaces the staged import; no file, a read error or an invalid payload leave everything unchanged |
| Tracker.MergeDate | script.js:727-735 | one pass of the merge loop overlays one incoming date: every slot it brings replaces the current one, the other slots stay |
| Tracker.MergeAll | script.js:724-736 | the merge loop over all incoming dates produces the merged store: incoming slots win, everything else is kept |
| Tracker.MealTracker.ImportData | script.js:713-748 | with nothing staged, or an unconfirmed replace, nothing changes; replace makes the store the import; merge overlays it; then the store is persisted and the staged import dropped |
| Tracker.MealTracker.CancelImport | script.js:750-754 | drops the staged import and leaves the store unchanged |
| Tracker.MealTracker.SetPeriod | script.js:62-74 | sets the graph period and nothing else |
| Tracker.MealTracker.SetFilter | script.js:25-28 | sets the history filter and nothing else |
| Tracker.MealTracker.ClearFilter | script.js:30-34 | clears the history filter and nothing else |
| Tracker.MealTracker.HistoryView | script.js:223-251 | the shown list is sorted, has distinct keys and holds exactly the stored records of the filter's date; the total counts every stored pair |
| Tracker.MealTracker.DailyGraph | script.js:390-438 | the weeks tile today-(period-1)..today newest first; labels as for the month loop; coarse cell 7i+j is empty for padding and otherwise holds the day's category and coarse tooltip |
| Tracker.MealTracker.DetailedGraph | script.js:440-544 | the weeks tile the 90 days up to today newest first; labels as for the month loop; detailed cell 21i+3j+m is the detail cell of its date and meal slot |

## Left out

- The DOM is not modelled. This covers element construction, CSS classes, pixel offsets for the labels, event wiring, alerts, scrolling, form reset and `handleMealTypeChange`.
- `editMeal` is not modelled: it only fills the form. Its store effect is `DeleteMeal` with confirmation skipped, which is modelled.
- Two parts of `renderMealHistory` are not modelled: the per-date grouping and the HTML of each entry. The model stops at the sorted, filtered list and the count.
- localStorage and JSON are outside the model. This covers the text stored in localStorage, `JSON.parse`/`JSON.stringify`, `FileReader`, `Blob` and the download link. Parsed values are an abstract `Json` datatype, and the persisted store is the `saved` field.
- Real dates are outside the model. This covers `Date` arithmetic, time zones, `toLocaleDateString` headers, `toISOString` keys and timestamps. They are parameters.
- The local-versus-UTC mismatch between `getDay` and the `toISOString` date key is therefore not modelled.
- Tracker.MealTracker.DailyGraph: does not model that the source builds `endDate` before `startDate` from two clock readings. When those readings differ, by the time of day the last day can fall outside the loop. The model takes both ends as whole day numbers.
- Tracker.MealTracker.DetailedGraph: the same two-clock-readings effect is not modelled.
- Tracker.MealTracker.HandleFileSelect: stages only meals the typed store can hold. Examples are objects of dates mapping to objects keyed by slot names, with string fields. The source stages any object or array, including arrays, unknown slot keys, `null` records and non-string fields.
- Import payloads the source accepts but the typed store cannot hold are outside the model, and so is what the views would make of them.
- Codec.DecodeRecord: a record's `skipped` field is read by JavaScript truthiness. `location`, `healthiness`, `notes` and `timestamp` must be strings or absent, and absent `notes`/`timestamp` read as empty text. Decoding therefore normalises: re-encoding a decoded record drops a false `skipped` and writes absent `notes`/`timestamp` as empty strings, so only decoding after encoding is an identity.
- Tooltips.UpperChar: upper-cases ASCII letters only. `toUpperCase` also handles other scripts, which the fixed slot names never need.
- History.LexLess: `localeCompare` is taken as code-point order. This agrees on `YYYY-MM-DD` keys but not on arbitrary strings.
- Tracker.MealTracker.SetPeriod: `parseInt` of the button's data attribute is a parameter, so a non-numeric attribute (NaN) is not modelled.
- Iteration order of `Object.entries` is left unspecified: the loops pick any remaining key. `History.ListingsSortAlike` shows the sorted history does not depend on it.
- The form's required-field checks are not modelled. The slot is one of the four slot values.
