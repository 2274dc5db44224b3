/** The entities of the meal tracker: meal slots, meal records, day entries,
    the meal store and the categories the views colour cells with. */
module MealModel {

  datatype Option<+T> = None | Some(value: T)

  /** The keys a day entry may hold: the three meal occasions and the skip marker. */
  datatype Slot = Breakfast | Lunch | Dinner | Skipped

  const AllSlots: set<Slot> := {Breakfast, Lunch, Dinner, Skipped}

  /** The key under which a slot is stored (the form's `mealType` value). */
  function SlotName(s: Slot): (name: string)
    ensures SlotOfName(name) == Some(s)
  {
    match s
    case Breakfast => "breakfast"
    case Lunch => "lunch"
    case Dinner => "dinner"
    case Skipped => "skipped"
  }

  /** Reads a stored key back as a slot; any other key is not a slot. */
  function SlotOfName(name: string): (r: Option<Slot>)
  {
    if name == "breakfast" then Some(Breakfast)
    else if name == "lunch" then Some(Lunch)
    else if name == "dinner" then Some(Dinner)
    else if name == "skipped" then Some(Skipped)
    else None
  }

  lemma SlotOfNameInverse(name: string)
    ensures SlotOfName(name).Some? ==> SlotName(SlotOfName(name).value) == name
    ensures SlotOfName(name).None? ==> forall s: Slot :: SlotName(s) != name
  {
  }

  /** A meal record as the program stores it. The program builds records as
      loosely shaped objects: a truthy `skipped` field marks a skipped meal,
      `location` and `healthiness` are present on logged meals only (None is an
      absent field), `notes` may be empty. */
  datatype Record = Record(
    skipped: bool,
    location: Option<string>,
    healthiness: Option<string>,
    notes: string,
    timestamp: string)

  /** At most one record per slot for one calendar date. */
  type DayEntry = map<Slot, Record>

  /** Date key (`YYYY-MM-DD`) to the day's entry. */
  type Store = map<string, DayEntry>

  /** The record stored for (date, slot), if any. */
  function Lookup(store: Store, date: string, slot: Slot): (r: Option<Record>)
    ensures r.Some? <==> date in store && slot in store[date]
    ensures r.Some? ==> r.value == store[date][slot]
  {
    if date in store && slot in store[date] then Some(store[date][slot]) else None
  }

  /** The day entry for a date, None when the date has no key. */
  function DayOf(store: Store, date: string): (r: Option<DayEntry>)
    ensures r.Some? <==> date in store
    ensures r.Some? ==> r.value == store[date]
  {
    if date in store then Some(store[date]) else None
  }

  /** The entry of a date, empty when the date has no key. */
  function EntryOf(store: Store, date: string): DayEntry
  {
    if date in store then store[date] else map[]
  }

  /** No date key maps to an entry without records. */
  ghost predicate NoEmptyDays(store: Store)
  {
    forall d :: d in store ==> |store[d]| > 0
  }

  /** The visual categories of a record or a day. */
  datatype Category = NoData | MealSkipped | HomeHealthy | HomeUnhealthy | OutsideHealthy | OutsideUnhealthy

  /** The class name the views put on a cell for a category. */
  function CategoryName(c: Category): string
  {
    match c
    case NoData => "no-data"
    case MealSkipped => "meal-skipped"
    case HomeHealthy => "home-healthy"
    case HomeUnhealthy => "home-unhealthy"
    case OutsideHealthy => "outside-healthy"
    case OutsideUnhealthy => "outside-unhealthy"
  }
}
