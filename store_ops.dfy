/** What the store mutations do to the meal store, as functions of the old
    store: adding or overwriting one slot, deleting one slot with pruning of
    an emptied date, merging an imported store, and migrating the legacy
    one-meal-per-date store. */
module StoreOps {
  import opened MealModel
  import opened Classification

  /** The record the form creates: a skipped record carries only notes and a
      timestamp; a meal record carries location and healthiness too. */
  function NewRecord(slot: Slot, location: string, healthiness: string, notes: string, timestamp: string): (r: Record)
    ensures r.skipped <==> slot == Skipped
    ensures r.notes == notes && r.timestamp == timestamp
    ensures r.skipped ==> r.location.None? && r.healthiness.None?
    ensures !r.skipped ==> r.location == Some(location) && r.healthiness == Some(healthiness)
  {
    if slot == Skipped then Record(true, None, None, notes, timestamp)
    else Record(false, Some(location), Some(healthiness), notes, timestamp)
  }

  /** The form's record is meal-skipped exactly when the chosen slot is the
      skip marker; any other record is classified by its location and
      healthiness: no data unless they are one of the four recognised pairs,
      else the category named by the pair. */
  lemma NewRecordClass(slot: Slot, location: string, healthiness: string, notes: string, timestamp: string)
    ensures var c := MealClass(Some(NewRecord(slot, location, healthiness, notes, timestamp)));
      && (c == MealSkipped <==> slot == Skipped)
      && (slot != Skipped ==>
            (c == NoData <==> !(location in {"home", "outside"} && healthiness in {"healthy", "unhealthy"})))
      && (slot != Skipped && c != NoData ==> CategoryName(c) == location + "-" + healthiness)
  {
    var r := NewRecord(slot, location, healthiness, notes, timestamp);
    if slot != Skipped {
      LoggedNoDataIff(r);
      if MealClass(Some(r)) != NoData {
        MealClassName(r);
      }
    }
  }

  /** Adding a record sets exactly (date, slot), creating the date entry when
      it is missing, and leaves every other (date, slot) pair as it was. */
  function WithMeal(store: Store, date: string, slot: Slot, rec: Record): (r: Store)
    ensures Lookup(r, date, slot) == Some(rec)
    ensures forall d, s :: (d != date || s != slot) ==> Lookup(r, d, s) == Lookup(store, d, s)
    ensures r.Keys == store.Keys + {date}
  {
    store[date := EntryOf(store, date)[slot := rec]]
  }

  /** Deleting removes exactly (date, slot), drops the date key when its entry
      becomes empty, and leaves an absent date's store unchanged. */
  function WithoutMeal(store: Store, date: string, slot: Slot): (r: Store)
    ensures date !in store ==> r == store
    ensures Lookup(r, date, slot) == None
    ensures forall d, s :: (d != date || s != slot) ==> Lookup(r, d, s) == Lookup(store, d, s)
    ensures forall d :: d != date ==> (d in r <==> d in store)
    ensures date in store ==> (date in r <==> exists s :: s in store[date] && s != slot)
  {
    if date !in store then store
    else
      var entry := store[date] - {slot};
      if |entry| == 0 then
        assert forall s :: s in store[date] && s != slot ==> s in entry;
        store - {date}
      else
        assert exists s :: s in entry;
        store[date := entry]
  }

  lemma AddKeepsNoEmptyDays(store: Store, date: string, slot: Slot, rec: Record)
    requires NoEmptyDays(store)
    ensures NoEmptyDays(WithMeal(store, date, slot, rec))
  {
    var r := WithMeal(store, date, slot, rec);
    assert slot in r[date];
  }

  lemma DeleteKeepsNoEmptyDays(store: Store, date: string, slot: Slot)
    requires NoEmptyDays(store)
    ensures NoEmptyDays(WithoutMeal(store, date, slot))
  {
    var r := WithoutMeal(store, date, slot);
    forall d | d in r ensures |r[d]| > 0 {
      if d == date {
        var s :| s in store[date] && s != slot;
        assert s in r[d];
      }
    }
  }

  /** Deleting the only record of a date removes the date key. */
  lemma DeleteOnlySlotDropsDate(store: Store, date: string, slot: Slot)
    requires date in store && store[date].Keys == {slot}
    ensures date !in WithoutMeal(store, date, slot)
  {
  }

  /** Deleting a slot undoes adding it to a store without empty days where the slot was free. */
  lemma DeleteUndoesAdd(store: Store, date: string, slot: Slot, rec: Record)
    requires NoEmptyDays(store) && Lookup(store, date, slot).None?
    ensures WithoutMeal(WithMeal(store, date, slot, rec), date, slot) == store
  {
    var back := WithoutMeal(WithMeal(store, date, slot, rec), date, slot);
    forall d ensures d in back <==> d in store {
      DeleteUndoesAddDate(store, date, slot, rec, d);
    }
    forall d, s ensures Lookup(back, d, s) == Lookup(store, d, s) {
      DeleteUndoesAddSlot(store, date, slot, rec, d, s);
    }
    StoresEqual(back, store);
  }

  lemma DeleteUndoesAddDate(store: Store, date: string, slot: Slot, rec: Record, d: string)
    requires NoEmptyDays(store) && Lookup(store, date, slot).None?
    ensures d in WithoutMeal(WithMeal(store, date, slot, rec), date, slot) <==> d in store
  {
    if d == date && date in store {
      var s :| s in store[date];
      assert s != slot;
      assert Lookup(WithMeal(store, date, slot, rec), date, s).Some?;
    }
  }

  lemma DeleteUndoesAddSlot(store: Store, date: string, slot: Slot, rec: Record, d: string, s: Slot)
    requires Lookup(store, date, slot).None?
    ensures Lookup(WithoutMeal(WithMeal(store, date, slot, rec), date, slot), d, s) == Lookup(store, d, s)
  {
  }

  /** Merge import: every incoming (date, slot) record wins, every pair only in
      the current store is kept, per slot and not per date. */
  function MergeStores(current: Store, incoming: Store): (r: Store)
    ensures r.Keys == current.Keys + incoming.Keys
    ensures forall d, s :: Lookup(incoming, d, s).Some? ==> Lookup(r, d, s) == Lookup(incoming, d, s)
    ensures forall d, s :: Lookup(incoming, d, s).None? ==> Lookup(r, d, s) == Lookup(current, d, s)
  {
    map d | d in current.Keys + incoming.Keys :: EntryOf(current, d) + EntryOf(incoming, d)
  }

  /** Two stores with the same records at every (date, slot) and the same date keys are equal. */
  lemma StoresEqual(a: Store, b: Store)
    requires forall d :: d in a <==> d in b
    requires forall d, s :: Lookup(a, d, s) == Lookup(b, d, s)
    ensures a == b
  {
    assert a.Keys == b.Keys;
    forall d | d in a ensures a[d] == b[d] {
      assert a[d].Keys == b[d].Keys by {
        forall s ensures s in a[d] <==> s in b[d] {
          assert Lookup(a, d, s) == Lookup(b, d, s);
        }
      }
      forall s | s in a[d] ensures a[d][s] == b[d][s] {
        assert Lookup(a, d, s) == Lookup(b, d, s);
      }
    }
  }

  /** Merging a store into itself leaves it unchanged. */
  lemma MergeSelf(s: Store)
    ensures MergeStores(s, s) == s
  {
    StoresEqual(MergeStores(s, s), s);
  }

  /** Merging the same import twice is the same as merging it once. */
  lemma MergeTwice(current: Store, incoming: Store)
    ensures MergeStores(MergeStores(current, incoming), incoming) == MergeStores(current, incoming)
  {
    var once := MergeStores(current, incoming);
    StoresEqual(MergeStores(once, incoming), once);
  }

  /** Merge keeps the store free of empty days when the import is. */
  lemma MergeKeepsNoEmptyDays(current: Store, incoming: Store)
    requires NoEmptyDays(current) && NoEmptyDays(incoming)
    ensures NoEmptyDays(MergeStores(current, incoming))
  {
    var r := MergeStores(current, incoming);
    forall d | d in r ensures |r[d]| > 0 {
      if d in incoming {
        var s :| s in incoming[d];
        assert Lookup(r, d, s).Some?;
      } else {
        var s :| s in current[d];
        assert Lookup(r, d, s).Some?;
      }
    }
  }

  /** A date present in both stores keeps the current store's other slots. */
  lemma MergeKeepsOtherSlots(l1: Record, d1: Record)
    ensures MergeStores(map["2024-01-05" := map[Lunch := l1]], map["2024-01-05" := map[Dinner := d1]])
              == map["2024-01-05" := map[Lunch := l1, Dinner := d1]]
  {
    var cur := map["2024-01-05" := map[Lunch := l1]];
    var inc := map["2024-01-05" := map[Dinner := d1]];
    StoresEqual(MergeStores(cur, inc), map["2024-01-05" := map[Lunch := l1, Dinner := d1]]);
  }

  /** The legacy store: one record per date. */
  type LegacyStore = map<string, Record>

  /** The migrated store: each legacy record becomes the date's lunch. */
  function Migrated(legacy: LegacyStore): Store
  {
    map d | d in legacy :: map[Lunch := legacy[d]]
  }

  /** The lunches of a store, one per date that has one. */
  function Lunches(store: Store): LegacyStore
  {
    map d | d in store && Lunch in store[d] :: store[d][Lunch]
  }

  /** Migration loses nothing: the lunches of the migrated store are the
      legacy store; every migrated date holds its lunch and nothing else. */
  lemma MigrationRoundTrip(legacy: LegacyStore)
    ensures Lunches(Migrated(legacy)) == legacy
    ensures NoEmptyDays(Migrated(legacy))
    ensures forall d, s :: Lookup(Migrated(legacy), d, s).Some? ==> s == Lunch && d in legacy
  {
    var m := Migrated(legacy);
    forall d | d in m ensures |m[d]| > 0 {
      assert Lunch in m[d];
    }
  }
}
