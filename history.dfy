/** The meal history list: every (date, slot) record of the store as one
    entry, sorted most recent date first and by slot order within a date,
    optionally restricted to one date, and the total count of entries. */
module History {
  import opened MealModel

  datatype HistoryEntry = HistoryEntry(date: string, slot: Slot, meal: Record)

  /** The position of a slot within a date: breakfast, lunch, dinner, skipped. */
  function SlotOrder(s: Slot): (n: nat)
    ensures n < 4
  {
    match s
    case Breakfast => 0
    case Lunch => 1
    case Dinner => 2
    case Skipped => 3
  }

  lemma SlotOrderInjective(a: Slot, b: Slot)
    ensures SlotOrder(a) == SlotOrder(b) ==> a == b
  {
  }

  /** Strict lexicographic order of strings by character code; on
      `YYYY-MM-DD` keys it is chronological order. */
  predicate LexLess(a: string, b: string)
    decreases |a|
  {
    if |a| == 0 then |b| > 0
    else if |b| == 0 then false
    else if a[0] != b[0] then a[0] < b[0]
    else LexLess(a[1..], b[1..])
  }

  lemma {:induction false} LexIrreflexive(a: string)
    ensures !LexLess(a, a)
    decreases |a|
  {
    if |a| > 0 {
      LexIrreflexive(a[1..]);
    }
  }

  lemma {:induction false} LexTransitive(a: string, b: string, c: string)
    requires LexLess(a, b) && LexLess(b, c)
    ensures LexLess(a, c)
    decreases |a|
  {
    if |a| > 0 && a[0] == b[0] && b[0] == c[0] {
      LexTransitive(a[1..], b[1..], c[1..]);
    }
  }

  /** Any two distinct strings are ordered one way or the other. */
  lemma {:induction false} LexTotal(a: string, b: string)
    ensures a == b || LexLess(a, b) || LexLess(b, a)
    decreases |a|
  {
    if |a| > 0 && |b| > 0 && a[0] == b[0] {
      LexTotal(a[1..], b[1..]);
      if a[1..] == b[1..] {
        assert a == [a[0]] + a[1..] && b == [b[0]] + b[1..];
      }
    }
  }

  lemma {:induction false} LexAsymmetric(a: string, b: string)
    requires LexLess(a, b)
    ensures !LexLess(b, a)
  {
    if LexLess(b, a) {
      LexTransitive(a, b, a);
      LexIrreflexive(a);
    }
  }

  /** The history comparator: `a` is listed before `b` when its date is later,
      or the dates agree and its slot comes first. */
  predicate Before(a: HistoryEntry, b: HistoryEntry)
  {
    LexLess(b.date, a.date) || (a.date == b.date && SlotOrder(a.slot) < SlotOrder(b.slot))
  }

  function Key(e: HistoryEntry): (string, Slot)
  {
    (e.date, e.slot)
  }

  /** Entries the comparator cannot order share their date and slot. */
  lemma Incomparable(a: HistoryEntry, b: HistoryEntry)
    ensures !Before(a, b) && !Before(b, a) <==> Key(a) == Key(b)
  {
    LexTotal(a.date, b.date);
    LexIrreflexive(a.date);
    SlotOrderInjective(a.slot, b.slot);
  }

  lemma BeforeAsymmetric(a: HistoryEntry, b: HistoryEntry)
    requires Before(a, b)
    ensures !Before(b, a)
  {
    if LexLess(b.date, a.date) {
      LexAsymmetric(b.date, a.date);
      LexIrreflexive(a.date);
    } else {
      LexIrreflexive(a.date);
    }
  }

  /** "Not listed after" is transitive. */
  lemma NotBeforeTransitive(a: HistoryEntry, b: HistoryEntry, c: HistoryEntry)
    requires !Before(b, a) && !Before(c, b)
    ensures !Before(c, a)
  {
    LexLessNotFromOther(a.date, b.date, c.date);
    if c.date == a.date {
      LexTotal(a.date, b.date);
    }
  }

  lemma LexLessNotFromOther(a: string, b: string, c: string)
    requires !LexLess(a, b) && !LexLess(b, c)
    ensures !LexLess(a, c)
  {
    LexTotal(a, b);
    LexTotal(b, c);
    if LexLess(a, c) {
      if a == b {
      } else if b == c {
      } else {
        LexTransitive(c, b, a);
        LexAsymmetric(a, c);
      }
    }
  }

  /** Listed in comparator order. */
  predicate Sorted(s: seq<HistoryEntry>)
  {
    forall i, j :: 0 <= i < j < |s| ==> !Before(s[j], s[i])
  }

  /** No two entries share a date and slot. */
  predicate DistinctKeys(s: seq<HistoryEntry>)
  {
    forall i, j :: 0 <= i < j < |s| ==> Key(s[i]) != Key(s[j])
  }

  /** An entry not listed after any entry of a sorted list can head it. */
  lemma ConsSorted(x: HistoryEntry, t: seq<HistoryEntry>)
    requires Sorted(t)
    requires forall y :: y in t ==> !Before(y, x)
    ensures Sorted([x] + t)
  {
    var r := [x] + t;
    forall i, j | 0 <= i < j < |r| ensures !Before(r[j], r[i]) {
      assert r[j] == t[j - 1];
      if i > 0 {
        assert r[i] == t[i - 1];
      }
    }
  }

  /** Places `e` in a sorted list after the entries listed before it. */
  function Insert(e: HistoryEntry, s: seq<HistoryEntry>): (r: seq<HistoryEntry>)
    ensures multiset(r) == multiset(s) + multiset{e}
  {
    if |s| == 0 then [e]
    else if Before(s[0], e) then
      assert s == [s[0]] + s[1..];
      [s[0]] + Insert(e, s[1..])
    else [e] + s
  }

  lemma {:induction false} InsertSorted(e: HistoryEntry, s: seq<HistoryEntry>)
    requires Sorted(s)
    ensures Sorted(Insert(e, s))
  {
    if |s| > 0 {
      if Before(s[0], e) {
        var t := Insert(e, s[1..]);
        InsertSorted(e, s[1..]);
        forall y | y in t ensures !Before(y, s[0]) {
          assert y in multiset(t);
          if y == e {
            BeforeAsymmetric(s[0], e);
          } else {
            assert y in multiset(s[1..]);
            var k :| 0 <= k < |s[1..]| && s[1..][k] == y;
            assert s[k + 1] == y;
          }
        }
        ConsSorted(s[0], t);
      } else {
        forall y | y in s ensures !Before(y, e) {
          var k :| 0 <= k < |s| && s[k] == y;
          if k > 0 {
            NotBeforeTransitive(e, s[0], s[k]);
          }
        }
        ConsSorted(e, s);
      }
    }
  }

  /** The history in display order (the array sort with the history comparator). */
  function SortHistory(s: seq<HistoryEntry>): (r: seq<HistoryEntry>)
    ensures multiset(r) == multiset(s)
  {
    if |s| == 0 then []
    else
      assert s == [s[0]] + s[1..];
      Insert(s[0], SortHistory(s[1..]))
  }

  lemma {:induction false} SortHistorySorted(s: seq<HistoryEntry>)
    ensures Sorted(SortHistory(s))
  {
    if |s| > 0 {
      SortHistorySorted(s[1..]);
      InsertSorted(s[0], SortHistory(s[1..]));
    }
  }

  lemma TailSorted(a: seq<HistoryEntry>)
    requires Sorted(a) && |a| > 0
    ensures Sorted(a[1..])
  {
    forall i, k | 0 <= i < k < |a| - 1 ensures !Before(a[1..][k], a[1..][i]) {
      assert a[1..][k] == a[k + 1] && a[1..][i] == a[i + 1];
    }
  }

  lemma TailDistinct(a: seq<HistoryEntry>)
    requires DistinctKeys(a) && |a| > 0
    ensures DistinctKeys(a[1..])
  {
    forall i, k | 0 <= i < k < |a| - 1 ensures Key(a[1..][i]) != Key(a[1..][k]) {
      assert a[1..][k] == a[k + 1] && a[1..][i] == a[i + 1];
    }
  }

  /** Both sorted arrangements start with the same entry. */
  lemma SortedHeads(a: seq<HistoryEntry>, b: seq<HistoryEntry>)
    requires Sorted(a) && Sorted(b) && DistinctKeys(a)
    requires forall x :: x in a <==> x in b
    requires |a| > 0
    ensures |b| > 0 && a[0] == b[0]
  {
    assert a[0] in b;
    var j :| 0 <= j < |b| && b[j] == a[0];
    assert b[0] in a;
    var i :| 0 <= i < |a| && a[i] == b[0];
    if a[0] != b[0] {
      assert !Before(a[0], b[0]);
      assert !Before(b[0], a[0]);
      Incomparable(a[0], b[0]);
      assert false;
    }
  }

  /** Without repeated keys, the tail holds every entry but the head. */
  lemma TailMembers(a: seq<HistoryEntry>)
    requires DistinctKeys(a) && |a| > 0
    ensures forall x :: x in a[1..] <==> x in a && x != a[0]
  {
    forall x | x in a[1..] ensures x != a[0] {
      var k :| 0 <= k < |a[1..]| && a[1..][k] == x;
      assert a[k + 1] == x;
    }
    forall x | x in a && x != a[0] ensures x in a[1..] {
      var k :| 0 <= k < |a| && a[k] == x;
      assert a[1..][k - 1] == x;
    }
  }

  /** Two sorted lists of the same entries without repeated (date, slot)
      keys are the same list. */
  lemma {:induction false} SortedUnique(a: seq<HistoryEntry>, b: seq<HistoryEntry>)
    requires Sorted(a) && Sorted(b) && DistinctKeys(a) && DistinctKeys(b)
    requires forall x :: x in a <==> x in b
    ensures a == b
  {
    if |a| > 0 {
      SortedHeads(a, b);
      TailMembers(a);
      TailMembers(b);
      TailSorted(a);
      TailSorted(b);
      TailDistinct(a);
      TailDistinct(b);
      SortedUnique(a[1..], b[1..]);
      assert a == [a[0]] + a[1..] && b == [b[0]] + b[1..];
    } else {
      SameMembersSameLength(a, b);
    }
  }

  /** An entry whose key no entry of a list shares can head it. */
  lemma ConsDistinct(x: HistoryEntry, t: seq<HistoryEntry>)
    requires DistinctKeys(t)
    requires forall y :: y in t ==> Key(y) != Key(x)
    ensures DistinctKeys([x] + t)
  {
    var r := [x] + t;
    forall i, j | 0 <= i < j < |r| ensures Key(r[i]) != Key(r[j]) {
      assert r[j] == t[j - 1];
      if i > 0 {
        assert r[i] == t[i - 1];
      }
    }
  }

  lemma {:induction false} InsertDistinct(e: HistoryEntry, s: seq<HistoryEntry>)
    requires DistinctKeys(s)
    requires forall y :: y in s ==> Key(y) != Key(e)
    ensures DistinctKeys(Insert(e, s))
  {
    if |s| > 0 {
      if Before(s[0], e) {
        TailDistinct(s);
        TailMembers(s);
        InsertDistinct(e, s[1..]);
        var t := Insert(e, s[1..]);
        forall y | y in t ensures Key(y) != Key(s[0]) {
          assert y in multiset(t);
          if y != e {
            assert y in multiset(s[1..]);
            var k :| 0 <= k < |s[1..]| && s[1..][k] == y;
            assert s[k + 1] == y;
          }
        }
        ConsDistinct(s[0], t);
      } else {
        ConsDistinct(e, s);
      }
    }
  }

  /** Sorting keeps keys distinct. */
  lemma {:induction false} SortDistinct(s: seq<HistoryEntry>)
    requires DistinctKeys(s)
    ensures DistinctKeys(SortHistory(s))
  {
    if |s| > 0 {
      TailDistinct(s);
      TailMembers(s);
      SortDistinct(s[1..]);
      var t := SortHistory(s[1..]);
      forall y | y in t ensures Key(y) != Key(s[0]) {
        assert y in multiset(t);
        assert y in multiset(s[1..]);
        var k :| 0 <= k < |s[1..]| && s[1..][k] == y;
        assert s[k + 1] == y;
      }
      InsertDistinct(s[0], t);
    }
  }

  /** The entries of one date, in their original order. */
  function FilterDate(s: seq<HistoryEntry>, date: string): (r: seq<HistoryEntry>)
    ensures forall e :: e in r <==> e in s && e.date == date
  {
    if |s| == 0 then []
    else
      assert forall e :: e in s <==> e == s[0] || e in s[1..];
      (if s[0].date == date then [s[0]] else []) + FilterDate(s[1..], date)
  }

  lemma {:induction false} FilterKeepsSorted(s: seq<HistoryEntry>, date: string)
    requires Sorted(s)
    ensures Sorted(FilterDate(s, date))
  {
    if |s| > 0 {
      FilterKeepsSorted(s[1..], date);
      var t := FilterDate(s[1..], date);
      if s[0].date == date {
        forall y | y in t ensures !Before(y, s[0]) {
          var k :| 0 <= k < |s[1..]| && s[1..][k] == y;
          assert s[k + 1] == y;
        }
        ConsSorted(s[0], t);
      } else {
        assert FilterDate(s, date) == t;
      }
    }
  }

  lemma {:induction false} FilterKeepsDistinct(s: seq<HistoryEntry>, date: string)
    requires DistinctKeys(s)
    ensures DistinctKeys(FilterDate(s, date))
  {
    if |s| > 0 {
      TailDistinct(s);
      FilterKeepsDistinct(s[1..], date);
      var t := FilterDate(s[1..], date);
      if s[0].date == date {
        forall y | y in t ensures Key(y) != Key(s[0]) {
          var k :| 0 <= k < |s[1..]| && s[1..][k] == y;
          assert s[k + 1] == y;
        }
        ConsDistinct(s[0], t);
      } else {
        assert FilterDate(s, date) == t;
      }
    }
  }

  /** The date filter: an absent or empty filter shows everything. */
  function Filtered(s: seq<HistoryEntry>, filter: Option<string>): (r: seq<HistoryEntry>)
    ensures filter.None? || filter.value == "" ==> r == s
    ensures filter.Some? && filter.value != "" ==> forall e :: e in r <==> e in s && e.date == filter.value
  {
    if filter.Some? && filter.value != "" then FilterDate(s, filter.value) else s
  }

  /** The (date, slot) pairs that hold a record. */
  ghost function Pairs(meals: Store): set<(string, Slot)>
  {
    set d, s | d in meals && s in meals[d] :: (d, s)
  }

  ghost function KeySet(s: seq<HistoryEntry>): set<(string, Slot)>
  {
    set e | e in s :: Key(e)
  }

  lemma KeySetSnoc(init: seq<HistoryEntry>, last: HistoryEntry)
    ensures KeySet(init + [last]) == KeySet(init) + {Key(last)}
  {
    var s := init + [last];
    assert forall e :: e in s <==> e in init || e == last;
  }

  lemma {:induction false} DistinctKeysCount(s: seq<HistoryEntry>)
    requires DistinctKeys(s)
    ensures |KeySet(s)| == |s|
  {
    if |s| > 0 {
      var init := s[..|s| - 1];
      var last := s[|s| - 1];
      DistinctKeysSplit(s);
      DistinctKeysCount(init);
      assert s == init + [last];
      KeySetSnoc(init, last);
    }
  }

  /** Dropping the last entry of a list without repeated keys leaves such a
      list, whose keys do not include the dropped entry's. */
  lemma DistinctKeysSplit(s: seq<HistoryEntry>)
    requires DistinctKeys(s) && |s| > 0
    ensures DistinctKeys(s[..|s| - 1])
    ensures Key(s[|s| - 1]) !in KeySet(s[..|s| - 1])
  {
    var init := s[..|s| - 1];
    forall e | e in init ensures Key(e) != Key(s[|s| - 1]) {
      var k :| 0 <= k < |init| && init[k] == e;
      assert s[k] == e;
    }
  }

  /** Lists of the same entries without repeated keys have the same length. */
  lemma SameMembersSameLength(a: seq<HistoryEntry>, b: seq<HistoryEntry>)
    requires DistinctKeys(a) && DistinctKeys(b)
    requires forall x :: x in a <==> x in b
    ensures |a| == |b|
  {
    DistinctKeysCount(a);
    DistinctKeysCount(b);
    assert KeySet(a) == KeySet(b);
  }

  /** The history lists exactly the stored records, each (date, slot) once. */
  ghost predicate ListsStore(all: seq<HistoryEntry>, meals: Store)
  {
    && (forall e :: e in all ==> Lookup(meals, e.date, e.slot) == Some(e.meal))
    && (forall d, s :: Lookup(meals, d, s).Some? ==> HistoryEntry(d, s, meals[d][s]) in all)
    && DistinctKeys(all)
  }

  /** The total count shown is the number of (date, slot) pairs holding a record. */
  lemma ListsStoreCount(all: seq<HistoryEntry>, meals: Store)
    requires ListsStore(all, meals)
    ensures |all| == |Pairs(meals)|
  {
    DistinctKeysCount(all);
    assert KeySet(all) == Pairs(meals) by {
      forall k | k in Pairs(meals) ensures k in KeySet(all) {
        var e := HistoryEntry(k.0, k.1, meals[k.0][k.1]);
        assert Lookup(meals, k.0, k.1).Some?;
        assert e in all && Key(e) == k;
      }
      forall k | k in KeySet(all) ensures k in Pairs(meals) {
        var e :| e in all && Key(e) == k;
        assert Lookup(meals, e.date, e.slot).Some?;
      }
    }
  }

  /** `all` lists exactly the records at the (date, slot) pairs of the dates
      in `done` and of the slots `doneSlots` of `date`, each pair once. */
  ghost predicate Gathered(all: seq<HistoryEntry>, meals: Store, done: set<string>, date: string, doneSlots: set<Slot>)
  {
    && (forall e :: e in all ==> (e.date in done || (e.date == date && e.slot in doneSlots))
                                 && Lookup(meals, e.date, e.slot) == Some(e.meal))
    && (forall d, s :: (d in done || (d == date && s in doneSlots)) && Lookup(meals, d, s).Some? ==>
                         HistoryEntry(d, s, meals[d][s]) in all)
    && DistinctKeys(all)
  }

  /** `all` lists exactly the records of the dates in `done`, each pair once. */
  ghost predicate GatheredDates(all: seq<HistoryEntry>, meals: Store, done: set<string>)
  {
    && (forall e :: e in all ==> e.date in done && Lookup(meals, e.date, e.slot) == Some(e.meal))
    && (forall d, s :: d in done && Lookup(meals, d, s).Some? ==> HistoryEntry(d, s, meals[d][s]) in all)
    && DistinctKeys(all)
  }

  lemma GatherStart(all: seq<HistoryEntry>, meals: Store, done: set<string>, date: string)
    requires GatheredDates(all, meals, done)
    ensures Gathered(all, meals, done, date, {})
  {
  }

  lemma GatherSlot(all: seq<HistoryEntry>, meals: Store, done: set<string>, date: string, doneSlots: set<Slot>, slot: Slot)
    requires Gathered(all, meals, done, date, doneSlots)
    requires date in meals && slot in meals[date] && slot !in doneSlots && date !in done
    ensures Gathered(all + [HistoryEntry(date, slot, meals[date][slot])], meals, done, date, doneSlots + {slot})
  {
    var entry := HistoryEntry(date, slot, meals[date][slot]);
    var all' := all + [entry];
    assert forall e :: e in all' <==> e in all || e == entry;
    forall i, j | 0 <= i < j < |all'| ensures Key(all'[i]) != Key(all'[j]) {
      if j == |all'| - 1 {
        assert all'[i] in all;
      } else {
        assert all'[i] == all[i] && all'[j] == all[j];
      }
    }
  }

  lemma GatherDate(all: seq<HistoryEntry>, meals: Store, done: set<string>, date: string)
    requires date in meals && Gathered(all, meals, done, date, meals[date].Keys)
    ensures GatheredDates(all, meals, done + {date})
  {
  }

  lemma GatheredAll(all: seq<HistoryEntry>, meals: Store)
    requires GatheredDates(all, meals, meals.Keys)
    ensures ListsStore(all, meals)
  {
  }

  /** The inner loop of the history traversal: appends the records of one
      date, slot by slot in the entry's iteration order (left unspecified). */
  method GatherDay(meals: Store, date: string, all: seq<HistoryEntry>, ghost done: set<string>)
    returns (all': seq<HistoryEntry>)
    requires date in meals && date !in done
    requires GatheredDates(all, meals, done)
    ensures GatheredDates(all', meals, done + {date})
  {
    all' := all;
    var dayMeals := meals[date];
    var slots := dayMeals.Keys;
    ghost var doneSlots: set<Slot> := {};
    GatherStart(all, meals, done, date);
    while slots != {}
      invariant slots + doneSlots == dayMeals.Keys && slots !! doneSlots
      invariant Gathered(all', meals, done, date, doneSlots)
      decreases |slots|
    {
      var mealType :| mealType in slots;
      GatherSlot(all', meals, done, date, doneSlots, mealType);
      all' := all' + [HistoryEntry(date, mealType, dayMeals[mealType])];
      slots := slots - {mealType};
      doneSlots := doneSlots + {mealType};
    }
    GatherDate(all', meals, done, date);
  }

  lemma ListingsSameMembers(a: seq<HistoryEntry>, b: seq<HistoryEntry>, meals: Store)
    requires ListsStore(a, meals) && ListsStore(b, meals)
    ensures forall x :: x in a <==> x in b
  {
    forall x ensures x in a <==> x in b {
      if x in a {
        assert Lookup(meals, x.date, x.slot) == Some(x.meal);
      }
      if x in b {
        assert Lookup(meals, x.date, x.slot) == Some(x.meal);
      }
    }
  }

  /** Sorting lists the same entries. */
  lemma SortKeepsMembers(s: seq<HistoryEntry>)
    ensures forall x :: x in SortHistory(s) <==> x in s
  {
    var r := SortHistory(s);
    forall x ensures x in r <==> x in s {
      assert x in r <==> x in multiset(r);
      assert x in s <==> x in multiset(s);
    }
  }

  /** However the store is traversed, the sorted history is the same list. */
  lemma ListingsSortAlike(a: seq<HistoryEntry>, b: seq<HistoryEntry>, meals: Store)
    requires ListsStore(a, meals) && ListsStore(b, meals)
    ensures SortHistory(a) == SortHistory(b)
  {
    ListingsSameMembers(a, b, meals);
    var sa := SortHistory(a);
    var sb := SortHistory(b);
    SortKeepsMembers(a);
    SortKeepsMembers(b);
    assert forall x :: x in sa <==> x in sb;
    SortHistorySorted(a);
    SortHistorySorted(b);
    SortDistinct(a);
    SortDistinct(b);
    SortedUnique(sa, sb);
  }

  /** Collects every (date, slot, record) of the store, date by date in the
      store's iteration order (left unspecified). */
  method FlattenHistory(meals: Store) returns (all: seq<HistoryEntry>)
    ensures ListsStore(all, meals)
    ensures |all| == |Pairs(meals)|
  {
    all := [];
    var dates := meals.Keys;
    ghost var done: set<string> := {};
    while dates != {}
      invariant dates + done == meals.Keys && dates !! done
      invariant GatheredDates(all, meals, done)
      decreases |dates|
    {
      var date :| date in dates;
      all := GatherDay(meals, date, all, done);
      dates := dates - {date};
      done := done + {date};
    }
    GatheredAll(all, meals);
    ListsStoreCount(all, meals);
  }
}
