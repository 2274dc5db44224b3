/** Per-record and per-day classification into the categories the grids show. */
module Classification {
  import opened MealModel

  /** The category of one record; an absent record has no data. Only the four
      exact home/outside by healthy/unhealthy pairs give their categories. */
  function MealClass(meal: Option<Record>): (c: Category)
    ensures meal.None? ==> c == NoData
    ensures c == MealSkipped <==> meal.Some? && meal.value.skipped
    ensures meal.Some? && !meal.value.skipped && c != NoData ==>
              meal.value.location.Some? && meal.value.healthiness.Some?
  {
    match meal
    case None => NoData
    case Some(r) =>
      if r.skipped then MealSkipped
      else if r.location == Some("home") && r.healthiness == Some("healthy") then HomeHealthy
      else if r.location == Some("home") && r.healthiness == Some("unhealthy") then HomeUnhealthy
      else if r.location == Some("outside") && r.healthiness == Some("healthy") then OutsideHealthy
      else if r.location == Some("outside") && r.healthiness == Some("unhealthy") then OutsideUnhealthy
      else NoData
  }

  /** A logged record that is classified gets the class name made of its
      location and healthiness joined by a dash. */
  lemma MealClassName(r: Record)
    requires !r.skipped && MealClass(Some(r)) != NoData
    ensures r.location.Some? && r.healthiness.Some?
    ensures CategoryName(MealClass(Some(r))) == r.location.value + "-" + r.healthiness.value
  {
    match MealClass(Some(r))
    case HomeHealthy => assert "home" + "-" + "healthy" == "home-healthy";
    case HomeUnhealthy => assert "home" + "-" + "unhealthy" == "home-unhealthy";
    case OutsideHealthy => assert "outside" + "-" + "healthy" == "outside-healthy";
    case OutsideUnhealthy => assert "outside" + "-" + "unhealthy" == "outside-unhealthy";
  }

  /** A logged record has no data exactly when its location and healthiness
      are not one of the four recognised pairs. */
  lemma LoggedNoDataIff(r: Record)
    requires !r.skipped
    ensures MealClass(Some(r)) == NoData <==>
              !(r.location in {Some("home"), Some("outside")} && r.healthiness in {Some("healthy"), Some("unhealthy")})
  {
  }

  /** The "best meal of the day" score table; categories without a score count 0. */
  function Score(c: Category): (s: int)
    ensures 0 <= s <= 4
    ensures s == 0 <==> c in {NoData, MealSkipped}
  {
    match c
    case HomeHealthy => 4
    case OutsideHealthy => 3
    case HomeUnhealthy => 2
    case OutsideUnhealthy => 1
    case _ => 0
  }

  /** Categories a non-skipped record can get. */
  predicate LoggedCategory(c: Category)
  {
    c != MealSkipped
  }

  /** The score orders the categories of logged records strictly: equal scores
      mean equal categories. */
  lemma ScoreInjective(a: Category, b: Category)
    requires LoggedCategory(a) && LoggedCategory(b) && Score(a) == Score(b)
    ensures a == b
  {
  }

  predicate AllSkipped(day: DayEntry)
  {
    forall s :: s in day ==> day[s].skipped
  }

  /** Some non-skipped record of the day has category c. */
  predicate HasLogged(day: DayEntry, c: Category)
  {
    exists s :: s in day && !day[s].skipped && MealClass(Some(day[s])) == c
  }

  /** c is the category of a non-skipped record of the day whose score is the
      highest among the day's non-skipped records. */
  ghost predicate IsBest(day: DayEntry, c: Category)
  {
    && HasLogged(day, c)
    && forall s :: s in day && !day[s].skipped ==> Score(MealClass(Some(day[s]))) <= Score(c)
  }

  /** Reference definition of a day's category, by priority: an absent or empty
      day has no data, a day of skipped records only is skipped, otherwise the
      categories of its non-skipped records are tried best first. */
  function DayCategory(day: Option<DayEntry>): (c: Category)
  {
    if day.None? || |day.value| == 0 then NoData
    else if AllSkipped(day.value) then MealSkipped
    else if HasLogged(day.value, HomeHealthy) then HomeHealthy
    else if HasLogged(day.value, OutsideHealthy) then OutsideHealthy
    else if HasLogged(day.value, HomeUnhealthy) then HomeUnhealthy
    else if HasLogged(day.value, OutsideUnhealthy) then OutsideUnhealthy
    else NoData
  }

  /** The day is skipped exactly when it is present, non-empty and every record in it is skipped. */
  lemma DayCategorySkippedIff(day: Option<DayEntry>)
    ensures DayCategory(day) == MealSkipped <==> day.Some? && |day.value| > 0 && AllSkipped(day.value)
  {
  }

  /** When a day holds a non-skipped record, its category is the best one among them. */
  lemma DayCategoryIsBest(day: DayEntry)
    requires !AllSkipped(day)
    ensures IsBest(day, DayCategory(Some(day)))
  {
    var s :| s in day && !day[s].skipped;
    assert |day| > 0 by { assert s in day.Keys; }
    var c := DayCategory(Some(day));
    assert HasLogged(day, MealClass(Some(day[s])));
    forall t | t in day && !day[t].skipped
      ensures Score(MealClass(Some(day[t]))) <= Score(c)
    {
      assert HasLogged(day, MealClass(Some(day[t])));
    }
  }

  /** The best category of a day is unique, so it does not depend on the order
      in which the records are visited. */
  lemma BestUnique(day: DayEntry, a: Category, b: Category)
    requires IsBest(day, a) && IsBest(day, b)
    ensures a == b
  {
    var sa :| sa in day && !day[sa].skipped && MealClass(Some(day[sa])) == a;
    var sb :| sb in day && !day[sb].skipped && MealClass(Some(day[sb])) == b;
    ScoreInjective(a, b);
  }

  /** The day classification as the program computes it: return early for an
      absent, empty or all-skipped day, then keep the best-scoring category
      seen so far over the day's records, in whatever order they come. */
  method DailyClass(dayMeals: Option<DayEntry>) returns (bestClass: Category)
    ensures bestClass == DayCategory(dayMeals)
  {
    if dayMeals.None? || |dayMeals.value| == 0 {
      return NoData;
    }
    var day := dayMeals.value;
    var allSkipped := forall s | s in day :: day[s].skipped;
    if allSkipped {
      return MealSkipped;
    }
    bestClass := NoData;
    var bestScore := -1;
    var rest := day.Keys;
    while rest != {}
      invariant rest <= day.Keys
      invariant bestScore < 0 ==> bestScore == -1 && bestClass == NoData
      invariant bestScore < 0 ==> forall s :: s in day && s !in rest ==> day[s].skipped
      invariant bestScore >= 0 ==> bestScore == Score(bestClass)
      invariant bestScore >= 0 ==> exists s :: s in day && s !in rest && !day[s].skipped && MealClass(Some(day[s])) == bestClass
      invariant forall s :: s in day && s !in rest && !day[s].skipped ==> Score(MealClass(Some(day[s]))) <= bestScore
      decreases rest
    {
      var slot :| slot in rest;
      var meal := day[slot];
      if !meal.skipped {
        var mealClass := MealClass(Some(meal));
        var score := Score(mealClass);
        if score > bestScore {
          bestScore := score;
          bestClass := mealClass;
        }
      }
      rest := rest - {slot};
    }
    assert IsBest(day, bestClass);
    DayCategoryIsBest(day);
    BestUnique(day, bestClass, DayCategory(dayMeals));
  }

  /** A day with a skipped breakfast and an outside, unhealthy lunch is
      outside-unhealthy: skipped records are ignored once a logged one exists. */
  lemma SkippedIgnoredBesideLogged(skip: Record, lunch: Record)
    requires skip.skipped
    requires !lunch.skipped && lunch.location == Some("outside") && lunch.healthiness == Some("unhealthy")
    ensures DayCategory(Some(map[Breakfast := skip, Lunch := lunch])) == OutsideUnhealthy
  {
    var day := map[Breakfast := skip, Lunch := lunch];
    assert !AllSkipped(day) by { assert Lunch in day && !day[Lunch].skipped; }
    assert HasLogged(day, OutsideUnhealthy) by { assert Lunch in day; }
  }
}
