/** The text of the grid tooltips: the per-day body of the coarse view, the
    per-slot body of the detailed view, and slot-name capitalisation. */
module Tooltips {
  import opened MealModel
  import opened Classification

  /** ASCII upper-casing of one character; other characters are kept. */
  function UpperChar(c: char): (u: char)
    ensures 'a' <= c <= 'z' ==> 'A' <= u <= 'Z' && u as int == c as int - 32
    ensures !('a' <= c <= 'z') ==> u == c
  {
    if 'a' <= c <= 'z' then (c as int - 32) as char else c
  }

  /** The first character upper-cased, the rest unchanged. */
  function Capitalize(s: string): (r: string)
    ensures |r| == |s|
    ensures |s| > 0 ==> r[0] == UpperChar(s[0]) && r[1..] == s[1..]
  {
    if |s| == 0 then s else [UpperChar(s[0])] + s[1..]
  }

  lemma CapitalizeIdempotent(s: string)
    ensures Capitalize(Capitalize(s)) == Capitalize(s)
  {
  }

  /** The slot names as the detailed tooltip header shows them. */
  lemma CapitalizedSlotNames()
    ensures Capitalize(SlotName(Breakfast)) == "Breakfast"
    ensures Capitalize(SlotName(Lunch)) == "Lunch"
    ensures Capitalize(SlotName(Dinner)) == "Dinner"
  {
  }

  /** How a template literal prints an optional field: an absent one reads "undefined". */
  function FieldText(f: Option<string>): string
  {
    if f.Some? then f.value else "undefined"
  }

  /** "{location} - {healthiness}" of a logged record. */
  function WhereAndHow(r: Record): string
  {
    FieldText(r.location) + " - " + FieldText(r.healthiness)
  }

  /** The coarse tooltip line of one meal slot. */
  function SlotLine(slot: Slot, r: Record): string
  {
    SlotName(slot) + ": " + (if r.skipped then "Skipped" else WhereAndHow(r))
  }

  /** The meal slots the coarse tooltip lists, in display order. */
  const MealSlots: seq<Slot> := [Breakfast, Lunch, Dinner]

  /** The coarse tooltip line of a meal slot, if the day holds it. */
  function MealLine(day: DayEntry, slot: Slot): (lines: seq<string>)
    ensures |lines| == Indicator(slot in day)
  {
    if slot in day then [SlotLine(slot, day[slot])] else []
  }

  /** The lines of the coarse tooltip body: one per present meal slot in the
      order breakfast, lunch, dinner, then "Meal Skipped" for a skip marker. */
  function CoarseLines(day: DayEntry): (lines: seq<string>)
    ensures |lines| == |day|
  {
    var s := if Skipped in day then ["Meal Skipped"] else [];
    DayEntrySize(day);
    MealLine(day, Breakfast) + MealLine(day, Lunch) + MealLine(day, Dinner) + s
  }

  function Indicator(b: bool): nat { if b then 1 else 0 }

  lemma RemoveCount(k: set<Slot>, x: Slot)
    ensures |k| == |k - {x}| + Indicator(x in k)
  {
    if x in k {
      assert k == (k - {x}) + {x};
    } else {
      assert k - {x} == k;
    }
  }

  /** A day entry has one key per slot present. */
  lemma DayEntrySize(day: DayEntry)
    ensures |day| == Indicator(Breakfast in day) + Indicator(Lunch in day) + Indicator(Dinner in day) + Indicator(Skipped in day)
  {
    var k0 := day.Keys;
    var k1 := k0 - {Breakfast};
    var k2 := k1 - {Lunch};
    var k3 := k2 - {Dinner};
    var k4 := k3 - {Skipped};
    RemoveCount(k0, Breakfast);
    RemoveCount(k1, Lunch);
    RemoveCount(k2, Dinner);
    RemoveCount(k3, Skipped);
    assert k4 == {} by {
      forall x | x in k4 ensures false {
        match x
        case Breakfast =>
        case Lunch =>
        case Dinner =>
        case Skipped =>
      }
    }
  }

  /** Lines joined with a separator. */
  function Join(lines: seq<string>, sep: string): string
  {
    if |lines| == 0 then ""
    else if |lines| == 1 then lines[0]
    else lines[0] + sep + Join(lines[1..], sep)
  }

  /** Splitting at newlines, the inverse of joining with "\n". */
  function SplitLines(s: string): (lines: seq<string>)
    ensures |lines| >= 1
    decreases |s|
  {
    if |s| == 0 then [""]
    else if s[0] == '\n' then [""] + SplitLines(s[1..])
    else
      var rest := SplitLines(s[1..]);
      [[s[0]] + rest[0]] + rest[1..]
  }

  predicate NoNewline(s: string)
  {
    forall i :: 0 <= i < |s| ==> s[i] != '\n'
  }

  predicate LinesNoNewline(lines: seq<string>)
  {
    forall i :: 0 <= i < |lines| ==> NoNewline(lines[i])
  }

  lemma {:induction false} SplitNoNewline(line: string, rest: string)
    requires NoNewline(line)
    ensures SplitLines(line + rest) == [line + SplitLines(rest)[0]] + SplitLines(rest)[1..]
    decreases |line|
  {
    if |line| > 0 {
      assert (line + rest)[1..] == line[1..] + rest;
      SplitNoNewline(line[1..], rest);
      assert [line[0]] + (line[1..] + SplitLines(rest)[0]) == line + SplitLines(rest)[0];
    } else {
      var r := SplitLines(rest);
      assert line + rest == rest;
      assert line + r[0] == r[0];
      assert r == [r[0]] + r[1..];
    }
  }

  /** Joining lines that hold no newline with "\n" and splitting the result
      gives the lines back. */
  lemma {:induction false} SplitJoin(lines: seq<string>)
    requires |lines| >= 1
    requires LinesNoNewline(lines)
    ensures SplitLines(Join(lines, "\n")) == lines
    decreases |lines|
  {
    if |lines| == 1 {
      assert lines[0] + "" == lines[0];
      SplitNoNewline(lines[0], "");
      assert SplitLines("") == [""];
      assert lines == [lines[0]];
    } else {
      var tail := Join(lines[1..], "\n");
      SplitJoin(lines[1..]);
      assert Join(lines, "\n") == lines[0] + ("\n" + tail);
      SplitNoNewline(lines[0], "\n" + tail);
      assert ("\n" + tail)[1..] == tail;
      assert SplitLines("\n" + tail) == [""] + lines[1..];
      assert lines[0] + "" == lines[0];
      assert lines == [lines[0]] + lines[1..];
    }
  }

  const NoMealsLogged := "No meals logged"

  /** The body of the coarse (one cell per day) tooltip, below its date
      header: it reads "No meals logged" exactly when the day is absent or
      empty, since every line of a day with records starts with another letter. */
  function CoarseTooltipBody(day: Option<DayEntry>): (body: string)
    ensures body == NoMealsLogged <==> day.None? || |day.value| == 0
  {
    if day.None? then NoMealsLogged
    else
      var lines := CoarseLines(day.value);
      if |lines| > 0 then
        assert lines[0][0] in {'b', 'l', 'd', 'M'};
        JoinStartsWithFirst(lines, "\n");
        Join(lines, "\n")
      else NoMealsLogged
  }

  /** The full coarse tooltip: the date header, a newline, the body. */
  function CoarseTooltip(header: string, day: Option<DayEntry>): string
  {
    header + "\n" + CoarseTooltipBody(day)
  }

  /** Neither the location nor the healthiness of any record of the day holds a newline. */
  predicate FieldsNoNewline(day: DayEntry)
  {
    forall s :: s in day ==> NoNewline(FieldText(day[s].location)) && NoNewline(FieldText(day[s].healthiness))
  }

  /** A line without a newline splits into itself. */
  lemma SingleLine(line: string)
    requires NoNewline(line)
    ensures SplitLines(line) == [line]
  {
    SplitNoNewline(line, "");
    assert line + "" == line;
  }

  /** A first line without a newline, a newline, then the rest: the first
      line heads the split of the rest. */
  lemma SplitFirstLine(line: string, rest: string)
    requires NoNewline(line)
    ensures SplitLines(line + "\n" + rest) == [line] + SplitLines(rest)
  {
    assert line + "\n" + rest == line + ("\n" + rest);
    SplitNoNewline(line, "\n" + rest);
    assert ("\n" + rest)[1..] == rest;
    assert SplitLines("\n" + rest) == [""] + SplitLines(rest);
    assert line + "" == line;
  }

  /** When the header and the record fields hold no newline, the coarse
      tooltip shows the header, then "No meals logged" for an absent or empty
      day and otherwise one line per present slot. */
  lemma CoarseTooltipLines(header: string, day: Option<DayEntry>)
    requires NoNewline(header)
    requires day.Some? ==> FieldsNoNewline(day.value)
    ensures SplitLines(CoarseTooltip(header, day)) ==
              [header] + (if day.None? || |day.value| == 0 then [NoMealsLogged] else CoarseLines(day.value))
  {
    SplitFirstLine(header, CoarseTooltipBody(day));
    CoarseBodySplit(day);
  }

  /** The lines of a coarse body: "No meals logged" alone, or one per present slot. */
  lemma CoarseBodySplit(day: Option<DayEntry>)
    requires day.Some? ==> FieldsNoNewline(day.value)
    ensures SplitLines(CoarseTooltipBody(day)) ==
              if day.None? || |day.value| == 0 then [NoMealsLogged] else CoarseLines(day.value)
  {
    if day.None? || |day.value| == 0 {
      NoMealsLoggedLine();
    } else {
      CoarseBodyLines(day.value);
    }
  }

  lemma NoMealsLoggedLine()
    ensures SplitLines(NoMealsLogged) == [NoMealsLogged]
  {
    assert forall i :: 0 <= i < |NoMealsLogged| ==> NoMealsLogged[i] != '\n';
    SingleLine(NoMealsLogged);
  }

  lemma {:induction false} JoinStartsWithFirst(lines: seq<string>, sep: string)
    requires |lines| > 0 && |lines[0]| > 0
    ensures |Join(lines, sep)| > 0 && Join(lines, sep)[0] == lines[0][0]
  {
  }

  lemma ConcatNoNewline(a: string, b: string)
    requires NoNewline(a) && NoNewline(b)
    ensures NoNewline(a + b)
  {
    forall k | 0 <= k < |a + b| ensures (a + b)[k] != '\n' {
      if k >= |a| { assert (a + b)[k] == b[k - |a|]; }
    }
  }

  lemma SlotLineNoNewline(slot: Slot, r: Record)
    requires NoNewline(FieldText(r.location)) && NoNewline(FieldText(r.healthiness))
    ensures NoNewline(SlotLine(slot, r))
  {
    ConcatNoNewline(FieldText(r.location), " - ");
    ConcatNoNewline(FieldText(r.location) + " - ", FieldText(r.healthiness));
    ConcatNoNewline(SlotName(slot), ": ");
    ConcatNoNewline(SlotName(slot) + ": ", if r.skipped then "Skipped" else WhereAndHow(r));
  }

  lemma LinesConcat(a: seq<string>, b: seq<string>)
    requires LinesNoNewline(a) && LinesNoNewline(b)
    ensures LinesNoNewline(a + b)
  {
    forall i | 0 <= i < |a + b| ensures NoNewline((a + b)[i]) {
      if i >= |a| { assert (a + b)[i] == b[i - |a|]; }
    }
  }

  lemma MealLineNoNewline(day: DayEntry, slot: Slot)
    requires slot in day ==> NoNewline(FieldText(day[slot].location)) && NoNewline(FieldText(day[slot].healthiness))
    ensures LinesNoNewline(MealLine(day, slot))
  {
    if slot in day {
      SlotLineNoNewline(slot, day[slot]);
    }
  }

  /** When no location or healthiness holds a newline, the coarse body of a
      non-empty day splits back into one line per present slot. */
  lemma CoarseBodyLines(day: DayEntry)
    requires |day| > 0
    requires FieldsNoNewline(day)
    ensures SplitLines(CoarseTooltipBody(Some(day))) == CoarseLines(day)
  {
    MealLineNoNewline(day, Breakfast);
    MealLineNoNewline(day, Lunch);
    MealLineNoNewline(day, Dinner);
    var skip: seq<string> := if Skipped in day then ["Meal Skipped"] else [];
    assert LinesNoNewline(skip);
    LinesConcat(MealLine(day, Breakfast), MealLine(day, Lunch));
    LinesConcat(MealLine(day, Breakfast) + MealLine(day, Lunch), MealLine(day, Dinner));
    LinesConcat(MealLine(day, Breakfast) + MealLine(day, Lunch) + MealLine(day, Dinner), skip);
    var lines := CoarseLines(day);
    assert CoarseTooltipBody(Some(day)) == Join(lines, "\n");
    SplitJoin(lines);
  }

  /** The body of a detailed (one cell per slot) tooltip. It tells the three
      cases apart: "Not logged" exactly for an absent record, "Skipped" exactly
      for a skipped one, since a logged record's text holds a dash. */
  function DetailedTooltipBody(meal: Option<Record>): (body: string)
    ensures body == "Not logged" <==> meal.None?
    ensures body == "Skipped" <==> meal.Some? && meal.value.skipped
  {
    match meal
    case None => "Not logged"
    case Some(r) =>
      if r.skipped then "Skipped"
      else
        var w := FieldText(r.location);
        var t := WhereAndHow(r) + (if r.notes != "" then "\n" + r.notes else "");
        assert t == w + " - " + FieldText(r.healthiness) + (if r.notes != "" then "\n" + r.notes else "");
        assert t[|w| + 1] == (w + " - ")[|w| + 1] == '-';
        assert forall i :: 0 <= i < |"Not logged"| ==> "Not logged"[i] != '-';
        assert forall i :: 0 <= i < |"Skipped"| ==> "Skipped"[i] != '-';
        t
  }

  /** The full detailed tooltip: date header, " - ", the capitalised slot name, a newline, the body. */
  function DetailedTooltip(header: string, slot: Slot, meal: Option<Record>): string
  {
    header + " - " + Capitalize(SlotName(slot)) + "\n" + DetailedTooltipBody(meal)
  }

  /** The lines a detailed body shows for a record. */
  function DetailedLines(meal: Option<Record>): seq<string>
  {
    match meal
    case None => ["Not logged"]
    case Some(r) =>
      if r.skipped then ["Skipped"]
      else [WhereAndHow(r)] + (if r.notes != "" then [r.notes] else [])
  }

  lemma SlotNameNoNewline(slot: Slot)
    ensures NoNewline(SlotName(slot))
  {
    var name := SlotName(slot);
    forall i | 0 <= i < |name| ensures name[i] != '\n' {
      match slot
      case Breakfast => assert name == "breakfast";
      case Lunch => assert name == "lunch";
      case Dinner => assert name == "dinner";
      case Skipped => assert name == "skipped";
    }
  }

  lemma CapitalizeNoNewline(s: string)
    requires NoNewline(s)
    ensures NoNewline(Capitalize(s))
  {
    var r := Capitalize(s);
    forall i | 0 <= i < |r| ensures r[i] != '\n' {
      if i > 0 { assert r[i] == s[i]; }
    }
  }

  /** When the header, the location, the healthiness and the notes hold no
      newline, the detailed tooltip shows the header with the capitalised slot
      name, then "Not logged", "Skipped", or the location and healthiness
      followed by the notes when there are any. */
  lemma DetailedTooltipLines(header: string, slot: Slot, meal: Option<Record>)
    requires NoNewline(header)
    requires meal.Some? && !meal.value.skipped ==>
               && NoNewline(FieldText(meal.value.location)) && NoNewline(FieldText(meal.value.healthiness))
               && NoNewline(meal.value.notes)
    ensures SplitLines(DetailedTooltip(header, slot, meal)) ==
              [header + " - " + Capitalize(SlotName(slot))] + DetailedLines(meal)
  {
    var head := header + " - " + Capitalize(SlotName(slot));
    SlotNameNoNewline(slot);
    CapitalizeNoNewline(SlotName(slot));
    ConcatNoNewline(header, " - ");
    ConcatNoNewline(header + " - ", Capitalize(SlotName(slot)));
    SplitFirstLine(head, DetailedTooltipBody(meal));
    DetailedBodyLines(meal);
  }

  /** Without newlines in its fields, a detailed body splits into its lines. */
  lemma DetailedBodyLines(meal: Option<Record>)
    requires meal.Some? && !meal.value.skipped ==>
               && NoNewline(FieldText(meal.value.location)) && NoNewline(FieldText(meal.value.healthiness))
               && NoNewline(meal.value.notes)
    ensures SplitLines(DetailedTooltipBody(meal)) == DetailedLines(meal)
  {
    match meal
    case None => SingleLine("Not logged");
    case Some(r) =>
      if r.skipped {
        SingleLine("Skipped");
      } else {
        var w := WhereAndHow(r);
        ConcatNoNewline(FieldText(r.location), " - ");
        ConcatNoNewline(FieldText(r.location) + " - ", FieldText(r.healthiness));
        if r.notes != "" {
          assert DetailedTooltipBody(meal) == w + "\n" + r.notes;
          SplitFirstLine(w, r.notes);
          SingleLine(r.notes);
          assert DetailedLines(meal) == [w] + [r.notes];
        } else {
          assert DetailedTooltipBody(meal) == w + "";
          assert w + "" == w;
          SingleLine(w);
        }
      }
  }

  /** A logged record's text always holds the " - " separator. */
  lemma LoggedTextHasDash(r: Record)
    requires !r.skipped
    ensures var t := DetailedTooltipBody(Some(r));
      |t| > |FieldText(r.location)| + 1 && t[|FieldText(r.location)| + 1] == '-'
  {
    var w := FieldText(r.location);
    var t := DetailedTooltipBody(Some(r));
    assert t == w + " - " + FieldText(r.healthiness) + (if r.notes != "" then "\n" + r.notes else "");
    assert t[|w| + 1] == (w + " - ")[|w| + 1];
  }

  /** The detailed body agrees with the slot's category: it reads "Skipped"
      exactly for a meal-skipped cell, and "Not logged" only for a no-data one. */
  lemma DetailedBodyCases(meal: Option<Record>)
    ensures DetailedTooltipBody(meal) == "Skipped" <==> MealClass(meal) == MealSkipped
    ensures DetailedTooltipBody(meal) == "Not logged" ==> MealClass(meal) == NoData
  {
  }

  /** The scenario of a single home, healthy lunch. */
  lemma HomeHealthyLunchBody(lunch: Record)
    requires !lunch.skipped && lunch.location == Some("home") && lunch.healthiness == Some("healthy")
    ensures CoarseTooltipBody(Some(map[Lunch := lunch])) == "lunch: home - healthy"
    ensures DayCategory(Some(map[Lunch := lunch])) == HomeHealthy
  {
    var day := map[Lunch := lunch];
    assert MealLine(day, Breakfast) == [] && MealLine(day, Dinner) == [] && Skipped !in day;
    assert WhereAndHow(lunch) == "home - healthy";
    assert SlotLine(Lunch, lunch) == "lunch: home - healthy";
    assert MealLine(day, Lunch) == ["lunch: home - healthy"];
    assert CoarseLines(day) == ["lunch: home - healthy"];
    assert HasLogged(day, HomeHealthy) by { assert Lunch in day; }
    assert !AllSkipped(day) by { assert Lunch in day; }
  }
}
