/** The exported file and the import shape check, over an abstract parsed
    JSON value. Parsing and printing JSON text are outside the model. */
module Codec {
  import opened MealModel

  datatype Json =
    | JNull
    | JBool(b: bool)
    | JNumber(n: int)
    | JString(str: string)
    | JArray(items: seq<Json>)
    | JObject(fields: map<string, Json>)

  /** JavaScript truthiness of a parsed value. */
  predicate Truthy(j: Json)
  {
    match j
    case JNull => false
    case JBool(b) => b
    case JNumber(n) => n != 0
    case JString(s) => s != ""
    case _ => true
  }

  /** The import shape check: the payload must have a `meals` field that is
      truthy and of object type (an object or an array). A payload that is not
      an object has no such field. */
  function CheckImport(data: Json): (meals: Option<Json>)
    ensures meals.Some? <==> data.JObject? && "meals" in data.fields
                             && (data.fields["meals"].JObject? || data.fields["meals"].JArray?)
    ensures meals.Some? ==> meals.value == data.fields["meals"]
  {
    if data.JObject? && "meals" in data.fields then
      var m := data.fields["meals"];
      if Truthy(m) && (m.JObject? || m.JArray?) then Some(m) else None
    else None
  }

  /** A record as the program serialises it: only the fields it has. */
  function EncodeRecord(r: Record): Json
  {
    JObject(
      map["notes" := JString(r.notes), "timestamp" := JString(r.timestamp)]
      + (if r.skipped then map["skipped" := JBool(true)] else map[])
      + (if r.location.Some? then map["location" := JString(r.location.value)] else map[])
      + (if r.healthiness.Some? then map["healthiness" := JString(r.healthiness.value)] else map[]))
  }

  function EncodeDay(e: DayEntry): Json
  {
    JObject(map s | s in e :: SlotName(s) := EncodeRecord(e[s]))
  }

  function EncodeStore(store: Store): Json
  {
    JObject(map d | d in store :: EncodeDay(store[d]))
  }

  /** The exported file: format version, export time, the whole store. */
  function ExportPayload(store: Store, exportDate: string): Json
  {
    JObject(map["version" := JString("2.0"), "exportDate" := JString(exportDate), "meals" := EncodeStore(store)])
  }

  /** A text field: absent reads as None, a string as its text; any other
      value is outside what the model's records hold. */
  function TextField(f: map<string, Json>, name: string): Option<Option<string>>
  {
    if name !in f then Some(None)
    else if f[name].JString? then Some(Some(f[name].str))
    else None
  }

  function DecodeRecord(j: Json): Option<Record>
  {
    if !j.JObject? then None
    else
      var f := j.fields;
      var location := TextField(f, "location");
      var healthiness := TextField(f, "healthiness");
      var notes := TextField(f, "notes");
      var timestamp := TextField(f, "timestamp");
      if location.None? || healthiness.None? || notes.None? || timestamp.None? then None
      else
        var skipped := "skipped" in f && Truthy(f["skipped"]);
        Some(Record(skipped, location.value, healthiness.value,
                    if notes.value.Some? then notes.value.value else "",
                    if timestamp.value.Some? then timestamp.value.value else ""))
  }

  function DecodeDay(j: Json): Option<DayEntry>
  {
    if !j.JObject? then None
    else
      var g := j.fields;
      if AllSlotRecords(g) then Some(SlotRecords(g)) else None
  }

  /** Every key names a slot and holds a decodable record. */
  predicate AllSlotRecords(g: map<string, Json>)
  {
    forall k :: k in g ==> SlotOfName(k).Some? && DecodeRecord(g[k]).Some?
  }

  /** The decoded records of the slots named in `g`. */
  function SlotRecords(g: map<string, Json>): DayEntry
    requires AllSlotRecords(g)
  {
    map s | s in AllSlots && SlotName(s) in g :: DecodeRecord(g[SlotName(s)]).value
  }

  /** Every slot is one of the four. */
  lemma AllSlotsComplete()
    ensures forall s: Slot :: s in AllSlots
  {
    forall s: Slot ensures s in AllSlots {
      match s
      case Breakfast =>
      case Lunch =>
      case Dinner =>
      case Skipped =>
    }
  }

  /** The typed store of an imported `meals` value: it decodes exactly when
      the value is an object whose every entry decodes as a day, and then it
      keeps every date of the value. */
  function DecodeStore(j: Json): (r: Option<Store>)
    ensures r.Some? <==> j.JObject? && forall d :: d in j.fields ==> DecodeDay(j.fields[d]).Some?
    ensures r.Some? ==> r.value.Keys == j.fields.Keys
  {
    if !j.JObject? then None
    else
      var f := j.fields;
      if forall d :: d in f ==> DecodeDay(f[d]).Some? then
        Some(map d | d in f :: DecodeDay(f[d]).value)
      else None
  }

  /** What a decoded store holds: under each date, a slot exactly when the
      date's object has the slot's name, and under it that field's record. */
  lemma DecodeStoreContents(j: Json)
    requires DecodeStore(j).Some?
    ensures var r := DecodeStore(j).value;
      forall d, s :: d in r ==>
        && j.fields[d].JObject?
        && (s in r[d] <==> SlotName(s) in j.fields[d].fields)
        && (s in r[d] ==> DecodeRecord(j.fields[d].fields[SlotName(s)]) == Some(r[d][s]))
  {
    var r := DecodeStore(j).value;
    forall d, s | d in r
      ensures j.fields[d].JObject?
      ensures s in r[d] <==> SlotName(s) in j.fields[d].fields
      ensures s in r[d] ==> DecodeRecord(j.fields[d].fields[SlotName(s)]) == Some(r[d][s])
    {
      assert DecodeDay(j.fields[d]) == Some(r[d]);
      DecodedDaySlot(j.fields[d], s);
    }
  }

  /** A decoded day holds a slot exactly when its object has the slot's
      name, under it that field's record. */
  lemma DecodedDaySlot(j: Json, s: Slot)
    requires DecodeDay(j).Some?
    ensures j.JObject?
    ensures s in DecodeDay(j).value <==> SlotName(s) in j.fields
    ensures s in DecodeDay(j).value ==> DecodeRecord(j.fields[SlotName(s)]) == Some(DecodeDay(j).value[s])
  {
    AllSlotsComplete();
  }

  lemma RecordRoundTrip(r: Record)
    ensures DecodeRecord(EncodeRecord(r)) == Some(r)
  {
    var f := EncodeRecord(r).fields;
    assert "notes" in f && f["notes"] == JString(r.notes);
    assert "timestamp" in f && f["timestamp"] == JString(r.timestamp);
    assert ("skipped" in f && Truthy(f["skipped"])) == r.skipped;
    assert TextField(f, "location") == Some(r.location);
    assert TextField(f, "healthiness") == Some(r.healthiness);
  }

  /** The encoded day holds a slot's name exactly when the day holds the
      slot, under it the slot's encoded record, and no other key. */
  lemma EncodeDaySlot(e: DayEntry, s: Slot)
    ensures SlotName(s) in EncodeDay(e).fields <==> s in e
    ensures s in e ==> EncodeDay(e).fields[SlotName(s)] == EncodeRecord(e[s])
  {
    if SlotName(s) in EncodeDay(e).fields {
      var t :| t in e && SlotName(t) == SlotName(s);
      assert SlotOfName(SlotName(t)) == Some(t);
    }
  }

  /** Every key of an encoded day names a slot and holds a decodable record. */
  lemma EncodedDayDecodes(e: DayEntry)
    ensures AllSlotRecords(EncodeDay(e).fields)
  {
    var g := EncodeDay(e).fields;
    forall k | k in g ensures SlotOfName(k).Some? && DecodeRecord(g[k]).Some? {
      var s :| s in e && SlotName(s) == k;
      EncodeDaySlot(e, s);
      RecordRoundTrip(e[s]);
    }
  }

  lemma SlotRecordsAt(e: DayEntry, s: Slot)
    requires AllSlotRecords(EncodeDay(e).fields)
    ensures s in SlotRecords(EncodeDay(e).fields) <==> s in e
    ensures s in e ==> SlotRecords(EncodeDay(e).fields)[s] == e[s]
  {
    EncodeDaySlot(e, s);
    assert s in AllSlots;
    if s in e {
      RecordRoundTrip(e[s]);
    }
  }

  lemma SlotRecordsOfEncoded(e: DayEntry)
    requires AllSlotRecords(EncodeDay(e).fields)
    ensures SlotRecords(EncodeDay(e).fields) == e
  {
    var back := SlotRecords(EncodeDay(e).fields);
    forall s ensures (s in back <==> s in e) && (s in e ==> back[s] == e[s]) {
      SlotRecordsAt(e, s);
    }
    SameEntries(back, e);
  }

  /** Two maps with the same keys and the same value under each key are equal. */
  lemma SameEntries<K, V>(a: map<K, V>, b: map<K, V>)
    requires forall k :: (k in a <==> k in b) && (k in b ==> a[k] == b[k])
    ensures a == b
  {
    assert a.Keys == b.Keys;
  }

  lemma DayRoundTrip(e: DayEntry)
    ensures DecodeDay(EncodeDay(e)) == Some(e)
  {
    EncodedDayDecodes(e);
    SlotRecordsOfEncoded(e);
  }

  /** Decoding an encoded store gives the store back. */
  lemma StoreRoundTrip(store: Store)
    ensures DecodeStore(EncodeStore(store)) == Some(store)
  {
    var f := EncodeStore(store).fields;
    forall d | d in f ensures DecodeDay(f[d]).Some? {
      DayRoundTrip(store[d]);
    }
    var back := map d | d in f :: DecodeDay(f[d]).value;
    forall d | d in store ensures back[d] == store[d] {
      DayRoundTrip(store[d]);
    }
    assert back == store;
  }

  /** An exported file passes the import shape check, and its meals decode to
      the exported store. */
  lemma ExportImportRoundTrip(store: Store, exportDate: string)
    ensures CheckImport(ExportPayload(store, exportDate)) == Some(EncodeStore(store))
    ensures DecodeStore(EncodeStore(store)) == Some(store)
  {
    var f := ExportPayload(store, exportDate).fields;
    assert "meals" in f && f["meals"] == EncodeStore(store);
    StoreRoundTrip(store);
  }
}
