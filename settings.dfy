/** The settings record (`AppSettings`), its JSON form and the
    load-or-create routine over a store of files.

    JSON is modelled as a value, not as text: a file holds either a document
    serde_json can read (a `Json` value) or text that is not JSON. */
module Settings {
  import opened Options
  import opened Clock
  import TimeFormat

  const U32Limit: int := 0x1_0000_0000

  /** Rust's `u32` */
  type U32 = x: int | 0 <= x < U32Limit

  datatype AppSettings = AppSettings(triggerTime: TimeOfDay, countdownSeconds: U32, allowSnooze: bool)

  /** `AppSettings::default()`: a reminder at 17:00 with a ten-second
      countdown and no snoozing. */
  function Default(): (s: AppSettings)
    ensures Hour(s.triggerTime) == 17 && Minute(s.triggerTime) == 0 && IsWholeMinute(s.triggerTime)
    ensures s.countdownSeconds == 10 && !s.allowSnooze
  {
    AppSettings(FromHms(17, 0, 0).value, 10, false)
  }

  /** JSON values as serde_json reads them; every number is an integer. */
  datatype Json =
    | JNull
    | JBool(b: bool)
    | JInt(i: int)
    | JString(s: string)
    | JArray(items: seq<Json>)
    | JObject(fields: map<string, Json>)

  /** What `fs::read_to_string` hands to serde_json: JSON, or text that
      serde_json rejects. */
  datatype Document = Json(value: Json) | NotJson

  const TriggerTimeKey: string := "trigger_time"
  const CountdownSecondsKey: string := "countdown_seconds"
  const AllowSnoozeKey: string := "allow_snooze"

  /** The derived `Serialize`: an object with exactly the three fields, the
      trigger time written as `HH:MM` by `serialize_trigger_time`. */
  function ToJson(s: AppSettings): (j: Json)
    ensures j.JObject? && j.fields.Keys == {TriggerTimeKey, CountdownSecondsKey, AllowSnoozeKey}
    ensures j.fields[TriggerTimeKey].JString? && TimeFormat.IsCanonical(j.fields[TriggerTimeKey].s)
  {
    JObject(map[TriggerTimeKey := JString(TimeFormat.Format(s.triggerTime)),
                CountdownSecondsKey := JInt(s.countdownSeconds),
                AllowSnoozeKey := JBool(s.allowSnooze)])
  }

  /** `deserialize_trigger_time`: a JSON string parsed with `%H:%M`. */
  function TriggerTimeFrom(j: Json): (r: Option<TimeOfDay>)
    ensures r.Some? <==> j.JString? && TimeFormat.Parse(j.s).Some?
    ensures r.Some? ==> TimeFormat.Parse(j.s) == r && IsWholeMinute(r.value)
  {
    if j.JString? then TimeFormat.Parse(j.s) else None
  }

  /** A `u32` field: an integer from 0 up to 2^32 - 1. */
  function CountdownSecondsFrom(j: Json): (r: Option<U32>)
    ensures r.Some? <==> j.JInt? && 0 <= j.i < U32Limit
    ensures r.Some? ==> r.value == j.i
  {
    if j.JInt? && 0 <= j.i < U32Limit then Some(j.i) else None
  }

  /** A `bool` field. */
  function AllowSnoozeFrom(j: Json): (r: Option<bool>)
    ensures r.Some? <==> j.JBool?
    ensures r.Some? ==> r.value == j.b
  {
    if j.JBool? then Some(j.b) else None
  }

  /** The three fields converted in order; `None` when any one fails. */
  function FromFields(trigger: Json, countdown: Json, snooze: Json): Option<AppSettings> {
    match (TriggerTimeFrom(trigger), CountdownSecondsFrom(countdown), AllowSnoozeFrom(snooze))
    case (Some(t), Some(c), Some(b)) => Some(AppSettings(t, c, b))
    case _ => None
  }

  /** The derived `Deserialize` on a JSON value: an object holding the three
      fields (other keys are ignored), or an array of exactly three elements
      in field order. Anything else is an error (`None`). */
  function FromJson(j: Json): (r: Option<AppSettings>)
    ensures r.Some? ==> j.JObject? || (j.JArray? && |j.items| == 3)
    ensures r.Some? ==> IsWholeMinute(r.value.triggerTime)
  {
    match j
    case JObject(fields) =>
      if TriggerTimeKey in fields && CountdownSecondsKey in fields && AllowSnoozeKey in fields then
        FromFields(fields[TriggerTimeKey], fields[CountdownSecondsKey], fields[AllowSnoozeKey])
      else None
    case JArray(items) =>
      if |items| == 3 then FromFields(items[0], items[1], items[2]) else None
    case _ => None
  }

  /** `AppSettings::from(string)`: `serde_json::from_str(..).unwrap()`;
      `None` stands for the panic. */
  function FromDocument(d: Document): (r: Option<AppSettings>)
    ensures d == NotJson ==> r == None
    ensures r.Some? ==> d.Json? && FromJson(d.value) == r && IsWholeMinute(r.value.triggerTime)
  {
    match d
    case Json(j) => FromJson(j)
    case NotJson => None
  }

  /** Serialising settings and reading them back gives the same settings
      with the trigger time cut to its whole minute, so whole-minute settings
      come back unchanged. */
  lemma JsonRoundTrip(s: AppSettings)
    ensures FromJson(ToJson(s)) == Some(s.(triggerTime := TimeFormat.TruncateToMinute(s.triggerTime)))
    ensures IsWholeMinute(s.triggerTime) ==> FromJson(ToJson(s)) == Some(s)
  {
    var j := ToJson(s);
    var t := TimeFormat.TruncateToMinute(s.triggerTime);
    ReadBackFields(s);
    FromJsonOfObject(j.fields);
    assert FromFields(j.fields[TriggerTimeKey], j.fields[CountdownSecondsKey], j.fields[AllowSnoozeKey])
           == Some(s.(triggerTime := t));
    if IsWholeMinute(s.triggerTime) {
      FromHmsOfFields(s.triggerTime);
      assert s.(triggerTime := t) == s;
    }
  }

  /** An object holding the three keys reads as its three fields. */
  lemma FromJsonOfObject(fields: map<string, Json>)
    requires TriggerTimeKey in fields && CountdownSecondsKey in fields && AllowSnoozeKey in fields
    ensures FromJson(JObject(fields))
            == FromFields(fields[TriggerTimeKey], fields[CountdownSecondsKey], fields[AllowSnoozeKey])
  {
  }

  /** Each serialised field reads back as its value, the trigger time cut to
      the minute. */
  lemma ReadBackFields(s: AppSettings)
    ensures var j := ToJson(s);
            TriggerTimeFrom(j.fields[TriggerTimeKey]) == Some(TimeFormat.TruncateToMinute(s.triggerTime))
            && CountdownSecondsFrom(j.fields[CountdownSecondsKey]) == Some(s.countdownSeconds)
            && AllowSnoozeFrom(j.fields[AllowSnoozeKey]) == Some(s.allowSnooze)
  {
    TimeFormat.ParseFormat(s.triggerTime);
  }

  /** Any value that reads as settings is written back in a form that reads
      as the same settings. */
  lemma JsonRoundTripBack(j: Json)
    requires FromJson(j).Some?
    ensures FromJson(ToJson(FromJson(j).value)) == FromJson(j)
  {
    JsonRoundTrip(FromJson(j).value);
  }

  /** The file store: each path maps to its contents, or to `None` when a
      file is there but cannot be read; a path not in the map has no file. */
  class FileStore {
    var files: map<string, Option<Document>>

    constructor (files: map<string, Option<Document>>)
      ensures this.files == files
    {
      this.files := files;
    }
  }

  /** `fs::read_to_string(path)`: the contents, or `None` on any error. */
  function Read(files: map<string, Option<Document>>, path: string): Option<Document> {
    if path in files then files[path] else None
  }

  /** The document a settings file holds after `generate_settings_file`. */
  function SettingsDocument(s: AppSettings): Document {
    Json(ToJson(s))
  }

  /** `generate_settings_file`: the file at `path` is created or truncated
      and holds the settings' JSON; no other file changes. */
  method GenerateSettingsFile(settings: AppSettings, store: FileStore, path: string)
    modifies store
    ensures store.files == old(store.files)[path := Some(SettingsDocument(settings))]
  {
    store.files := store.files[path := Some(SettingsDocument(settings))];
  }

  /** What `load_or_create_settings` returns for a store as it was before
      the call: the settings read from the file, or the defaults when the
      file cannot be read; `None` is the panic on contents that do not read
      as settings. */
  function Loaded(files: map<string, Option<Document>>, path: string): (r: Option<AppSettings>)
    ensures path in files && files[path].Some? ==> r == FromDocument(files[path].value)
    ensures path in files && files[path] == Some(NotJson) ==> r == None
    ensures r.Some? ==> IsWholeMinute(r.value.triggerTime)
  {
    match Read(files, path)
    case Some(d) => FromDocument(d)
    case None => FromDocument(SettingsDocument(Default()))
  }

  /** `load_or_create_settings`. The default block given to `map_or` is an
      argument, so it runs on every call, after the read: the file is
      overwritten with the defaults even when it existed, and even when its
      old contents then fail to parse. */
  method LoadOrCreateSettings(store: FileStore, path: string) returns (r: Option<AppSettings>)
    modifies store
    ensures store.files == old(store.files)[path := Some(SettingsDocument(Default()))]
    ensures r == Loaded(old(store.files), path)
  {
    var read := Read(store.files, path);
    var settings := Default();
    GenerateSettingsFile(settings, store, path);
    var defaultString := SettingsDocument(settings);
    var settingsString := match read case Some(s) => s case None => defaultString;
    r := FromDocument(settingsString);
  }

  /** A missing or unreadable file yields the defaults. */
  lemma LoadMissing(files: map<string, Option<Document>>, path: string)
    requires path !in files || files[path] == None
    ensures Loaded(files, path) == Some(Default())
  {
    JsonRoundTrip(Default());
  }

  /** Writing whole-minute settings and then loading them gives them back. */
  lemma GenerateThenLoad(files: map<string, Option<Document>>, path: string, s: AppSettings)
    requires IsWholeMinute(s.triggerTime)
    ensures Loaded(files[path := Some(SettingsDocument(s))], path) == Some(s)
  {
    JsonRoundTrip(s);
  }

  /** Loading twice from a path with no readable file returns the defaults
      both times, and the file holds the defaults after each call: the file
      is written on both calls. */
  lemma LoadTwiceFromMissing(files: map<string, Option<Document>>, path: string)
    requires path !in files || files[path] == None
    ensures var after := files[path := Some(SettingsDocument(Default()))];
            Loaded(files, path) == Loaded(after, path) == Some(Default())
            && after[path := Some(SettingsDocument(Default()))] == after
  {
    LoadMissing(files, path);
    GenerateThenLoad(files, path, Default());
  }

  /** The generated file for the defaults with the trigger moved to 18:00 is
      the object `{"trigger_time": "18:00", "countdown_seconds": 10,
      "allow_snooze": false}`. */
  lemma GeneratedFileAtSixPm()
    ensures ToJson(Default().(triggerTime := 18 * NanosPerHour))
            == JObject(map[TriggerTimeKey := JString("18:00"),
                           CountdownSecondsKey := JInt(10),
                           AllowSnoozeKey := JBool(false)])
  {
    var t: TimeOfDay := 18 * NanosPerHour;
    MinuteFieldsOf(18 * 60);
    assert Hour(t) == 18 && Minute(t) == 0;
    assert TimeFormat.Format(t) == "18:00";
  }
}
