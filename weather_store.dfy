/** The telemetry log: the module-level list `weather_data` of weather records,
    the cached `latest_weather`, and the JSON document they are saved to and
    loaded from (app.py `load_weather_data`, `save_weather_data`,
    `add_weather_record`).

    The pure functions `Loaded`, `Saved` and `Added` say what each operation
    does to the whole state; the class `WeatherLog` holds that state in fields
    and its methods change it in place. Lemmas about the functions state the
    properties the backend relies on across several calls. */
module WeatherStore {

  import opened Values

  /** `MAX_WEATHER_RECORDS`: the log keeps at most this many records. */
  const MaxWeatherRecords: nat := 100000000

  /** One stored measurement. The timestamp is the server clock's ISO-8601
      text at receipt; the three readings are whatever JSON values the device
      sent. */
  datatype Record = Record(timestamp: string, temperature: Json, humidity: Json, pressure: Json)

  /** The weather JSON file, as `load_weather_data` finds it. */
  datatype Document =
    | Missing                        // the file does not exist
    | Unreadable                     // it cannot be opened or does not decode to a list of records
    | Records(records: seq<Record>)  // it holds this list

  /** How the write in `save_weather_data` ends. */
  datatype WriteOutcome =
    | Completed    // the document now holds the whole list
    | NotOpened    // `open(..., 'w')` failed: the old document stays
    | Interrupted  // the file was opened (and so emptied) but `json.dump` failed part way

  /** The whole state: the log, the latest-record cache and the document. */
  datatype Store = Store(log: seq<Record>, latest: Option<Record>, document: Document)

  function Last<T>(s: seq<T>): T
    requires s != []
  {
    s[|s| - 1]
  }

  /** The cache names the log's last record whenever the log has one. */
  ghost predicate CacheAgrees(s: Store) {
    s.log != [] ==> s.latest == Some(Last(s.log))
  }

  /** `weather_data[-MAX_WEATHER_RECORDS:]` when the list is longer than the
      maximum, the list itself otherwise: the newest records, in their order. */
  function Keep(log: seq<Record>): (kept: seq<Record>)
    ensures |kept| == if |log| > MaxWeatherRecords then MaxWeatherRecords else |log|
  {
    if |log| > MaxWeatherRecords then log[|log| - MaxWeatherRecords..] else log
  }

  /** The kept records are the newest ones, in their original order. */
  lemma KeepIsNewest(log: seq<Record>)
    ensures log == log[..|log| - |Keep(log)|] + Keep(log)
  {
  }

  /** `load_weather_data`. */
  function Loaded(s: Store): (r: Store)
    ensures r.document == s.document
    ensures CacheAgrees(r)
    ensures r.log == (if s.document.Records? then s.document.records else [])
    ensures r.latest == s.latest || (r.log != [] && r.latest == Some(Last(r.log)))
  {
    match s.document
    case Missing => s.(log := [])
    case Unreadable => s.(log := [])
    case Records(records) =>
      if records != [] then s.(log := records, latest := Some(Last(records)))
      else s.(log := records)
  }

  /** `save_weather_data`: trim the log in memory, then write it out. */
  function Saved(s: Store, w: WriteOutcome): (r: Store)
    ensures r.log == Keep(s.log)
    ensures r.latest == s.latest
    ensures w.Completed? ==> r.document == Records(r.log)
    ensures w.NotOpened? ==> r.document == s.document
    ensures w.Interrupted? ==> r.document == Unreadable
    ensures CacheAgrees(s) ==> CacheAgrees(r)
  {
    var kept := Keep(s.log);
    var document := match w
      case Completed => Records(kept)
      case NotOpened => s.document
      case Interrupted => Unreadable;
    Store(kept, s.latest, document)
  }

  /** `add_weather_record`: append, point the cache at the new record, save. */
  function Added(s: Store, rec: Record, w: WriteOutcome): (r: Store)
    ensures r.log == Keep(s.log + [rec])
    ensures r.latest == Some(rec)
    ensures r.log != [] && Last(r.log) == rec
    ensures CacheAgrees(r)
    ensures |r.log| == if |s.log| + 1 > MaxWeatherRecords then MaxWeatherRecords else |s.log| + 1
  {
    Saved(s.(log := s.log + [rec], latest := Some(rec)), w)
  }

  /** The state the process starts in: `weather_data = []`, `latest_weather = None`. */
  function Initial(document: Document): (s: Store)
    ensures s.log == [] && s.latest.None? && s.document == document
    ensures CacheAgrees(s)
  {
    Store([], None, document)
  }

  // ---------------------------------------------------------------------------
  // The state as the backend holds it

  class WeatherLog {
    var log: seq<Record>
    var latest: Option<Record>
    var document: Document

    function Snapshot(): Store
      reads this
    {
      Store(log, latest, document)
    }

    /** The module globals before `load_weather_data` runs. */
    constructor (document: Document)
      ensures Snapshot() == Initial(document)
    {
      log := [];
      latest := None;
      this.document := document;
    }

    method LoadWeatherData()
      modifies this
      ensures Snapshot() == Loaded(old(Snapshot()))
    {
      match document
      case Missing =>
        log := [];
      case Unreadable =>
        log := [];
      case Records(records) =>
        log := records;
        if log != [] {
          latest := Some(log[|log| - 1]);
        }
    }

    method SaveWeatherData(w: WriteOutcome)
      modifies this
      ensures Snapshot() == Saved(old(Snapshot()), w)
    {
      if |log| > MaxWeatherRecords {
        log := log[|log| - MaxWeatherRecords..];
      }
      match w
      case Completed =>
        document := Records(log);
      case NotOpened =>
      case Interrupted =>
        document := Unreadable;
    }

    method AddWeatherRecord(now: string, temperature: Json, humidity: Json, pressure: Json, w: WriteOutcome)
      returns (rec: Record)
      modifies this
      ensures rec == Record(now, temperature, humidity, pressure)
      ensures Snapshot() == Added(old(Snapshot()), rec, w)
    {
      rec := Record(now, temperature, humidity, pressure);
      log := log + [rec];
      latest := Some(rec);
      SaveWeatherData(w);
    }
  }

  // ---------------------------------------------------------------------------
  // Properties across calls

  /** Trimming before or after one more append gives the same log. */
  lemma KeepAppend(log: seq<Record>, rec: Record)
    ensures Keep(Keep(log) + [rec]) == Keep(log + [rec])
  {
    var k := Keep(log);
    var full := log + [rec];
    assert Keep(full) == full[|full| - |Keep(full)|..];
    assert Keep(k + [rec]) == (k + [rec])[|k + [rec]| - |Keep(k + [rec])|..];
    assert k + [rec] == full[|log| - |k|..];
  }

  /** Appending `recs` one after another, each write completing. */
  function AddAll(s: Store, recs: seq<Record>): Store
    decreases |recs|
  {
    if recs == [] then s else Added(AddAll(s, recs[..|recs| - 1]), Last(recs), Completed)
  }

  /** After any run of appends the log is the newest `MAX_WEATHER_RECORDS` of
      everything appended, oldest first, the document mirrors it, and the
      cache names the last record appended. */
  lemma {:induction false} AddAllKeepsNewest(s: Store, recs: seq<Record>)
    requires recs != []
    ensures AddAll(s, recs).log == Keep(s.log + recs)
    ensures AddAll(s, recs).document == Records(AddAll(s, recs).log)
    ensures AddAll(s, recs).latest == Some(Last(recs))
    decreases |recs|
  {
    var init, rec := recs[..|recs| - 1], Last(recs);
    var before := AddAll(s, init);
    assert recs == init + [rec];
    assert AddAll(s, recs) == Added(before, rec, Completed);
    if init == [] {
      assert before == s;
    } else {
      AddAllKeepsNewest(s, init);
      assert before.log == Keep(s.log + init);
      KeepAppend(s.log + init, rec);
      assert s.log + init + [rec] == s.log + recs;
    }
  }

  /** A restart after a completed append reloads the same log, and the cache
      again names the record that was appended last. */
  lemma RestartAfterAdd(s: Store, rec: Record)
    ensures var after := Added(s, rec, Completed);
            Loaded(Initial(after.document)) == after
  {
  }

  /** Restarting after `n` appends from an empty log yields the last
      `min(n, MAX_WEATHER_RECORDS)` of them, with the same latest record. */
  lemma {:induction false} RestartAfterAppends(document: Document, recs: seq<Record>)
    requires recs != []
    ensures var after := AddAll(Initial(document), recs);
            && Loaded(Initial(after.document)).log == Keep(recs)
            && Loaded(Initial(after.document)).latest == after.latest == Some(Last(recs))
  {
    AddAllKeepsNewest(Initial(document), recs);
    assert Initial(document).log + recs == recs;
  }

  /** A write that fails leaves the document behind the log; the next
      append whose write completes brings the document back in step with
      everything appended, as if the failed write had succeeded. */
  lemma {:induction false} NextAddRepairsFailedSave(s: Store, w: WriteOutcome, rec: Record)
    ensures Added(Saved(s, w), rec, Completed).document == Records(Keep(s.log + [rec]))
    ensures Added(Saved(s, w), rec, Completed) == Added(Saved(s, Completed), rec, Completed)
  {
    KeepAppend(s.log, rec);
  }

  /** Every operation keeps the cache in step with the log. */
  lemma {:induction false} CacheStaysInStep(s: Store, rec: Record, w: WriteOutcome, recs: seq<Record>)
    requires CacheAgrees(s)
    ensures CacheAgrees(Loaded(s)) && CacheAgrees(Saved(s, w)) && CacheAgrees(Added(s, rec, w))
    ensures CacheAgrees(AddAll(s, recs))
  {
    if recs != [] {
      AddAllKeepsNewest(s, recs);
    }
  }

  /** The converse of `CacheAgrees` does not hold: loading a missing or empty
      document empties the log but leaves a cached record in place. */
  lemma StaleCacheAfterEmptyLoad(rec: Record)
    ensures var s := Loaded(Store([rec], Some(rec), Missing));
            s.log == [] && s.latest == Some(rec)
  {
  }
}
