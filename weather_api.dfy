/** The two weather routes that carry logic: `POST /weather` (app.py
    `receive_weather`), which checks the body the device sent and appends one
    record, and `GET /api/weather` (`api_weather`), which returns the cached
    latest record. */
module WeatherApi {

  import opened Values
  import opened WeatherStore

  /** What `request.get_json()` gives for the request body: a decoded JSON
      value, or an exception (a body that is not JSON, a wrong content type)
      with its message. */
  datatype Body = Parsed(json: Json) | Raised(message: string)

  /** A JSON response and its HTTP status. */
  datatype Reply = Reply(status: int, payload: Json)

  /** The outcome of checking a `POST /weather` body: store these three
      readings, or answer with this reply and store nothing. */
  datatype Verdict = Accept(temperature: Json, humidity: Json, pressure: Json) | Refuse(reply: Reply)

  function ErrorReply(status: int, message: string): Reply {
    Reply(status, JObj(map["error" := JStr(message)]))
  }

  const NoDataReply := ErrorReply(400, "no data received")
  const MissingFieldsReply := ErrorReply(400, "missing data placeholders")
  const StoredReply := Reply(200, JObj(map["success" := JBool(true), "message" := JStr("Data stored")]))

  /** The three readings are all present and none is `null`. */
  predicate HasReadings(fields: map<string, Json>) {
    Get(fields, "temperature").Some? && Get(fields, "humidity").Some? && Get(fields, "pressure").Some?
  }

  /** The decision `receive_weather` takes before it touches the log. */
  function ValidateWeather(body: Body): (v: Verdict)
    ensures v.Accept? <==> body.Parsed? && body.json.JObj? && HasReadings(body.json.fields)
    ensures v.Accept? ==> && v.temperature == body.json.fields["temperature"]
                          && v.humidity == body.json.fields["humidity"]
                          && v.pressure == body.json.fields["pressure"]
    ensures v == Refuse(NoDataReply) <==> body.Parsed? && !Truthy(body.json)
    ensures v == Refuse(MissingFieldsReply) <==>
              body.Parsed? && body.json.JObj? && body.json.fields != map[] && !HasReadings(body.json.fields)
    ensures v.Refuse? && v.reply.status == 500 <==>
              body.Raised? || (Truthy(body.json) && !body.json.JObj?)
  {
    assert NoDataReply.status == MissingFieldsReply.status == 400;
    assert NoDataReply != MissingFieldsReply by {
      assert "no data received"[0] != "missing data placeholders"[0];
      assert NoDataReply.payload.fields["error"] != MissingFieldsReply.payload.fields["error"];
    }
    match body
    case Raised(message) =>
      Refuse(ErrorReply(500, message))
    case Parsed(data) =>
      if !Truthy(data) then
        Refuse(NoDataReply)
      else if !data.JObj? then
        // `data.get` on a list, string, number or `true` raises AttributeError
        Refuse(ErrorReply(500, "'" + PythonTypeName(data) + "' object has no attribute 'get'"))
      else if !HasReadings(data.fields) then
        Refuse(MissingFieldsReply)
      else
        Accept(data.fields["temperature"], data.fields["humidity"], data.fields["pressure"])
  }

  /** `POST /weather`: on an accepted body, one record stamped with the clock
      reading `now` is appended (the document write ending as `w`); on any
      refusal the log, the cache and the document stay as they were. */
  method ReceiveWeather(store: WeatherLog, body: Body, now: string, w: WriteOutcome) returns (reply: Reply)
    modifies store
    ensures match ValidateWeather(body)
            case Accept(t, h, p) =>
              reply == StoredReply && store.Snapshot() == Added(old(store.Snapshot()), Record(now, t, h, p), w)
            case Refuse(r) =>
              reply == r && store.Snapshot() == old(store.Snapshot())
  {
    var verdict := ValidateWeather(body);
    match verdict
    case Refuse(r) =>
      reply := r;
    case Accept(t, h, p) =>
      var _ := store.AddWeatherRecord(now, t, h, p, w);
      reply := StoredReply;
  }

  /** The JSON object a record is stored and served as. */
  function RecordJson(rec: Record): (j: Json)
    ensures j.JObj? && j.fields.Keys == {"timestamp", "temperature", "humidity", "pressure"}
    ensures j.fields["timestamp"] == JStr(rec.timestamp)
    ensures j.fields["temperature"] == rec.temperature
    ensures j.fields["humidity"] == rec.humidity
    ensures j.fields["pressure"] == rec.pressure
  {
    JObj(map["timestamp" := JStr(rec.timestamp), "temperature" := rec.temperature,
             "humidity" := rec.humidity, "pressure" := rec.pressure])
  }

  /** `GET /api/weather`: the cached record, or `{}` when there is none. */
  function ApiWeather(latest: Option<Record>): (j: Json)
    ensures j.JObj?
    ensures j.fields == map[] <==> latest.None?
  {
    match latest
    case None => JObj(map[])
    case Some(rec) =>
      assert "timestamp" in RecordJson(rec).fields;
      RecordJson(rec)
  }

  /** A reading that `POST /weather` accepts is what `GET /api/weather`
      serves next, whatever happened to the document write. */
  lemma AcceptedReadingIsServed(s: Store, body: Body, now: string, w: WriteOutcome)
    requires ValidateWeather(body).Accept?
    ensures var v := ValidateWeather(body);
            var served := ApiWeather(Added(s, Record(now, v.temperature, v.humidity, v.pressure), w).latest);
            && served.fields["temperature"] == body.json.fields["temperature"]
            && served.fields["humidity"] == body.json.fields["humidity"]
            && served.fields["pressure"] == body.json.fields["pressure"]
            && served.fields["timestamp"] == JStr(now)
  {
  }

  /** Readings are checked with `is None`, not for truth: zero readings are
      stored. */
  lemma ZeroReadingsAccepted()
    ensures ValidateWeather(Parsed(JObj(map["temperature" := JNum(0), "humidity" := JNum(0),
                                            "pressure" := JNum(0)]))).Accept?
  {
    var fields := map["temperature" := JNum(0), "humidity" := JNum(0), "pressure" := JNum(0)];
    assert "temperature" in fields;
  }

  /** A body without a humidity reading is refused with 400 and stores nothing. */
  lemma MissingHumidityRefused(fields: map<string, Json>)
    requires "humidity" !in fields
    requires fields != map[]
    ensures ValidateWeather(Parsed(JObj(fields))) == Refuse(MissingFieldsReply)
    ensures ValidateWeather(Parsed(JObj(fields))).reply.status == 400
  {
  }

  // ---------------------------------------------------------------------------
  // The global the route function rebinds

  /** What the module global `weather_data` is bound to when a request
      arrives. The list it is first bound to is rebound, further down the same
      module, to the view function of `GET /weather-data`, which has the same
      name; only `load_weather_data` binds it to a list again, which happens
      when the module is run as a script and on each successful
      `POST /refresh-weather`. */
  datatype LogBinding = ViewFunction | LogList

  /** The exception `weather_data.append(record)` raises on a function object. */
  const NoAppendMessage := "'function' object has no attribute 'append'"

  /** `POST /weather` as written, with the binding of `weather_data` made
      explicit. On the view function the append raises before the cache or the
      document change, and the handler answers 500 with the exception text. */
  function ReceiveAsWritten(binding: LogBinding, s: Store, body: Body, now: string, w: WriteOutcome): (r: (Reply, Store))
    ensures ValidateWeather(body).Refuse? ==> r == (ValidateWeather(body).reply, s)
  {
    match ValidateWeather(body)
    case Refuse(reply) => (reply, s)
    case Accept(t, h, p) =>
      match binding
      case ViewFunction => (ErrorReply(500, NoAppendMessage), s)
      case LogList => (StoredReply, Added(s, Record(now, t, h, p), w))
  }

  /** Served without `load_weather_data` having run (the module imported by a
      WSGI server or `flask run` rather than run as a script), every reading the
      device sends is refused with 500 and none is stored. */
  lemma {:induction false} UnloadedLogRefusesEveryReading(s: Store, body: Body, now: string, w: WriteOutcome)
    requires ValidateWeather(body).Accept?
    ensures ReceiveAsWritten(ViewFunction, s, body, now, w).0.status == 500
    ensures ReceiveAsWritten(ViewFunction, s, body, now, w).0 != StoredReply
    ensures ReceiveAsWritten(ViewFunction, s, body, now, w).1 == s
  {
    assert StoredReply.status == 200;
  }

  /** With `weather_data` bound to a list, as the model's `WeatherLog` always
      holds it, the handler as written stores every accepted reading: this is
      what `ReceiveWeather` states. */
  lemma {:induction false} BoundLogStoresEveryReading(s: Store, body: Body, now: string, w: WriteOutcome)
    requires ValidateWeather(body).Accept?
    ensures var v := ValidateWeather(body);
            ReceiveAsWritten(LogList, s, body, now, w)
              == (StoredReply, Added(s, Record(now, v.temperature, v.humidity, v.pressure), w))
    ensures ReceiveAsWritten(LogList, s, body, now, w).1.latest.Some?
  {
  }
}
