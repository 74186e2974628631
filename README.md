# Bird-feeder gallery backend: a verified model

The backend (`app.py`) is a small Flask server for an ESP32-CAM feeder camera.
The camera uploads JPEG images, which the server stores under names derived
from the server clock and evicts once there are more than `MAX_IMAGES`. The
camera also posts weather readings, which the server appends to an in-memory
log, mirrors to a JSON document and serves as "latest weather". This project
models that core in Dafny:

- `Values`: the shared values. These are an `Option`, bytes, and the JSON
  values that arrive in request bodies, with Python's truthiness and type
  names for them.
- `Sorting`: `list.sort(key=...)` as a stable insertion sort by an integer
  key. It also holds facts about sequences that list a set exactly once.
- `TimestampCodec`: the image name `YYYYMMDD_HHMMSS.jpg`. This covers strftime
  on upload, strptime in the listing, the `YYYY-MM-DD HH:MM:SS` display form,
  and the "Unknown" fallback.
- `WeatherStore`: the log `weather_data`, the cache `latest_weather` and the
  persisted document.
  - The pure functions `Loaded`, `Saved` and `Added` state what
    `load_weather_data`, `save_weather_data` and `add_weather_record` do to the
    whole state.
  - The class `WeatherLog` holds that state in fields. Its methods change the
    state in place and are proved to agree with those functions.
- `WeatherApi`: the checks `POST /weather` makes on the body it receives, the
  reply it gives, and `GET /api/weather`.
- `ImageStore`: the images folder, as a map from name to bytes and
  modification time.
  - `get_image_list` scans the folder in an unspecified order, then sorts.
  - `get_latest_image` and `api_latest` read the newest entry.
  - The class `ImageDirectory` holds the folder. Its methods are
    `cleanup_old_images` and the store-then-evict part of `upload`.

Several inputs become parameters:

- the clock readings (`datetime.now()`);
- the modification time a write gives a file;
- the order in which `os.listdir` returns names. The model picks each name
  nondeterministically.
- whether a write of the JSON document completes, fails to open, or is cut
  off part way.

## Model

| member | source | states |
|---|---|---|
| Sorting.SortByKey | app.py:101-102 | the result is sorted by the key and is a permutation of the input |
| Sorting.EnumeratesSet | app.py:115-116 | a sequence that holds each element of a set once repeats nothing and covers exactly the set |
| TimestampCodec.Stem | app.py:162 | strftime `%Y%m%d_%H%M%S` renders 15 characters with `_` at position 8 |
| TimestampCodec.UploadFilename | app.py:162-163 | the upload name is 19 characters: the stem followed by `.jpg` |
| TimestampCodec.Display | app.py:91 | strftime `%Y-%m-%d %H:%M:%S` renders 19 characters with `-`, `-`, ` `, `:`, `:` between the fields |
| TimestampCodec.DisplayTimestamp | app.py:88-93 | a listed name shows "Unknown" exactly when its stem does not parse, and otherwise a 19-character date-time |
| TimestampCodec.ParseStem | app.py:89-90 | a stem that parses as `%Y%m%d_%H%M%S` gives a real calendar date-time with a year from 1 to 9999 |
| TimestampCodec.ParseDigitsOfDigits | app.py:162 | reading back a zero-padded decimal field gives the number that was rendered |
| TimestampCodec.DigitsOfParseDigits | app.py:90 | a field of digits is below 10^width and renders back to the same characters |
| TimestampCodec.ParseStemOfStem | app.py:162-163 | the stem that upload renders from a clock reading parses back to that reading |
| TimestampCodec.StemOfParseStem | app.py:89-91 | every stem the fixed-width parse accepts is the canonical rendering of what it parsed |
| TimestampCodec.UploadFilenameInjective | app.py:162-167 | two clock readings give the same upload filename exactly when they fall in the same clock second, so a second upload within the same clock second overwrites the first |
| TimestampCodec.UploadedImageDisplay | app.py:88-93 | an uploaded image is listed with the display form of the clock reading that named it, and that display is the stem's own digits regrouped |
| TimestampCodec.DisplayRegroupsStem | app.py:88-93 | a listed name shows its stem regrouped as `YYYY-MM-DD HH:MM:SS` when the stem parses, and "Unknown" otherwise |
| Values.Truthy | app.py:193 | a decoded body is falsy exactly when it is `null`, `false`, `0`, `""`, `[]` or `{}` |
| Values.Get | app.py:196-198 | `data.get(key)` never yields a `null` reading; it yields the stored value when the key holds a non-null one, and nothing otherwise |
| WeatherStore.Initial | app.py:21-22 | the process starts with an empty log and no cached record, so the cache agrees with the log |
| WeatherStore.Keep | app.py:53-54 | the trimmed log holds min(length, MAX_WEATHER_RECORDS) records |
| WeatherStore.KeepIsNewest | app.py:53-54 | the trimmed log is a suffix of the log: the newest records, in their order |
| WeatherStore.Loaded | app.py:29-47 | after a load, the log is the document's list, or empty when the document is missing or unreadable; the cache names the last record when there is one and is otherwise untouched |
| WeatherStore.Saved | app.py:49-60 | after a save the log is trimmed whatever the write does; the document holds the trimmed log on success, is unchanged when the open fails, and is unreadable after a partial write; the cache still agrees with the log |
| WeatherStore.Added | app.py:62-76 | after an append the log is the trimmed old log plus the record; the record is last in the log and the cache names it |
| WeatherStore.WeatherLog.constructor | app.py:21-22 | the process starts with an empty log and no cached record |
| WeatherStore.WeatherLog.LoadWeatherData | app.py:29-47 | the fields change exactly as `Loaded` says |
| WeatherStore.WeatherLog.SaveWeatherData | app.py:49-60 | the fields change exactly as `Saved` says |
| WeatherStore.WeatherLog.AddWeatherRecord | app.py:62-76 | it returns the record stamped with the clock reading and changes the fields exactly as `Added` says |
| WeatherStore.KeepAppend | app.py:53-54 | trimming before or after one more append gives the same log |
| WeatherStore.AddAllKeepsNewest | app.py:62-76 | after any run of completed appends, the log is the newest MAX_WEATHER_RECORDS of all records appended, oldest first; the document mirrors the log; the cache names the last record appended |
| WeatherStore.RestartAfterAdd | app.py:29-47 | loading the document that a completed append wrote gives back the same log and cache |
| WeatherStore.RestartAfterAppends | app.py:253-254 | a restart after n completed appends from an empty log reloads the last min(n, MAX_WEATHER_RECORDS) of them, with the same latest record |
| WeatherStore.NextAddRepairsFailedSave | app.py:49-76 | after a failed or partial write, the next append whose write completes leaves the same state as if the failed write had succeeded; the document again holds the newest records appended |
| WeatherStore.CacheStaysInStep | app.py:62-76 | load, save, append and any run of appends keep the cache naming the log's last record |
| WeatherStore.StaleCacheAfterEmptyLoad | app.py:33-36 | loading a missing document empties the log but keeps a cached record |
| WeatherApi.ValidateWeather | app.py:188-209 | a body is accepted exactly when it decodes to an object with three non-null readings; the reply is 400 "no data received" exactly when the body is falsy, 400 "missing data placeholders" exactly when a non-empty object lacks a reading, and 500 exactly when decoding raised or the body is a truthy non-object |
| WeatherApi.ReceiveWeather | app.py:188-209 | on an accepted body it answers 200 "Data stored" and appends the stamped record; on a refused body it answers the refusal and changes nothing |
| WeatherApi.RecordJson | app.py:66-71 | a record is served as an object with exactly the keys `timestamp`, `temperature`, `humidity` and `pressure`, holding the receipt time and the three readings |
| WeatherApi.ApiWeather | app.py:211-213 | the reply is always an object, and it is `{}` exactly when no record is cached |
| WeatherApi.AcceptedReadingIsServed | app.py:211-213 | the readings of an accepted body, with the receipt time, are what `GET /api/weather` serves next, whatever the write did |
| WeatherApi.ZeroReadingsAccepted | app.py:201-202 | readings are tested with `is None`, so zero readings are stored |
| WeatherApi.MissingHumidityRefused | app.py:196-202 | any non-empty object without a humidity reading is refused with 400 "missing data placeholders" |
| WeatherApi.ReceiveAsWritten | app.py:188-209 | a refused body is answered in the same way whatever `weather_data` is bound to, and changes nothing |
| WeatherApi.UnloadedLogRefusesEveryReading | app.py:231 | with `weather_data` bound to the view function, every accepted reading gets a 500 reply and nothing is stored |
| WeatherApi.BoundLogStoresEveryReading | app.py:204-206 | with `weather_data` bound to a list, every accepted reading is appended and cached with a 200 reply |
| ImageStore.Describe | app.py:95-99 | an entry carries the file's name and mtime, and its timestamp is "Unknown" exactly when the name's stem does not parse |
| ImageStore.ScanFolder | app.py:84-99 | the scan gathers the entry of every `.jpg` file of the folder exactly once, and nothing else |
| ImageStore.NewerFirstKeyOrder | app.py:101-102 | sorting by the negated mtime puts the newest first |
| ImageStore.GetImageList | app.py:78-103 | the listing is empty when the folder is gone; otherwise it holds the entry of every `.jpg` file exactly once, and nothing else, newest first |
| ImageStore.ImageListDescribesFolder | app.py:84-99 | the listing never names a file twice; each entry names a `.jpg` file of the folder with its display timestamp and mtime; every `.jpg` file has an entry |
| ImageStore.GetLatestImage | app.py:105-107 | the result is nothing exactly when the folder is gone or holds no `.jpg` file; otherwise it is the entry of a `.jpg` file whose mtime is not below any other's |
| ImageStore.ApiLatest | app.py:215-223 | the reply is null, null, 0 exactly when there is no image; otherwise it gives the newest image's name, display timestamp and mtime |
| ImageStore.JpgFilesOf | app.py:115-116 | the names gathered are the folder's `.jpg` names, each once |
| ImageStore.EvictionBound | app.py:118-124 | after an eviction the folder holds min(count, MAX_IMAGES) `.jpg` files and every other file is still there |
| ImageStore.NewestSurvivesEviction | app.py:118-124 | an image strictly newer than every other `.jpg` file survives the eviction unchanged |
| ImageStore.NothingToEvict | app.py:118 | at or below MAX_IMAGES `.jpg` files, leaving the folder alone is a correct eviction |
| ImageStore.PrefixDeletionEvictsOldest | app.py:119-124 | deleting the first (count - MAX_IMAGES) names of the oldest-first order removes exactly that many `.jpg` files, none newer than any `.jpg` file kept, and leaves the rest untouched |
| ImageStore.ImageDirectory.RemoveFirst | app.py:123-124 | the folder loses exactly the first `count` names of the list |
| ImageStore.ImageDirectory.CleanupOldImages | app.py:109-124 | a missing folder stays missing; otherwise the folder after the cleanup is an eviction of the oldest `.jpg` files down to MAX_IMAGES |
| ImageStore.ImageDirectory.Upload | app.py:159-174 | with the folder present, the body is stored under the clock-derived name, replacing any file of that name, then evicted down to MAX_IMAGES, and the reply is 200 "Image saved"; with the folder gone the reply is 500 and nothing changes |
| ImageStore.UploadKeepsNewest | app.py:159-174 | after an upload the folder holds at most MAX_IMAGES `.jpg` files, and an upload newer than every other image is kept with its bytes |

## Findings

| source | as written | input that shows it | evidently intended | confidence | as-written member | corrected member |
|---|---|---|---|---|---|---|
| app.py:21, app.py:230-234 | the view function `def weather_data()` rebinds the module global `weather_data`, which first names the record list; only `load_weather_data` rebinds it to a list, which happens when the module runs as a script (app.py:254) and on each successful `POST /refresh-weather` (app.py:245) | the app is served by importing it (`flask run`, a WSGI server), then the device posts `{"temperature": 20, "humidity": 50, "pressure": 1000}`; `weather_data.append` raises AttributeError, so the reply is 500 and nothing is stored; this goes on for every reading until the first successful refresh | `weather_data` always names the record list (the view function under another name), so an accepted reading is stored and served | high; not executed | WeatherApi.UnloadedLogRefusesEveryReading | WeatherApi.ReceiveWeather |

The rest of the model uses the intended binding. `WeatherLog` always holds a
list, starting from `[]`. `WeatherApi.BoundLogStoresEveryReading` and
`WeatherApi.AcceptedReadingIsServed` prove that an accepted reading is stored
and then served.

## Left out

- Flask routing, `jsonify`, templates and `send_from_directory` are not modelled. The `index`, `gallery`, `serve_image` and `weather_history` pages only render or send what the listing and the cache give.
- The `/weather-data` route is not modelled. It returns the log as it stands.
- `capture` and `refresh_weather` are not modelled, because they make outbound HTTP requests to the camera. The reload that `refresh_weather` triggers is `LoadWeatherData`.
- Real file I/O, `json.load`/`json.dump`, `os.makedirs` and `print` are not modelled. The document is a value: missing, unreadable, or a list of records. The outcome of a write is a parameter.
- WeatherStore.Loaded: a document that decodes to something other than a list of records is treated as unreadable. Examples are `{}`, a list of numbers, or a non-empty object. In Python, an empty object would leave `weather_data` bound to a dict, and a list of arbitrary values would be cached as is.
- The clock and the modification times are integer parameters. Floating-point mtimes and readings are not modelled. JSON numbers are integers, so the 500 message for a float body says `'int'` where Python says `'float'`.
- WeatherApi.ValidateWeather: when decoding the body raises, the exception's text is carried as an opaque string. The exact wording of Flask's and Werkzeug's messages is not modelled.
- TimestampCodec.ParseStem: only the fixed-width form of `%Y%m%d_%H%M%S` is accepted. Python's strptime also accepts some shorter fields (for example a one-digit month). The model shows those names as "Unknown", so for such names it under-approximates the display. For names that upload writes it is exact.
- TimestampCodec.DisplayTimestamp: `filename.replace('.jpg', '')` removes every occurrence of `.jpg`, but the model strips only the suffix. A name with an inner `.jpg` whose `replace` result parses is shown as that date-time by Python and as "Unknown" by the model. An example is `2024.jpg0101_120000.jpg`, which Python shows as `2024-01-01 12:00:00`.
- TimestampCodec.DisplayTimestamp: strptime's `\d` also matches non-ASCII decimal digits. The model accepts only `0` to `9`, so it shows "Unknown" for names whose fields use other decimal digits, where Python shows a date-time.
- TimestampCodec.DisplayTimestamp: on platforms where strftime `%Y` does not pad years below 1000, Python shows a name placed in the folder such as `09990101_120000.jpg` as `999-01-01 12:00:00`. `Display` gives `0999-01-01 12:00:00`.
- TimestampCodec.Stem: `%Y` is rendered with four zero-padded digits. Some C libraries do not pad years below 1000, but the clock never reads such a year.
- Sorting.SortByKey: the model does not claim that equal mtimes keep the listing order Python's stable sort keeps. The listing order itself is unspecified.
- ImageStore.ImageDirectory.Upload: the request body is a byte sequence. The case where the folder is missing is modelled as Flask's 500 reply to the exception from `open`. A disk that fails part way through a write is not modelled.
- Concurrency is not modelled. Flask may run handlers in several threads, but the model assumes one request at a time.
