# Mood journal service: a Dafny model

The service keeps mood-journal entries in one document collection,
`mood_entries`. Each entry has an `id`, an integer `mood`, a `mood_emoji`,
free-text `notes`, a calendar `date` string and a `timestamp`. The service has
handlers to create an entry, list all entries newest first, fetch the first
entry for a date, update or delete an entry by id, and export all entries as
CSV sorted by date.

This project models those handlers from `backend/server.py` over an in-memory
collection and proves what they do.

- `wrappers.dfy` (`Wrappers`): `Option` and `Result`.
- `lex_order.dfy` (`LexOrder`): the string order the collection sorts by. It
  is a total order.
- `decimal.dfy` (`Decimal`): Python's `str()` of an int, and the zero-padded
  digits of `strftime('%Y%m%d')`. Each has a reader, with a round-trip lemma.
- `entries.dfy` (`Entries`): the entry and payload records. It also gives the
  `$set` used by an update, and the HTTP errors as the client sees them.
- `table.dfy` (`Table`): the collection as a sequence in insertion order.
  It provides the queries the handlers send (`find_one`, `update_one` with
  `$set`, `delete_one`, `find().sort(...)`), with their frame properties.
- `csv.dfy` (`Csv`): the notes escaping, the line and document rendering, and
  the export file name. It also has a reader for the quoting convention the
  export uses. The main lemma shows the export reads back to its rows.
- `store.dfy` (`MoodStore`): class `Store`. Its field `entries` is the
  collection. The handlers are methods: `Create`, `Update` and `Delete`
  change `entries`; `ListAll`, `GetByDate` and `ExportCsv` only read it.
  `ExportCsv` builds the document in a loop, as the handler does.

Modelling choices:

- The timestamp is the ISO-8601 text that the collection stores, produced
  by `prepare_for_mongo` on create and by `isoformat()` on update. Sorting
  by `timestamp` therefore compares strings, just as sorting by `date`
  does. The datetime/text conversions are taken as the identity.
- String comparison is by code point. MongoDB compares the UTF-8 bytes,
  which gives the same order.
- "Natural order" (what `find_one` returns first) is insertion order.
- The uuid of a new entry and the clock's "now" are parameters. `Create`
  requires that the id is not in use yet.
- The export's file name takes the current UTC date as a parameter.
- The handlers raise a 404 inside their `try` blocks (`server.py:127`,
  `server.py:138`). The `except Exception` clause catches it and raises a 500
  whose detail is `str()` of the 404: `"404: Mood entry not found"`.
  `Caught` models this, and `NotFoundReachesClientAs500` states it. The
  format `"<status>: <detail>"` is the `__str__` of Starlette's
  `HTTPException`; that library is not part of this model.

Where the code's own comments, names or test scripts suggest more than the
code does, the model follows the code:

- The handlers raise 404s for a missing id (`server.py:127`,
  `server.py:138`), but those reach the client as 500s.
- The "Escape quotes" at `server.py:150` covers only `notes`. `mood` is
  written bare. `date`, `mood_emoji` and `timestamp` are put in quotes but
  not escaped.
- The "1-5 scale" comment at `server.py:30` and the cases at
  `validation_test.py:29-37` expect a range check on `mood` that the server
  never makes. No calendar check is made on `date` either.

## Model

| member | source | states |
|---|---|---|
| `MoodStore.Store.Create` | backend/server.py:66-79 | Appends exactly one entry and returns it. The entry's id is the fresh id and its timestamp is "now". Mood, emoji and date are copied unchanged. Notes default to "" when omitted. No range check is applied to mood. Ids stay distinct. |
| `MoodStore.Store.ListAll` | backend/server.py:86-94 | The result is a permutation of the stored entries, ordered by timestamp, newest first. An empty store gives an empty list. |
| `MoodStore.Store.GetByDate` | backend/server.py:99-106 | Returns None exactly when no entry has that date. Otherwise returns the first entry, in collection order, whose date is exactly that string. |
| `MoodStore.Store.Update` | backend/server.py:110-130 | The new collection is `update_one`'s result. Success happens exactly when the modified count is 1, and then returns the matched entry with the four payload fields and the timestamp replaced; the id is kept. Otherwise nothing changes and the error is the 500 carrying "404: Mood entry not found". |
| `MoodStore.Store.Delete` | backend/server.py:132-140 | Succeeds exactly when some entry has the id. It then returns the confirmation message, and afterwards no entry has that id. Otherwise nothing changes and the error is the 500 carrying "404: Mood entry not found". |
| `MoodStore.Store.ExportCsv` | backend/server.py:142-156 | The content, built line by line in the loop, equals the CSV rendering of the entries sorted by date. An empty store gives only the header. The file name is the one for the given day. |
| `MoodStore.ExportReadsBack` | backend/server.py:145-151 | When no stored entry has a quote in its date, emoji or timestamp (`Csv.Exportable`), the export reads back as the header row, then one row per stored entry (a permutation of the store), in non-decreasing date order. Each row has the entry's own notes. `Csv.UnescapedFieldsAmbiguous` shows why the condition is needed. |
| `MoodStore.CreateFindDelete` | delete_test.py:26-61 | Creating mood 4 / 😊 / "This entry will be deleted" for the given day, then fetching that day, returns it. Deleting it succeeds with the confirmation message. A second fetch of that day returns None. |
| `Table.FindFirst` | backend/server.py:102 | `find_one`: None exactly when nothing matches the filter. Otherwise the position of a match that has no match before it. |
| `Table.UpdateOne` | backend/server.py:116-121 | `update_one` with `$set`: the length is kept, the count is at most 1, and the count is 0 exactly when the collection is unchanged. A count of 1 implies a match. Only the first match can change, and that entry gets the new fields. |
| `Table.DeleteOne` | backend/server.py:135-136 | `delete_one`: the count is 1 exactly when something matches. Then the collection loses exactly the first match (multiset difference), and the other entries keep their relative order. A count of 0 leaves the collection unchanged. |
| `Table.UpdateThenFind` | backend/server.py:121-125 | After a successful update, `find_one` by the same id returns the updated entry. |
| `Table.DeleteRemovesId` | backend/server.py:135-138 | With distinct ids, after a delete no entry has that id, so a repeated delete fails. Ids stay distinct. |
| `Table.DeleteThenFindByDate` | backend/server.py:135-137 | Deleting the only entry of a date makes `find_one` by that date return None. |
| `Table.FindByDateAfterInsert` | backend/server.py:76 | After an insert, `find_one` by date returns the earlier match if there was one. Otherwise it returns the new entry, if its date matches, or else None. |
| `Table.Insert` | backend/server.py:90 | Inserting into a sorted sequence keeps it sorted and adds exactly that entry. |
| `Table.SortBy` | backend/server.py:145 | `sort(...)`: the result is sorted by the key and is a permutation of the input. |
| `Table.SortedPairwise` | backend/server.py:90 | In a sorted sequence every entry may come before every later one. |
| `LexOrder.LexLeTotal` | backend/server.py:90 | Any two strings are comparable. |
| `LexOrder.LexLeTransitive` | backend/server.py:145 | The string order is transitive. |
| `LexOrder.LexLeAntisymmetric` | backend/server.py:145 | Strings that sort both ways are equal. |
| `LexOrder.LexLeReflexive` | backend/server.py:145 | Every string sorts no later than itself. |
| `Csv.EscapePairsQuotes` | backend/server.py:150 | Escaped notes have no unpaired quote. |
| `Csv.UnescapeEscape` | backend/server.py:150 | Collapsing each `""` back to `"` recovers the original notes. |
| `Csv.EscapeUnescape` | backend/server.py:150 | Every string whose quotes are all paired is the escape of its collapse, so escaping is a bijection onto such strings. |
| `Csv.EscapeFixesQuoteFree` | backend/server.py:150 | Escaping leaves a string unchanged exactly when it has no quote. |
| `Csv.RenderCsvStep` | backend/server.py:148-151 | The header alone is the document of no entries. Appending the next line gives the document of one more entry. |
| `Csv.LineRoundTrip` | backend/server.py:151 | A rendered line reads back as the entry's date, mood (decimal), emoji, original notes and timestamp. This holds when the unescaped fields contain no quote. |
| `Csv.HeaderRoundTrip` | backend/server.py:148 | The header line reads back as the five column names Date, Mood, Emoji, Notes, Timestamp. |
| `Csv.CsvRoundTrip` | backend/server.py:148-151 | When no entry has a quote in its date, emoji or timestamp (`Csv.Exportable`), a rendered document reads back as the header row, then exactly one row per entry, in order. Without the condition two entries can render alike (`Csv.UnescapedFieldsAmbiguous`). |
| `Csv.UnescapedFieldsAmbiguous` | backend/server.py:151 | Two different entries whose date or emoji contains a quote render the same line. |
| `Csv.ExportFilenameReadsBack` | backend/server.py:155 | The file name is `mood_data_`, then eight digits that read back as year, month and day, then `.csv`. |
| `Decimal.NatToDigits` | backend/server.py:151 | The numeral is non-empty and all digits. It starts with 0 exactly for zero. |
| `Decimal.IntToDecimal` | backend/server.py:151 | There is a minus sign exactly for negative moods, followed by digits. |
| `Decimal.IntToDecimalRoundTrip` | backend/server.py:151 | The mood column reads back as the stored integer. |
| `Decimal.NatToDigitsRoundTrip` | backend/server.py:151 | The digits of n read back as n. |
| `Decimal.PadDigits` | backend/server.py:155 | The padded field has exactly the width and is all digits. |
| `Decimal.PadDigitsRoundTrip` | backend/server.py:155 | A padded field of a number below 10^w reads back as the number. |
| `Entries.NotFoundReachesClientAs500` | backend/server.py:127-130 | The not-found error raised inside the try reaches the client as status 500 with detail "404: Mood entry not found". |

## Left out

- MongoDB/Motor client, FastAPI routing and the `/api` prefix, CORS, logging, `.env` loading, the shutdown hook and the fixed-message root handler (`server.py:1-25`, `server.py:62-64`, `server.py:160-180`): framework and I/O plumbing.
- Exceptions from the database driver (the general case of the `except Exception` clauses): every collection call in the model succeeds, so only the 404 re-wrapping reaches the error path.
- `MoodStore.Store.Create`, `MoodStore.Store.Update`: the driver stores a mood as a 64-bit BSON integer, so a mood outside -2^63 .. 2^63-1 makes `insert_one` (`server.py:76`) or `update_one` (`server.py:116`) raise. The `except` clauses (`server.py:83-84`, `server.py:129-130`) turn that into a 500. The model's moods are unbounded, and both methods succeed for such a mood.
- The `inserted_id` check in create (`server.py:78-81`): the driver always reports the inserted document's `_id`, so the model has no such failure. If the branch were reached it would surface as a 500 with detail "500: Failed to create mood entry".
- `uuid.uuid4()` and `datetime.now` are parameters, and the clock's date for the file name is a parameter. The file name model requires years 1–9999, printed as four digits.
- `prepare_for_mongo` / `parse_from_mongo` and the response-model conversion: the timestamp is the stored ISO text throughout.
- Pydantic's structural validation and coercion (missing fields, strings coerced to ints). A payload with `notes` explicitly `null` is also left out: it would be stored as null, and the response validation would then fail with a 500.
- `MoodStore.Store.ListAll` and `MoodStore.Store.ExportCsv`: MongoDB leaves the order of entries with equal sort keys unspecified. The model's sort keeps ties in collection order. The contracts of `ListAll` say only permutation and order. `ExportCsv` fixes that one tie order.
- Concurrent requests and "last write wins" races: the model is sequential, so the re-read after a successful update always finds the entry.
- The HTTP test scripts (`backend_test.py`, `validation_test.py`, `delete_test.py`) are evidence only. The mood-range and calendar-date rejections that `validation_test.py` expects are not in the server and are not modelled.
