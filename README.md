# DynamoDB stream to CSV export, modelled in Dafny

This project models the stream consumer in `DDBStream2S3.py`. The platform
hands it a batch of DynamoDB change records (`event['Records']`). It scans
the batch in delivery order:

- every record sets the table name to segment 1 of its `eventSourceARN`
  split on `/`;
- every `INSERT` record has its `NewImage` unwrapped (each attribute's
  one-entry type-tag map `{"S": "42"}` is replaced by its payload) into a
  one-row DataFrame, which *replaces* the accumulated frame.

After the scan, a non-empty frame has every cell coerced to text. It is then
written as CSV (header, no index column) with one `put_object` call under
`{folder}/{table}_{YYYY-MM-DD_HH-MM-SS}.csv`.

Files and modules:

- `wrappers.dfy` (`Wrappers`): `Option` and `Result`.
- `pytext.dfy` (`PyText`): `str.split` with a one-character separator,
  `str.join` (its inverse for such a separator), and decimal zero-padding as `strftime` uses it, with
  `ParseDecimal` as its inverse.
- `frames.dfy` (`Frames`):
  - payload values and Python's `str()`/`repr()` of them;
  - the insertion-ordered dict that `handle_insert` fills (class `Dict`,
    updated in place);
  - the DataFrame as a value, with `.empty`, `astype(str)` and the
    CSV header/lines.
- `objectkeys.dfy` (`ObjectKeys`): the timestamp, the file name and the
  object key, and the parsers that invert them.
- `stream2s3.dfy` (`Stream2S3`):
  - records and the exceptions that can escape;
  - `Run`/`Plan`, the specification of the record loop and of the whole
    invocation;
  - `HandleInsert` and `LambdaHandler`, the imperative loops, proved
    against that specification;
  - the object store as class `Sink`, which records the puts it receives.

The handler's inputs that come from the environment are parameters: the clock
reading (`now`), the bucket name and the folder prefix. Exceptions are
results. `IndexError(i)` is raised when record `i`'s ARN has no `/`.
`KeyError(i)` is raised when record `i` is an INSERT without `NewImage`. An
exception leaves the sink unchanged.

Two behaviours of the code are modelled as written:

- Only the last INSERT of a batch is uploaded; earlier INSERTs are dropped.
- The table name comes from the last record of any event type.

A `NewImage` attribute whose tag map is empty yields no column, because the
inner loop never runs for it. A tag map with several entries keeps the
payload of its last entry. A final INSERT whose row has no column makes the
frame empty under pandas' rule (either axis of length zero), so nothing is
uploaded.

## Model

| member | source | states |
|---|---|---|
| `PyText.JoinSplit` | DDBStream2S3.py:45 | Joining the parts of `arn.split("/")` with `/` gives back the ARN: splitting loses nothing. |
| `PyText.SplitJoin` | DDBStream2S3.py:45 | Splitting a `/`-join of `/`-free segments returns exactly those segments. |
| `PyText.SplitPartsFree` | DDBStream2S3.py:45 | No part produced by the split contains the separator. |
| `PyText.SplitHasSecondPart` | DDBStream2S3.py:45 | The split has a part at index 1 exactly when the ARN contains `/`; otherwise the indexing raises. |
| `PyText.ZeroPadRoundTrip` | DDBStream2S3.py:57 | A zero-padded field is all digits, at least `width` long, exactly `width` long when the value is below 10^width, and parses back to the value. |
| `ObjectKeys.StampRoundTrip` | DDBStream2S3.py:57 | The `%Y-%m-%d_%H-%M-%S` stamp of any clock reading is 19 characters and parses back to that reading. |
| `ObjectKeys.KeyRoundTrip` | DDBStream2S3.py:57-68 | From the key `prefix/table_stamp.csv` and the prefix, the table name and the clock reading are recovered exactly. |
| `ObjectKeys.StampLayout` | DDBStream2S3.py:57 | The stamp is the zero-padded year (4 digits), month, day, hour, minute and second (2 digits each), with `-` inside the date and the time and `_` between them. |
| `ObjectKeys.StampExample` | DDBStream2S3.py:57 | 2024-03-01 10:15:30 is stamped `2024-03-01_10-15-30`. |
| `ObjectKeys.KeyExample` | DDBStream2S3.py:57-68 | Any table at 2024-03-01 10:15:30 under any folder gets the key `{folder}/{table}_2024-03-01_10-15-30.csv`. |
| `Frames.PyStr` | DDBStream2S3.py:53-54 | `str()` of a payload: text payloads (S, N, B) are kept as they are; booleans become `True`/`False`; lists and maps are written in brackets and braces. |
| `Frames.Dict.constructor` | DDBStream2S3.py:17 | `record_dict = {}` starts with no keys. |
| `Frames.Dict.Entries` | DDBStream2S3.py:17-22 | The dict's entries are its keys in insertion order, each key once, each with its current value. |
| `Frames.Dict.Update` | DDBStream2S3.py:22 | `update({k: v})` appends a new key at the end, or overwrites an existing key's value in place. No other key changes. |
| `Frames.FromRecord` | DDBStream2S3.py:25 | `pd.DataFrame([d])` has the dict's keys as columns in order and a single row of its values. It is `.empty` exactly when the dict has no keys. |
| `Frames.AsStr` | DDBStream2S3.py:53-54 | `astype(str)` keeps the columns and the shape and replaces each cell by the text of its value. It keeps emptiness. |
| `Frames.ToCsv` | DDBStream2S3.py:62-63 | `to_csv(index=False)` writes a header of the column names and, per row, the text of each cell in column order, with no index column. |
| `Frames.CsvAfterAsStr` | DDBStream2S3.py:53-63 | Writing the frame after `astype(str)` gives the same text as writing the frame before it. |
| `Frames.RecordCsv` | DDBStream2S3.py:25-63 | The body for one record has the record's keys as header and one line of `str()` of its values, in the same order. |
| `Stream2S3.UnwrapColumns` | DDBStream2S3.py:17-22 | The row holds no more entries than the `NewImage` has attributes. Every column name is an attribute name and appears once. An attribute is a column exactly when its tag map is non-empty, and then its value is the payload of the tag map's last entry, whatever the tag. |
| `Stream2S3.UnwrapOrder` | DDBStream2S3.py:17-22 | The columns keep the order of their attributes in `NewImage`, whatever the tag maps hold: when column `a` is left of column `b`, the attribute named by `a` comes before the one named by `b`. |
| `Stream2S3.UnwrapDropsTags` | DDBStream2S3.py:17-22 | When every tag map has one entry, the row is the attributes in their order, each with the tag dropped and the payload kept. |
| `Stream2S3.AddAttribute` | DDBStream2S3.py:21-22 | The inner loop adds the attribute once, at the end, with the payload of its tag map's last entry. An empty tag map adds nothing. |
| `Stream2S3.HandleInsert` | DDBStream2S3.py:6-26 | `handle_insert` returns the one-row frame of the unwrapped `NewImage`, with no more columns than attributes. |
| `Stream2S3.TableName` | DDBStream2S3.py:45 | `arn.split("/")[1]` exists exactly when the ARN contains `/`. |
| `Stream2S3.TableNameOfSegments` | DDBStream2S3.py:45 | For an ARN made of `/`-free segments, the table name is the second segment. |
| `Stream2S3.Run` | DDBStream2S3.py:41-49 | After the loop, `table` is bound exactly when there was at least one record. With no records, the frame is the initial empty `pd.DataFrame()`. |
| `Stream2S3.LastInsert` | DDBStream2S3.py:44-49 | Finds the INSERT after which no record is an INSERT, or reports that the batch has no INSERT at all. |
| `Stream2S3.RunErrorPersists` | DDBStream2S3.py:44-49 | An exception raised at some record aborts the whole batch with that exception. |
| `Stream2S3.RunErrors` | DDBStream2S3.py:44-48 | The loop raises exactly when some record has no `/` in its ARN, or is an INSERT without `NewImage`. It raises the exception of the first such record. |
| `Stream2S3.RunState` | DDBStream2S3.py:44-49 | After a successful loop, the table is that of the last record of any type. The frame is the row of the last INSERT, or the initial empty frame if there is none. Other records never change the frame. |
| `Stream2S3.PlanWithoutInsert` | DDBStream2S3.py:47-52 | A batch with no INSERT, including an empty batch, uploads nothing. |
| `Stream2S3.PlanErrors` | DDBStream2S3.py:44-48 | The invocation fails exactly when some record has no `/` in its ARN or is an INSERT without `NewImage`. It fails with the exception of the first such record, all earlier records being processable. |
| `Stream2S3.PlanUploads` | DDBStream2S3.py:41-73 | When every record is processable, the invocation uploads exactly when there is an INSERT and the last INSERT's row has a column. The upload goes to the given bucket, under `prefix/table_stamp.csv` with the last record's table. Its body is the row's names as header and `str()` of its values as the only line. |
| `Stream2S3.ScenarioLastInsertWins` | DDBStream2S3.py:44-73 | INSERT, REMOVE, INSERT from one table give one upload, under that table's name, whose body holds only the second INSERT's row, whatever the first INSERT held. |
| `Stream2S3.ScenarioTwoColumns` | DDBStream2S3.py:6-63 | A single INSERT of `{"id": {"S": "42"}, "qty": {"N": "3"}}` uploads header `id,qty` and line `42,3`. |
| `Stream2S3.Sink.constructor` | DDBStream2S3.py:66 | A fresh client has received no puts. |
| `Stream2S3.Sink.PutObject` | DDBStream2S3.py:73 | `put_object` appends exactly one request (bucket, key, body) to the puts received. |
| `Stream2S3.LambdaHandler` | DDBStream2S3.py:29-75 | The handler does what `Plan` prescribes. When `Plan` raises, it returns that error and makes no put. When `Plan` uploads nothing, it makes no put. Otherwise it makes exactly the one prescribed put. On success it returns the record count. It never makes more than one put. |

## Left out

- `fetch_weather_data.py` is not part of this model. It is an HTTP call to a weather service, float-to-`Decimal` conversion and a DynamoDB `put_item`, with no logic beyond fixed lookups.
- The boto3 client: `Sink.PutObject` always succeeds. Authorisation and network failures of the real store are not modelled.
- CSV byte layout: `ToCsv` gives the header and the cell texts per line. pandas' quoting, escaping and line terminator are not modelled.
- `datetime.now()` is the parameter `now`. `Stamp` always pads the year to four digits; how a platform's `strftime` writes years before 1000 is not modelled.
- The `print` calls are left out. The final "Successfully processed N records." is modelled only as the count `LambdaHandler` returns; the Python function returns `None`.
- The placeholder bucket and folder names are the parameters `bucket` and `prefix`.
- `Frames.PyStr`: inside lists and maps, `repr` of a string escapes backslash, the quote, tab, newline and carriage return. Python's `\x..`/`\u....` escapes of other non-printable characters are not modelled.
- An event without `Records`, and a record without `eventSourceARN` or `eventName`, cannot be expressed: the record type always has these fields. A record without `dynamodb` or without `NewImage` is `newImage: None`, which raises `KeyError` for an INSERT.
- Payloads are text, booleans, lists and maps, which is what the stream's JSON carries under DynamoDB type tags (numbers arrive as text). pandas' dtype inference is not modelled, since `astype(str)` gives the same text either way.
