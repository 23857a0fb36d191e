/**
 * The DynamoDB-stream-to-CSV export: `handle_insert` and `lambda_handler`.
 *
 * A batch of change records is scanned in delivery order. Every record
 * sets the table name from its stream ARN; an INSERT record replaces the
 * accumulated one-row frame with its unwrapped NewImage. After the scan a
 * non-empty frame is coerced to text and put, once, under
 * "{prefix}/{table}_{stamp}.csv".
 */
module Stream2S3 {
  import opened Wrappers
  import opened PyText
  import opened Frames
  import opened ObjectKeys

  /** NewImage: attribute name -> type-tag map ({"S": "42"}), in order. */
  type Image = im: seq<(string, seq<(string, Value)>)> | UniqueNames(im)

  /** One entry of `event['Records']`. */
  datatype Record = Record(eventSourceArn: string, eventName: string, newImage: Option<Image>)

  /** The trigger payload. */
  datatype Event = Event(records: seq<Record>)

  /** The exceptions the handler lets escape, with the record's position:
      IndexError when the ARN has no second '/'-separated segment, KeyError
      when an INSERT record has no NewImage. */
  datatype Error = IndexError(position: nat) | KeyError(position: nat)

  /** One `put_object` call. */
  datatype PutRequest = PutRequest(bucket: string, key: string, body: Csv)

  // ------------------------------------------------------- handle_insert

  /** What `handle_insert` collects: each attribute contributes its name and
      the payload of the last entry of its tag map; an attribute whose tag
      map is empty contributes nothing. */
  function Unwrap(image: seq<(string, seq<(string, Value)>)>): Row
    decreases |image|
  {
    if image == [] then []
    else
      var front := Unwrap(image[..|image| - 1]);
      var tags := image[|image| - 1].1;
      if tags == [] then front else front + [(image[|image| - 1].0, tags[|tags| - 1].1)]
  }

  /** Every column of the unwrapped row is an attribute name, each attribute
      appears at most once, there are no more columns than attributes, and an
      attribute appears exactly when its tag map is non-empty, holding the
      payload of the tag map's last entry. */
  lemma {:induction false} UnwrapColumns(image: seq<(string, seq<(string, Value)>)>)
    requires UniqueNames(image)
    ensures var row := Unwrap(image);
      && |row| <= |image|
      && UniqueNames(row)
      && (forall c | c in Names(row) :: c in Names(image))
      && (forall i | 0 <= i < |image| && image[i].1 == [] :: image[i].0 !in Names(row))
      && (forall i | 0 <= i < |image| && image[i].1 != [] ::
            (image[i].0, image[i].1[|image[i].1| - 1].1) in row)
    decreases |image|
  {
    if image != [] {
      var n := |image| - 1;
      var front := image[..n];
      assert UniqueNames(front);
      UnwrapColumns(front);
      var last := image[n];
      forall c | c in Names(Unwrap(front)) ensures c != last.0 && c in Names(image) {
        var k :| 0 <= k < |front| && front[k].0 == c;
        assert image[k].0 == c;
      }
      var row := Unwrap(image);
      var frow := Unwrap(front);
      if last.1 != [] {
        assert row == frow + [(last.0, last.1[|last.1| - 1].1)];
        forall a, b | 0 <= a < b < |row| ensures row[a].0 != row[b].0 {
          assert row[a] == frow[a];
          if b < |frow| {
            assert row[b] == frow[b];
          } else {
            assert row[b].0 == last.0;
            assert frow[a].0 in Names(frow) by { assert Names(frow)[a] == frow[a].0; }
          }
        }
      }
      forall i | 0 <= i < |image| && image[i].1 == [] ensures image[i].0 !in Names(row) {
        if i < n {
          assert front[i] == image[i];
          assert image[i].0 != last.0;
        }
      }
      forall i | 0 <= i < |image| && image[i].1 != []
        ensures (image[i].0, image[i].1[|image[i].1| - 1].1) in row
      {
        if i < n {
          assert front[i] == image[i];
        }
      }
    }
  }

  /** The columns keep the order of their attributes in NewImage: a column
      further right comes from an attribute further on, whatever the tag
      maps hold. */
  lemma {:induction false} UnwrapOrder(image: seq<(string, seq<(string, Value)>)>)
    requires UniqueNames(image)
    ensures var row := Unwrap(image);
      forall a, b, i, j | 0 <= a < b < |row| && 0 <= i < |image| && 0 <= j < |image|
                          && row[a].0 == image[i].0 && row[b].0 == image[j].0 :: i < j
    decreases |image|
  {
    if image != [] {
      var n := |image| - 1;
      var front := image[..n];
      assert UniqueNames(front);
      UnwrapOrder(front);
      UnwrapColumns(front);
      var row, frow := Unwrap(image), Unwrap(front);
      forall a, b, i, j | 0 <= a < b < |row| && 0 <= i < |image| && 0 <= j < |image|
                          && row[a].0 == image[i].0 && row[b].0 == image[j].0
        ensures i < j
      {
        assert row[a] == frow[a];
        assert row[a].0 in Names(frow) by { assert Names(frow)[a] == row[a].0; }
        assert i != n;
        if b < |frow| {
          assert row[b] == frow[b];
          assert row[b].0 in Names(frow) by { assert Names(frow)[b] == row[b].0; }
          assert j != n;
          assert front[i] == image[i] && front[j] == image[j];
        } else {
          assert row[b].0 == image[n].0;
        }
      }
    }
  }

  /** For a well-formed NewImage, where every tag map holds exactly one entry,
      the row is the attributes in their order with the tags dropped. */
  lemma {:induction false} UnwrapDropsTags(image: seq<(string, seq<(string, Value)>)>)
    requires forall i | 0 <= i < |image| :: |image[i].1| == 1
    ensures Unwrap(image) == seq(|image|, i requires 0 <= i < |image| => (image[i].0, image[i].1[0].1))
    decreases |image|
  {
    if image != [] {
      UnwrapDropsTags(image[..|image| - 1]);
    }
  }

  /** Unwrapping one more attribute appends at most one column. */
  lemma UnwrapPrefixStep(image: seq<(string, seq<(string, Value)>)>, i: nat)
    requires i < |image|
    ensures Unwrap(image[..i + 1]) == Unwrap(image[..i]) +
      (if image[i].1 == [] then [] else [(image[i].0, image[i].1[|image[i].1| - 1].1)])
  {
    assert image[..i + 1][..i] == image[..i];
  }

  /** The next attribute's name is not yet a column. */
  lemma NextNameIsNew(image: Image, i: nat)
    requires i < |image|
    ensures image[i].0 !in Names(Unwrap(image[..i]))
  {
    var front := image[..i];
    assert UniqueNames(front);
    UnwrapColumns(front);
    forall k | 0 <= k < i ensures Names(front)[k] != image[i].0 {
      assert front[k] == image[k];
    }
  }

  /** The inner loop of `handle_insert` for one attribute: `d.update` with
      each entry of its tag map in turn, so the last entry's payload stays. */
  method AddAttribute(d: Dict, name: string, tags: seq<(string, Value)>)
    requires d.Valid() && name !in d.keys
    modifies d
    ensures d.Valid()
    ensures d.Entries() == old(d.Entries()) + (if tags == [] then [] else [(name, tags[|tags| - 1].1)])
  {
    ghost var before := d.Entries();
    var j := 0;
    while j < |tags|
      invariant 0 <= j <= |tags|
      invariant d.Valid()
      invariant d.Entries() == before + (if j == 0 then [] else [(name, tags[j - 1].1)])
    {
      ghost var keysWas := d.keys;
      assert keysWas == Names(before) + (if j == 0 then [] else [name]);
      assert forall k | 0 <= k < |before| :: keysWas[k] != name;
      d.Update(name, tags[j].1);
      if j > 0 {
        assert IndexOf(keysWas, name) == |before|;
      }
      j := j + 1;
    }
  }

  /** `handle_insert(record)`: fills a dict attribute by attribute, tag entry
      by tag entry, then builds the one-row DataFrame `pd.DataFrame([d])`. */
  method HandleInsert(image: Image) returns (df: Frame)
    ensures df == FromRecord(Unwrap(image))
    ensures |df.rows| == 1 && |df.columns| <= |image|
  {
    var d := new Dict();
    var i := 0;
    while i < |image|
      invariant 0 <= i <= |image|
      invariant fresh(d) && d.Valid()
      invariant d.Entries() == Unwrap(image[..i])
    {
      NextNameIsNew(image, i);
      AddAttribute(d, image[i].0, image[i].1);
      UnwrapPrefixStep(image, i);
      i := i + 1;
    }
    assert image[..i] == image;
    df := FromRecord(d.Entries());
    UnwrapColumns(image);
  }

  // ------------------------------------------------------- lambda_handler

  /** `arn.split("/")[1]`, or None where that index does not exist. */
  function TableName(arn: string): (t: Option<string>)
    ensures t.Some? <==> '/' in arn
  {
    SplitHasSecondPart(arn, '/');
    var parts := Split(arn, '/');
    if |parts| >= 2 then Some(parts[1]) else None
  }

  /** The table name is the second segment of the ARN: the text between its
      first and second '/'. */
  lemma TableNameOfSegments(segments: seq<string>)
    requires |segments| >= 2
    requires forall i | 0 <= i < |segments| :: '/' !in segments[i]
    ensures TableName(Join(segments, "/")) == Some(segments[1])
  {
    SplitJoin(segments, '/');
  }

  /** The loop's variables: `table` (unbound until the first record) and
      `df`. */
  datatype State = State(table: Option<string>, frame: Frame)

  /** The row an INSERT record stores. */
  function InsertedRow(r: Record): Row
  {
    match r.newImage
    case None => []
    case Some(image) => Unwrap(image)
  }

  /** One pass of the loop body for the record at `position`. */
  function Step(st: State, r: Record, position: nat): Result<State, Error>
  {
    match TableName(r.eventSourceArn)
    case None => Err(IndexError(position))
    case Some(table) =>
      if r.eventName != "INSERT" then Ok(State(Some(table), st.frame))
      else if r.newImage.None? then Err(KeyError(position))
      else Ok(State(Some(table), FromRecord(InsertedRow(r))))
  }

  /** The loop over a prefix of the records, stopping at the first error. */
  function Run(records: seq<Record>): (res: Result<State, Error>)
    ensures res.Ok? ==> (res.value.table.Some? <==> records != [])
    ensures res.Ok? && records == [] ==> res.value.frame == EmptyFrame
    decreases |records|
  {
    if records == [] then Ok(State(None, EmptyFrame))
    else
      match Run(records[..|records| - 1])
      case Err(e) => Err(e)
      case Ok(st) => Step(st, records[|records| - 1], |records| - 1)
  }

  /** What one invocation does: raise, do nothing, or put one object. */
  function Plan(records: seq<Record>, now: DateTime, bucket: string, prefix: string)
    : Result<Option<PutRequest>, Error>
  {
    match Run(records)
    case Err(e) => Err(e)
    case Ok(st) =>
      if st.frame.IsEmpty() then Ok(None)
      else Ok(Some(PutRequest(bucket, Key(prefix, FileName(st.table.value, now)),
                              ToCsv(AsStr(st.frame)))))
  }

  /** A record the loop body gets through without raising. */
  predicate Processable(r: Record)
  {
    '/' in r.eventSourceArn && (r.eventName == "INSERT" ==> r.newImage.Some?)
  }

  /** The exception a record that is not processable raises: the ARN is
      split before the event name is looked at. */
  function Failure(r: Record, position: nat): Error
  {
    if '/' !in r.eventSourceArn then IndexError(position) else KeyError(position)
  }

  /** The position of the last INSERT record, if there is one. */
  function LastInsert(records: seq<Record>): (r: Option<nat>)
    ensures r.Some? ==> r.value < |records| && records[r.value].eventName == "INSERT"
    ensures r.Some? ==> forall j | r.value < j < |records| :: records[j].eventName != "INSERT"
    ensures r.None? <==> forall j | 0 <= j < |records| :: records[j].eventName != "INSERT"
    decreases |records|
  {
    if records == [] then None
    else if records[|records| - 1].eventName == "INSERT" then Some(|records| - 1)
    else LastInsert(records[..|records| - 1])
  }

  /** An error in a prefix is the error of the whole batch. */
  lemma {:induction false} RunErrorPersists(records: seq<Record>, n: nat)
    requires n <= |records|
    requires Run(records[..n]).Err?
    ensures Run(records) == Run(records[..n])
    decreases |records| - n
  {
    if n < |records| {
      var m := |records| - 1;
      assert records[..m][..n] == records[..n];
      RunErrorPersists(records[..m], n);
      assert Run(records[..m]) == Run(records[..n]);
    } else {
      assert records[..n] == records;
    }
  }

  /** The batch raises exactly when some record is not processable, and it
      raises the exception of the first such record. */
  lemma {:induction false} RunErrors(records: seq<Record>)
    ensures Run(records).Ok? <==> forall i | 0 <= i < |records| :: Processable(records[i])
    ensures Run(records).Err? ==>
      exists i | 0 <= i < |records| ::
        && !Processable(records[i])
        && (forall j | 0 <= j < i :: Processable(records[j]))
        && Run(records).error == Failure(records[i], i)
    decreases |records|
  {
    if records != [] {
      var m := |records| - 1;
      var front := records[..m];
      RunErrors(front);
      forall j | 0 <= j < m ensures front[j] == records[j] { }
      if Run(front).Err? {
        var i :| 0 <= i < |front| && !Processable(front[i])
                 && (forall j | 0 <= j < i :: Processable(front[j]))
                 && Run(front).error == Failure(front[i], i);
        assert !Processable(records[i]);
      }
    }
  }

  /** When the batch goes through: the table is that of the last record of
      any kind, and the frame is the row of the last INSERT record (empty if
      there is none) — records that are not INSERTs never touch it. */
  lemma {:induction false} RunState(records: seq<Record>)
    requires Run(records).Ok?
    ensures Run(records).value.table ==
      (if records == [] then None else TableName(records[|records| - 1].eventSourceArn))
    ensures Run(records).value.frame ==
      match LastInsert(records)
      case None => EmptyFrame
      case Some(i) => FromRecord(InsertedRow(records[i]))
    decreases |records|
  {
    if records != [] {
      var m := |records| - 1;
      var front := records[..m];
      var r := records[m];
      assert Run(front).Ok?;
      RunState(front);
      var st := Run(front).value;
      assert Run(records) == Step(st, r, m);
      var table := TableName(r.eventSourceArn);
      if r.eventName != "INSERT" {
        assert Run(records).value == State(table, st.frame);
        assert LastInsert(records) == LastInsert(front);
        match LastInsert(front)
        case None =>
        case Some(i) => assert front[i] == records[i];
      } else {
        assert Run(records).value == State(table, FromRecord(InsertedRow(r)));
        assert LastInsert(records) == Some(m);
      }
    }
  }

  /** A batch without a processable INSERT never uploads. */
  lemma PlanWithoutInsert(records: seq<Record>, now: DateTime, bucket: string, prefix: string)
    requires forall i | 0 <= i < |records| :: records[i].eventName != "INSERT"
    ensures Plan(records, now, bucket, prefix).Ok? ==> Plan(records, now, bucket, prefix) == Ok(None)
  {
    if Run(records).Ok? {
      RunState(records);
    }
  }

  /** The invocation raises exactly when some record is not processable,
      and it raises the exception of the first such record. */
  lemma PlanErrors(records: seq<Record>, now: DateTime, bucket: string, prefix: string)
    ensures Plan(records, now, bucket, prefix).Err? <==>
      exists i | 0 <= i < |records| :: !Processable(records[i])
    ensures Plan(records, now, bucket, prefix).Err? ==>
      exists i | 0 <= i < |records| ::
        && !Processable(records[i])
        && (forall j | 0 <= j < i :: Processable(records[j]))
        && Plan(records, now, bucket, prefix).error == Failure(records[i], i)
  {
    RunErrors(records);
  }

  /** When every record is processable, the invocation uploads exactly when
      the last INSERT record's row has a column: to the given bucket, under
      the key built from the last record's table name, with that row's names
      as header and the text of its values as the single line. */
  lemma PlanUploads(records: seq<Record>, now: DateTime, bucket: string, prefix: string)
    requires forall i | 0 <= i < |records| :: Processable(records[i])
    ensures Plan(records, now, bucket, prefix) ==
      match LastInsert(records)
      case None => Ok(None)
      case Some(i) =>
        var row := InsertedRow(records[i]);
        var arn := records[|records| - 1].eventSourceArn;
        if row == [] then Ok(None)
        else
          assert '/' in arn by { assert Processable(records[|records| - 1]); }
          Ok(Some(PutRequest(
          bucket,
          Key(prefix, FileName(TableName(arn).value, now)),
          Csv(Names(row), [seq(|row|, k requires 0 <= k < |row| => PyStr(row[k].1))]))))
  {
    RunErrors(records);
    RunState(records);
    match LastInsert(records)
    case None =>
    case Some(i) => RecordCsv(InsertedRow(records[i]));
  }

  /** INSERT, REMOVE, INSERT from one table: one upload, holding only the
      second INSERT's row whatever the first held, named after the table. */
  lemma ScenarioLastInsertWins(arn: string, first: Image, second: Image,
                               now: DateTime, bucket: string, prefix: string)
    requires '/' in arn
    requires Unwrap(second) != []
    ensures
      var records := [Record(arn, "INSERT", Some(first)),
                      Record(arn, "REMOVE", None),
                      Record(arn, "INSERT", Some(second))];
      var row := Unwrap(second);
      Plan(records, now, bucket, prefix) ==
        Ok(Some(PutRequest(bucket, Key(prefix, FileName(TableName(arn).value, now)),
                           Csv(Names(row), [seq(|row|, k requires 0 <= k < |row| => PyStr(row[k].1))]))))
  {
    var records := [Record(arn, "INSERT", Some(first)),
                    Record(arn, "REMOVE", None),
                    Record(arn, "INSERT", Some(second))];
    assert forall i | 0 <= i < 3 :: Processable(records[i]);
    assert LastInsert(records) == Some(2);
    PlanUploads(records, now, bucket, prefix);
  }

  /** A single INSERT of {"id": {"S": "42"}, "qty": {"N": "3"}} writes the
      header id,qty and the line 42,3. */
  lemma ScenarioTwoColumns(arn: string, now: DateTime, bucket: string, prefix: string)
    requires '/' in arn
    ensures
      var image: Image := [("id", [("S", Text("42"))]), ("qty", [("N", Text("3"))])];
      var records := [Record(arn, "INSERT", Some(image))];
      Plan(records, now, bucket, prefix) ==
        Ok(Some(PutRequest(bucket, Key(prefix, FileName(TableName(arn).value, now)),
                           Csv(["id", "qty"], [["42", "3"]]))))
  {
    var image: Image := [("id", [("S", Text("42"))]), ("qty", [("N", Text("3"))])];
    var records := [Record(arn, "INSERT", Some(image))];
    assert Processable(records[0]);
    assert LastInsert(records) == Some(0);
    UnwrapDropsTags(image);
    var row := InsertedRow(records[0]);
    assert row == [("id", Text("42")), ("qty", Text("3"))];
    assert Names(row) == ["id", "qty"];
    assert seq(|row|, k requires 0 <= k < |row| => PyStr(row[k].1)) == ["42", "3"];
    PlanUploads(records, now, bucket, prefix);
  }

  // ------------------------------------------------------------ the sink

  /** The object store: the puts made so far, in order. */
  class Sink {
    var puts: seq<PutRequest>

    constructor ()
      ensures puts == []
    {
      puts := [];
    }

    /** `s3.put_object(Bucket=bucket, Key=key, Body=body)` */
    method PutObject(bucket: string, key: string, body: Csv)
      modifies this
      ensures puts == old(puts) + [PutRequest(bucket, key, body)]
    {
      puts := puts + [PutRequest(bucket, key, body)];
    }
  }

  /** `lambda_handler(event, context)` with the clock reading, the bucket
      and the folder prefix passed in. On success it returns the number of
      records, which `lambda_handler` prints as "Successfully processed N
      records."; an escaping exception leaves the sink untouched. */
  method LambdaHandler(event: Event, now: DateTime, bucket: string, prefix: string, s3: Sink)
    returns (res: Result<nat, Error>)
    modifies s3
    ensures |s3.puts| <= |old(s3.puts)| + 1
    ensures match Plan(event.records, now, bucket, prefix)
      case Err(e) => res == Err(e) && s3.puts == old(s3.puts)
      case Ok(None) => res == Ok(|event.records|) && s3.puts == old(s3.puts)
      case Ok(Some(put)) => res == Ok(|event.records|) && s3.puts == old(s3.puts) + [put]
  {
    var records := event.records;
    var df := EmptyFrame;
    var table: Option<string> := None;
    for i := 0 to |records|
      invariant Run(records[..i]) == Ok(State(table, df))
      invariant s3.puts == old(s3.puts)
    {
      var record := records[i];
      assert records[..i + 1][..i] == records[..i];
      var parts := Split(record.eventSourceArn, '/');
      if |parts| < 2 {
        RunErrorPersists(records, i + 1);
        return Err(IndexError(i));
      }
      table := Some(parts[1]);
      if record.eventName == "INSERT" {
        if record.newImage.None? {
          RunErrorPersists(records, i + 1);
          return Err(KeyError(i));
        }
        var dff := HandleInsert(record.newImage.value);
        df := dff;
      }
    }
    assert records[..|records|] == records;
    if !df.IsEmpty() {
      df := AsStr(df);
      var fileName := FileName(table.value, now);
      var body := ToCsv(df);
      var key := Key(prefix, fileName);
      s3.PutObject(bucket, key, body);
    }
    res := Ok(|records|);
  }
}
