/**
 * The name under which the CSV is stored:
 *   key = "{prefix}/{table}_{YYYY-MM-DD_HH-MM-SS}.csv"
 * with the clock reading passed in rather than read from the process.
 */
module ObjectKeys {
  import opened Wrappers
  import opened PyText

  // The ranges of Python's datetime fields.
  type Year = y: int | 1 <= y <= 9999 witness 1
  type Month = m: int | 1 <= m <= 12 witness 1
  type Day = d: int | 1 <= d <= 31 witness 1
  type Hour = h: int | 0 <= h <= 23
  type Minute = m: int | 0 <= m <= 59
  type Second = s: int | 0 <= s <= 59

  /** A reading of the local clock, to the second. */
  datatype DateTime = DateTime(year: Year, month: Month, day: Day,
                               hour: Hour, minute: Minute, second: Second)

  /** `t.strftime('%Y-%m-%d_%H-%M-%S')`: the date fields joined by '-',
      the time fields joined by '-', the two halves joined by '_'. */
  function Stamp(t: DateTime): string
  {
    Join([Join(DateFields(t), "-"), Join(TimeFields(t), "-")], "_")
  }

  function DateFields(t: DateTime): seq<string>
  {
    [ZeroPad(t.year, 4), ZeroPad(t.month, 2), ZeroPad(t.day, 2)]
  }

  function TimeFields(t: DateTime): seq<string>
  {
    [ZeroPad(t.hour, 2), ZeroPad(t.minute, 2), ZeroPad(t.second, 2)]
  }

  /** `f"{table}_{stamp}.csv"` */
  function FileName(table: string, t: DateTime): string
  {
    table + "_" + Stamp(t) + ".csv"
  }

  /** `f"{prefix}/{file_name}"` */
  function Key(prefix: string, fileName: string): string
  {
    prefix + "/" + fileName
  }

  /** A field of the given width made of digits. */
  predicate DigitField(f: string, width: nat)
  {
    |f| == width && AllDigits(f)
  }

  /** Reads a stamp back: the inverse of Stamp. */
  function ParseStamp(s: string): Option<DateTime>
  {
    var halves := Split(s, '_');
    if |halves| != 2 then None
    else
      var date, time := Split(halves[0], '-'), Split(halves[1], '-');
      if |date| == 3 && |time| == 3
         && DigitField(date[0], 4) && DigitField(date[1], 2) && DigitField(date[2], 2)
         && DigitField(time[0], 2) && DigitField(time[1], 2) && DigitField(time[2], 2)
      then
        var y, mo, d := ParseDecimal(date[0]), ParseDecimal(date[1]), ParseDecimal(date[2]);
        var h, mi, se := ParseDecimal(time[0]), ParseDecimal(time[1]), ParseDecimal(time[2]);
        if 1 <= y <= 9999 && 1 <= mo <= 12 && 1 <= d <= 31 && h <= 23 && mi <= 59 && se <= 59
        then Some(DateTime(y, mo, d, h, mi, se))
        else None
      else None
  }

  /** Reads a key back into its table name and clock reading, given the
      folder prefix: the inverse of Key and FileName. */
  function ParseKey(prefix: string, key: string): Option<(string, DateTime)>
  {
    var n := |key|;
    if n >= |prefix| + 25 && key[..|prefix|] == prefix && key[|prefix|] == '/'
       && key[n - 24] == '_' && key[n - 4..] == ".csv"
    then
      match ParseStamp(key[n - 23..n - 4])
      case None => None
      case Some(t) => Some((key[|prefix| + 1..n - 24], t))
    else None
  }

  /** Every field fills its fixed width and reads back as its value. */
  lemma FieldWidth(n: nat, width: nat)
    requires width == 2 || width == 4
    requires width == 2 ==> n < 100
    requires width == 4 ==> n < 10000
    ensures |ZeroPad(n, width)| == width && AllDigits(ZeroPad(n, width))
    ensures ParseDecimal(ZeroPad(n, width)) == n
  {
    assert Pow10(2) == 100 && Pow10(4) == 10000 by {
      assert Pow10(1) == 10;
      assert Pow10(3) == 1000;
    }
    ZeroPadRoundTrip(n, width);
  }

  /** Three digit fields joined by '-' split back into the fields, and the
      join holds neither separator of the other level. */
  lemma JoinedDigitFields(fields: seq<string>, sep: char, other: char)
    requires |fields| == 3
    requires forall i | 0 <= i < 3 :: AllDigits(fields[i])
    requires !IsDigit(sep) && !IsDigit(other) && sep != other
    ensures Split(Join(fields, [sep]), sep) == fields
    ensures other !in Join(fields, [sep])
    ensures |Join(fields, [sep])| == |fields[0]| + |fields[1]| + |fields[2]| + 2
  {
    forall i | 0 <= i < 3 ensures sep !in fields[i] && other !in fields[i] {
    }
    SplitJoin(fields, sep);
    if other in Join(fields, [sep]) {
      JoinChars(fields, sep, other);
    }
    assert fields[1..][0] == fields[1] && fields[1..][1..] == [fields[2]];
    assert Join(fields[1..], [sep]) == fields[1] + [sep] + fields[2];
  }

  /** A stamp is 19 characters and parses back to the clock reading. */
  lemma StampRoundTrip(t: DateTime)
    ensures |Stamp(t)| == 19
    ensures ParseStamp(Stamp(t)) == Some(t)
  {
    FieldWidth(t.year, 4);
    FieldWidth(t.month, 2);
    FieldWidth(t.day, 2);
    FieldWidth(t.hour, 2);
    FieldWidth(t.minute, 2);
    FieldWidth(t.second, 2);
    var date, time := DateFields(t), TimeFields(t);
    JoinedDigitFields(date, '-', '_');
    JoinedDigitFields(time, '-', '_');
    var halves := [Join(date, "-"), Join(time, "-")];
    SplitJoin(halves, '_');
    assert Stamp(t) == Join(date, "-") + "_" + Join(time, "-");
  }

  /** Where the parts of a key sit, for any 19-character stamp. */
  lemma KeySlices(prefix: string, table: string, st: string)
    requires |st| == 19
    ensures var key := prefix + "/" + table + "_" + st + ".csv";
      var n := |key|;
      && n == |prefix| + |table| + 25
      && key[..|prefix|] == prefix && key[|prefix|] == '/'
      && key[n - 24] == '_' && key[n - 4..] == ".csv"
      && key[n - 23..n - 4] == st
      && key[|prefix| + 1..n - 24] == table
  {
    var head := prefix + "/" + table + "_";
    var key := head + (st + ".csv");
    assert prefix + "/" + table + "_" + st + ".csv" == key;
    assert key[..|head|] == head;
    assert key[|head|..] == st + ".csv";
    assert head[..|prefix|] == prefix;
    assert head[|prefix| + 1..|head| - 1] == table;
  }

  /** Parsing a key built around any 19-character stamp comes down to
      parsing the stamp. */
  lemma ParseKeyOf(prefix: string, table: string, st: string)
    requires |st| == 19
    ensures ParseKey(prefix, prefix + "/" + table + "_" + st + ".csv") ==
      match ParseStamp(st)
      case None => None
      case Some(t) => Some((table, t))
  {
    KeySlices(prefix, table, st);
  }

  /** The key is the prefix, a slash, the table, an underscore, the stamp
      and ".csv"; from it the table and the clock reading are recovered. */
  lemma KeyRoundTrip(prefix: string, table: string, t: DateTime)
    ensures ParseKey(prefix, Key(prefix, FileName(table, t))) == Some((table, t))
  {
    var st := Stamp(t);
    StampRoundTrip(t);
    ParseKeyOf(prefix, table, st);
    assert Key(prefix, FileName(table, t)) == prefix + "/" + table + "_" + st + ".csv";
  }

  /** The zero-padded fields of 2024-03-01 10:15:30. */
  lemma PaddedFieldsExample()
    ensures ZeroPad(2024, 4) == "2024" && ZeroPad(3, 2) == "03" && ZeroPad(1, 2) == "01"
    ensures ZeroPad(10, 2) == "10" && ZeroPad(15, 2) == "15" && ZeroPad(30, 2) == "30"
  {
    assert Decimal(1) == "1" && Decimal(3) == "3";
    assert Decimal(2) == "2";
    assert Decimal(20) == "20";
    assert Decimal(202) == "202";
  }

  /** The layout of a stamp: six padded fields, '-' inside each half and
      '_' between the halves. */
  lemma StampLayout(t: DateTime)
    ensures Stamp(t) ==
      (ZeroPad(t.year, 4) + "-" + (ZeroPad(t.month, 2) + "-" + ZeroPad(t.day, 2))) + "_" +
      (ZeroPad(t.hour, 2) + "-" + (ZeroPad(t.minute, 2) + "-" + ZeroPad(t.second, 2)))
  {
    var date, time := DateFields(t), TimeFields(t);
    JoinSmall(date[0], date[1], date[2], '-');
    JoinSmall(time[0], time[1], time[2], '-');
    JoinSmall(Join(date, "-"), Join(time, "-"), "", '_');
  }

  /** The stamp of 2024-03-01 10:15:30. */
  lemma StampExample(t: DateTime)
    requires t == DateTime(2024, 3, 1, 10, 15, 30)
    ensures Stamp(t) == "2024-03-01_10-15-30"
  {
    StampLayout(t);
    PaddedFieldsExample();
  }

  /** Any table at 2024-03-01 10:15:30 under any folder. */
  lemma KeyExample(prefix: string, table: string, t: DateTime)
    requires t == DateTime(2024, 3, 1, 10, 15, 30)
    ensures Key(prefix, FileName(table, t)) == prefix + "/" + table + "_2024-03-01_10-15-30.csv"
  {
    StampExample(t);
  }
}
