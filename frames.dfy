/**
 * The data the handler moves around: attribute payloads, Python's `str()`
 * of them, the insertion-ordered dict that `handle_insert` fills, the
 * pandas DataFrame it builds, and the CSV body written to storage.
 */
module Frames {
  import opened PyText

  /** A payload as it stands under a DynamoDB type tag once the stream
      event has been decoded from JSON: strings (the S, N and B tags carry
      text), booleans (BOOL, and NULL whose payload is `true`), lists (SS,
      NS, BS, and L whose items are still tagged maps) and maps (M). */
  datatype Value =
    | Text(s: string)
    | Flag(b: bool)
    | Items(elems: seq<Value>)
    | Fields(entries: seq<(string, Value)>)

  /** An ordered column-name/value list: a Python dict in insertion order. */
  type Row = seq<(string, Value)>

  predicate UniqueNames<V>(s: seq<(string, V)>)
  {
    forall i, j | 0 <= i < j < |s| :: s[i].0 != s[j].0
  }

  function Names<V>(s: seq<(string, V)>): (ns: seq<string>)
    ensures |ns| == |s|
    ensures forall i | 0 <= i < |s| :: ns[i] == s[i].0
  {
    seq(|s|, i requires 0 <= i < |s| => s[i].0)
  }

  // ------------------------------------------------------ str() and repr()

  /** Python's `repr` of a string: single quotes unless the text holds a
      single quote and no double quote; backslash, the chosen quote, tab,
      newline and carriage return are escaped. */
  function QuoteRepr(s: string): (r: string)
    ensures |r| >= 2 && r[0] == r[|r| - 1] && (r[0] == '\'' || r[0] == '"')
  {
    var q := if '\'' in s && '"' !in s then '"' else '\'';
    [q] + EscapeWith(s, q) + [q]
  }

  function EscapeWith(s: string, q: char): string
  {
    if s == [] then []
    else
      var c := s[0];
      var e :=
        if c == '\\' || c == q then ['\\', c]
        else if c == '\n' then "\\n"
        else if c == '\r' then "\\r"
        else if c == '\t' then "\\t"
        else [c];
      e + EscapeWith(s[1..], q)
  }

  /** Python's `repr` of a payload, as it appears inside a list or dict. */
  function Repr(v: Value): string
    decreases v
  {
    match v
    case Text(s) => QuoteRepr(s)
    case Flag(b) => if b then "True" else "False"
    case Items(elems) =>
      "[" + Join(seq(|elems|, i requires 0 <= i < |elems| => Repr(elems[i])), ", ") + "]"
    case Fields(entries) =>
      "{" + Join(seq(|entries|, i requires 0 <= i < |entries| =>
                           QuoteRepr(entries[i].0) + ": " + Repr(entries[i].1)), ", ") + "}"
  }

  /** Python's `str` of a payload, which is what `astype(str)` stores. */
  function PyStr(v: Value): (r: string)
    ensures v.Text? ==> r == v.s
    ensures v.Flag? ==> r == (if v.b then "True" else "False")
    ensures v.Items? ==> |r| >= 2 && r[0] == '[' && r[|r| - 1] == ']'
    ensures v.Fields? ==> |r| >= 2 && r[0] == '{' && r[|r| - 1] == '}'
  {
    if v.Text? then v.s else Repr(v)
  }

  /** Coercing an already coerced value changes nothing: `astype(str)` is
      idempotent. */
  lemma PyStrIdempotent(v: Value)
    ensures PyStr(Text(PyStr(v))) == PyStr(v)
  {
  }

  // ------------------------------------------------------------- the dict

  /** `record_dict` of `handle_insert`: a Python dict, whose iteration order
      is the order in which keys were first inserted. */
  class Dict {
    var keys: seq<string>
    var vals: map<string, Value>

    ghost predicate Valid()
      reads this
    {
      && (forall i, j | 0 <= i < j < |keys| :: keys[i] != keys[j])
      && (forall k :: k in vals <==> k in keys)
    }

    /** `{}` */
    constructor ()
      ensures Valid() && keys == [] && vals == map[]
    {
      keys := [];
      vals := map[];
    }

    /** The (key, value) pairs in iteration order. */
    function Entries(): (r: Row)
      reads this
      requires Valid()
      ensures Names(r) == keys && UniqueNames(r)
      ensures forall i | 0 <= i < |r| :: r[i].1 == vals[keys[i]]
    {
      var ks, vs := keys, vals;
      seq(|ks|, i requires 0 <= i < |ks| => (ks[i], vs[ks[i]]))
    }

    /** `d.update({k: v})`: a new key goes to the end, an existing key keeps
        its place and takes the new value. */
    method Update(k: string, v: Value)
      requires Valid()
      modifies this
      ensures Valid()
      ensures vals == old(vals)[k := v]
      ensures keys == if k in old(vals) then old(keys) else old(keys) + [k]
      ensures Entries() ==
        if k in old(vals) then old(Entries())[IndexOf(old(keys), k) := (k, v)]
        else old(Entries()) + [(k, v)]
    {
      if k in vals {
        vals := vals[k := v];
      } else {
        keys := keys + [k];
        vals := vals[k := v];
      }
    }
  }

  function IndexOf(ks: seq<string>, k: string): (i: nat)
    requires k in ks
    ensures i < |ks| && ks[i] == k
    ensures forall j | 0 <= j < i :: ks[j] != k
  {
    if ks[0] == k then 0 else 1 + IndexOf(ks[1..], k)
  }

  // -------------------------------------------------------- the DataFrame

  /** A pandas DataFrame: column labels and rows of cells. */
  datatype Frame = Frame(columns: seq<string>, rows: seq<seq<Value>>)
  {
    /** `df.empty`: true when either axis has length zero. */
    predicate IsEmpty()
    {
      |columns| == 0 || |rows| == 0
    }
  }

  /** `pd.DataFrame()` */
  const EmptyFrame := Frame([], [])

  function Cells(row: Row): (cs: seq<Value>)
    ensures |cs| == |row|
    ensures forall i | 0 <= i < |row| :: cs[i] == row[i].1
  {
    seq(|row|, i requires 0 <= i < |row| => row[i].1)
  }

  /** `pd.DataFrame([row])`: one row, one column per key in dict order. */
  function FromRecord(row: Row): (f: Frame)
    ensures f.columns == Names(row) && |f.rows| == 1 && f.rows[0] == Cells(row)
    ensures f.IsEmpty() <==> row == []
  {
    Frame(Names(row), [Cells(row)])
  }

  /** `df[cols] = df[cols].astype(str)`: every cell replaced by its text. */
  function AsStr(f: Frame): (g: Frame)
    ensures g.columns == f.columns && |g.rows| == |f.rows|
    ensures forall r | 0 <= r < |f.rows| ::
      |g.rows[r]| == |f.rows[r]| &&
      forall c | 0 <= c < |f.rows[r]| :: g.rows[r][c] == Text(PyStr(f.rows[r][c]))
    ensures g.IsEmpty() <==> f.IsEmpty()
  {
    Frame(f.columns, seq(|f.rows|, r requires 0 <= r < |f.rows| =>
      seq(|f.rows[r]|, c requires 0 <= c < |f.rows[r]| => Text(PyStr(f.rows[r][c])))))
  }

  /** What `df.to_csv(index=False)` writes, before CSV quoting: a header of
      column labels and one line of cell texts per row. */
  datatype Csv = Csv(header: seq<string>, lines: seq<seq<string>>)

  function ToCsv(f: Frame): (c: Csv)
    ensures c.header == f.columns && |c.lines| == |f.rows|
    ensures forall r | 0 <= r < |f.rows| ::
      |c.lines[r]| == |f.rows[r]| &&
      forall k | 0 <= k < |f.rows[r]| :: c.lines[r][k] == PyStr(f.rows[r][k])
  {
    Csv(f.columns, seq(|f.rows|, r requires 0 <= r < |f.rows| =>
      seq(|f.rows[r]|, k requires 0 <= k < |f.rows[r]| => PyStr(f.rows[r][k]))))
  }

  /** Writing a frame after `astype(str)` gives the same text as writing it
      before: the coercion fixes the cell texts and nothing else. */
  lemma CsvAfterAsStr(f: Frame)
    ensures ToCsv(AsStr(f)) == ToCsv(f)
  {
    var a, b := ToCsv(AsStr(f)), ToCsv(f);
    forall r | 0 <= r < |f.rows| ensures a.lines[r] == b.lines[r] {
      forall k | 0 <= k < |f.rows[r]| ensures a.lines[r][k] == b.lines[r][k] {
        PyStrIdempotent(f.rows[r][k]);
      }
    }
  }

  /** The single-record body: header = the row's keys in order, one line
      holding `str()` of each value in the same order. */
  lemma RecordCsv(row: Row)
    ensures ToCsv(AsStr(FromRecord(row))) ==
      Csv(Names(row), [seq(|row|, i requires 0 <= i < |row| => PyStr(row[i].1))])
  {
    CsvAfterAsStr(FromRecord(row));
    var c := ToCsv(FromRecord(row));
    assert c.lines[0] == seq(|row|, i requires 0 <= i < |row| => PyStr(row[i].1));
  }
}
