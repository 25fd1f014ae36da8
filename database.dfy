/**
 * The database helper: reads records by criteria and keywords (once or by
 * polling), inserts, deletes and updates rows, asserts absence, and turns a
 * stored row into the attribute dict the field models are built from.
 */
module Database {
  import opened Wrappers
  import opened Json
  import opened Values

  /** Seconds `get_records` waits when no truthy `timeout_seconds` is given. */
  const DefaultDbTimeout := 3

  /** A row's attribute values, by attribute name. */
  type Row = map<string, Value>
  type Dict = map<string, Value>
  /** A positional condition such as `Model.id > 5`. */
  type Criterion = Row -> bool
  /** The committed rows of every table, by table name, in insertion order. */
  type Store = map<string, seq<Row>>

  datatype Table = Table(name: string, columns: seq<string>)

  /** A model instance built from a row: its table name and its attribute dict. */
  datatype ModelRecord = ModelRecord(table: string, value: Dict)

  /** What a poll was waiting for, as its timeout message names it. */
  datatype Waiting =
    | RecordsOf(table: string, kwargs: map<string, Value>)
    | NoRecordsOf(table: string, kwargs: map<string, Value>)

  datatype DbError =
    | MissingAttribute(name: string)                         // AttributeError from getattr
    | UnknownKeywords(table: string, names: set<string>)     // filter_by on names no column has
    | Timeout(seconds: Value, waitingFor: Waiting)           // the poll's deadline passed
    | UnexpectedRecord(table: string, kwargs: map<string, Value>) // verify_no_record's assertion

  /** The arguments `verify_records` hands to the comparison. */
  datatype Comparison = Comparison(actual: seq<Dict>, expected: seq<Dict>, targetName: string)

  // ---------------------------------------------------------------- to_dict

  /** The attribute a column is read from: two column names clash with Python names. */
  function AttributeName(column: string): string {
    if column == "global" then "is_global"
    else if column == "metadata" then "metadata_column"
    else column
  }

  /** Only the two reserved names are renamed, and a renamed name stays as it is. */
  lemma AttributeNameStable(column: string)
    ensures AttributeName(column) != column <==> column == "global" || column == "metadata"
    ensures AttributeName(AttributeName(column)) == AttributeName(column)
    ensures AttributeName(column) != "global" && AttributeName(column) != "metadata"
  {
  }

  function NamesUpTo(columns: seq<string>, n: nat): set<string>
    requires n <= |columns|
  {
    set j | 0 <= j < n :: AttributeName(columns[j])
  }

  /** The attribute names of all columns. */
  function Names(columns: seq<string>): set<string> {
    NamesUpTo(columns, |columns|)
  }

  /** The first column whose attribute the record lacks. */
  function FirstMissing(columns: seq<string>, record: Row): (r: Option<nat>)
    ensures r.Some? ==> r.value < |columns| && AttributeName(columns[r.value]) !in record
    ensures r.Some? ==> forall j :: 0 <= j < r.value ==> AttributeName(columns[j]) in record
    ensures r.None? ==> forall j :: 0 <= j < |columns| ==> AttributeName(columns[j]) in record
  {
    if |columns| == 0 then None
    else if AttributeName(columns[0]) !in record then Some(0)
    else
      match FirstMissing(columns[1..], record)
      case None => None
      case Some(i) => Some(i + 1)
  }

  /**
   * What `to_dict` yields: a key for the attribute name of every column,
   * except columns holding `None` when `filterNone` is set, each with the
   * record's value; or the `AttributeError` of the first column whose
   * attribute is missing.
   */
  function RecordDict(columns: seq<string>, record: Row, filterNone: bool): (r: Result<Dict, DbError>)
    ensures r.Err? <==> exists j :: 0 <= j < |columns| && AttributeName(columns[j]) !in record
    ensures r.Err? ==> exists j :: (0 <= j < |columns| && AttributeName(columns[j]) !in record &&
              (forall i :: 0 <= i < j ==> AttributeName(columns[i]) in record) &&
              r.error == MissingAttribute(AttributeName(columns[j])))
    ensures r.Ok? ==> Names(columns) <= record.Keys
    ensures r.Ok? ==> forall k :: k in r.value <==> k in Names(columns) && (filterNone ==> record[k] != PyNone)
    ensures r.Ok? ==> forall k :: k in r.value ==> r.value[k] == record[k]
  {
    match FirstMissing(columns, record)
    case Some(i) => Err(MissingAttribute(AttributeName(columns[i])))
    case None =>
      Ok(map k | k in Names(columns) && k in record && (filterNone ==> record[k] != PyNone) :: record[k])
  }

  /** The exits of the column loop of `to_dict`: the first missing attribute, or the finished dictionary. */
  lemma ToDictExit(columns: seq<string>, record: Row, filterNone: bool, i: nat, d: Dict)
    requires i <= |columns|
    requires forall j :: 0 <= j < i ==> AttributeName(columns[j]) in record
    requires forall k :: k in d <==> k in NamesUpTo(columns, i) && (filterNone ==> record[k] != PyNone)
    requires forall k :: k in d ==> k in record && d[k] == record[k]
    ensures i < |columns| && AttributeName(columns[i]) !in record ==>
              RecordDict(columns, record, filterNone) == Err(MissingAttribute(AttributeName(columns[i])))
    ensures i == |columns| ==> RecordDict(columns, record, filterNone) == Ok(d)
  {
    if i < |columns| && AttributeName(columns[i]) !in record {
      assert FirstMissing(columns, record) == Some(i);
    } else if i == |columns| {
      assert FirstMissing(columns, record) == None;
      assert NamesUpTo(columns, |columns|) == Names(columns);
      assert d == map k | k in Names(columns) && k in record && (filterNone ==> record[k] != PyNone) :: record[k];
    }
  }

  /** `to_dict(model_record, filter_none)`, column by column. */
  method ToDict(columns: seq<string>, record: Row, filterNone: bool) returns (r: Result<Dict, DbError>)
    ensures r == RecordDict(columns, record, filterNone)
  {
    var d: Dict := map[];
    for i := 0 to |columns|
      invariant forall j :: 0 <= j < i ==> AttributeName(columns[j]) in record
      invariant forall k :: k in d <==> k in NamesUpTo(columns, i) && (filterNone ==> record[k] != PyNone)
      invariant forall k :: k in d ==> k in record && d[k] == record[k]
    {
      var name := AttributeName(columns[i]);
      if name !in record {
        ToDictExit(columns, record, filterNone, i, d);
        return Err(MissingAttribute(name));
      }
      var value := record[name];
      assert NamesUpTo(columns, i + 1) == NamesUpTo(columns, i) + {name};
      if filterNone && value == PyNone {
        continue;
      }
      d := d[name := value];
    }
    ToDictExit(columns, record, filterNone, |columns|, d);
    r := Ok(d);
  }

  // ------------------------------------------------------------- selection

  predicate MatchesAll(criteria: seq<Criterion>, row: Row) {
    forall i :: 0 <= i < |criteria| ==> criteria[i](row)
  }

  /** `filter_by(**kw)`: the row equals every keyword's value. */
  predicate MatchesKeywords(kw: map<string, Value>, row: Row) {
    forall k :: k in kw ==> k in row && row[k] == kw[k]
  }

  /** `filter_by` rejects a keyword that names no column. */
  function KeywordCheck(table: Table, kw: map<string, Value>): (r: Option<DbError>)
    ensures r.None? <==> kw.Keys <= Names(table.columns)
  {
    if kw.Keys <= Names(table.columns) then None
    else Some(UnknownKeywords(table.name, kw.Keys - Names(table.columns)))
  }

  /** The rows meeting every criterion and every keyword, in stored order. */
  function Matching(rows: seq<Row>, criteria: seq<Criterion>, kw: map<string, Value>): (r: seq<Row>)
    ensures |r| <= |rows|
    ensures forall row :: row in r <==> row in rows && MatchesAll(criteria, row) && MatchesKeywords(kw, row)
  {
    if |rows| == 0 then []
    else
      var rest := Matching(rows[1..], criteria, kw);
      assert forall row :: row in rows <==> row == rows[0] || row in rows[1..];
      if MatchesAll(criteria, rows[0]) && MatchesKeywords(kw, rows[0]) then [rows[0]] + rest else rest
  }

  /** Filtering works row by row: filtering a concatenation filters each part, so order and repeats are kept. */
  lemma {:induction false} MatchingAppend(a: seq<Row>, b: seq<Row>, criteria: seq<Criterion>, kw: map<string, Value>)
    ensures Matching(a + b, criteria, kw) == Matching(a, criteria, kw) + Matching(b, criteria, kw)
  {
    if |a| > 0 {
      assert (a + b)[1..] == a[1..] + b;
      MatchingAppend(a[1..], b, criteria, kw);
    } else {
      assert a + b == b;
    }
  }

  /**
   * `_get_records`: `order_by` is taken out of the keywords (it orders, it
   * does not filter); the rest filter together with the positional criteria.
   */
  function SelectRows(table: Table, rows: seq<Row>, criteria: seq<Criterion>, kwargs: map<string, Value>)
    : (r: Result<seq<Row>, DbError>)
    ensures r.Err? <==> exists k :: k in kwargs && k != "order_by" && k !in Names(table.columns)
    ensures r.Err? ==> r.error.UnknownKeywords?
    ensures r.Ok? ==> forall row :: row in r.value <==>
              row in rows && MatchesAll(criteria, row) && MatchesKeywords(kwargs - {"order_by"}, row)
  {
    var kw := kwargs - {"order_by"};
    match KeywordCheck(table, kw)
    case Some(e) => Err(e)
    case None => Ok(Matching(rows, criteria, kw))
  }

  /**
   * The records built from a list of rows, in order: each is the table's
   * model with the row's `to_dict`; the first row that fails stops the list.
   */
  function RecordDicts(table: Table, rows: seq<Row>): Result<seq<ModelRecord>, DbError> {
    if |rows| == 0 then Ok([])
    else
      match RecordDict(table.columns, rows[0], true)
      case Err(e) => Err(e)
      case Ok(d) =>
        match RecordDicts(table, rows[1..])
        case Err(e) => Err(e)
        case Ok(rest) => Ok([ModelRecord(table.name, d)] + rest)
  }

  /**
   * The records built from the rows are one per row, in order, each holding
   * that row's `to_dict`; the error is the one of the first row that fails.
   */
  lemma {:induction false} RecordDictsMeaning(table: Table, rows: seq<Row>)
    ensures var r := RecordDicts(table, rows);
      && (r.Ok? ==> |r.value| == |rows|)
      && (r.Ok? ==> forall i :: 0 <= i < |rows| ==>
            r.value[i].table == table.name && RecordDict(table.columns, rows[i], true) == Ok(r.value[i].value))
      && (r.Err? ==> exists i :: (0 <= i < |rows| && RecordDict(table.columns, rows[i], true) == Err(r.error) &&
            forall j :: 0 <= j < i ==> RecordDict(table.columns, rows[j], true).Ok?))
    decreases |rows|
  {
    if |rows| > 0 {
      match RecordDict(table.columns, rows[0], true)
      case Err(e) =>
        assert RecordDict(table.columns, rows[0], true) == Err(e);
      case Ok(d) =>
        RecordDictsMeaning(table, rows[1..]);
        match RecordDicts(table, rows[1..])
        case Err(e) =>
          var i :| 0 <= i < |rows[1..]| && RecordDict(table.columns, rows[1..][i], true) == Err(e) &&
                   forall j :: 0 <= j < i ==> RecordDict(table.columns, rows[1..][j], true).Ok?;
          RecordDictsErrShift(table, rows, i, e);
        case Ok(rest) =>
          RecordDictsOkShift(table, rows, d, rest);
    }
  }

  lemma RecordDictsErrShift(table: Table, rows: seq<Row>, i: nat, e: DbError)
    requires 0 < |rows| && RecordDict(table.columns, rows[0], true).Ok?
    requires i < |rows[1..]| && RecordDict(table.columns, rows[1..][i], true) == Err(e)
    requires forall j :: 0 <= j < i ==> RecordDict(table.columns, rows[1..][j], true).Ok?
    ensures RecordDict(table.columns, rows[i + 1], true) == Err(e)
    ensures forall j :: 0 <= j < i + 1 ==> RecordDict(table.columns, rows[j], true).Ok?
  {
    assert rows[1..][i] == rows[i + 1];
    forall j | 0 <= j < i + 1
      ensures RecordDict(table.columns, rows[j], true).Ok?
    {
      if j > 0 {
        assert rows[j] == rows[1..][j - 1];
      }
    }
  }

  lemma RecordDictsOkShift(table: Table, rows: seq<Row>, d: Dict, rest: seq<ModelRecord>)
    requires 0 < |rows| && RecordDict(table.columns, rows[0], true) == Ok(d)
    requires |rest| == |rows[1..]|
    requires forall i :: 0 <= i < |rows[1..]| ==>
               rest[i].table == table.name && RecordDict(table.columns, rows[1..][i], true) == Ok(rest[i].value)
    ensures var all := [ModelRecord(table.name, d)] + rest;
      forall i :: 0 <= i < |rows| ==> all[i].table == table.name && RecordDict(table.columns, rows[i], true) == Ok(all[i].value)
  {
    var all := [ModelRecord(table.name, d)] + rest;
    forall i | 0 <= i < |rows|
      ensures all[i].table == table.name && RecordDict(table.columns, rows[i], true) == Ok(all[i].value)
    {
      if i > 0 {
        assert all[i] == rest[i - 1] && rows[i] == rows[1..][i - 1];
      }
    }
  }

  /** `built` followed by the records of a later part of the rows, or that part's error. */
  function Extended(built: seq<ModelRecord>, later: Result<seq<ModelRecord>, DbError>): Result<seq<ModelRecord>, DbError> {
    match later
    case Ok(rest) => Ok(built + rest)
    case Err(e) => Err(e)
  }

  lemma RecordDictsFrom(table: Table, rows: seq<Row>)
    ensures RecordDicts(table, rows) == Extended([], RecordDicts(table, rows[0..]))
  {
    assert rows[0..] == rows;
    if RecordDicts(table, rows).Ok? {
      assert [] + RecordDicts(table, rows).value == RecordDicts(table, rows).value;
    }
  }

  /** The records from row `i` on: that row's, then the ones after it. */
  lemma RecordDictsStep(table: Table, rows: seq<Row>, i: nat)
    requires i < |rows|
    ensures RecordDict(table.columns, rows[i], true).Err? ==>
              RecordDicts(table, rows[i..]) == Err(RecordDict(table.columns, rows[i], true).error)
    ensures RecordDict(table.columns, rows[i], true).Ok? ==>
              RecordDicts(table, rows[i..]) ==
              Extended([ModelRecord(table.name, RecordDict(table.columns, rows[i], true).value)],
                       RecordDicts(table, rows[i + 1..]))
  {
    assert rows[i..][0] == rows[i] && rows[i..][1..] == rows[i + 1..];
  }

  lemma ExtendedAppend(built: seq<ModelRecord>, next: ModelRecord, later: Result<seq<ModelRecord>, DbError>)
    ensures Extended(built, Extended([next], later)) == Extended(built + [next], later)
  {
    if later.Ok? {
      assert built + ([next] + later.value) == (built + [next]) + later.value;
    }
  }

  /** One pass of the comprehension: an error ends it, a record extends what is built. */
  lemma RecordDictsNext(table: Table, rows: seq<Row>, i: nat, built: seq<ModelRecord>)
    requires i < |rows| && RecordDicts(table, rows) == Extended(built, RecordDicts(table, rows[i..]))
    ensures RecordDict(table.columns, rows[i], true).Err? ==>
              RecordDicts(table, rows) == Err(RecordDict(table.columns, rows[i], true).error)
    ensures RecordDict(table.columns, rows[i], true).Ok? ==>
              RecordDicts(table, rows) ==
              Extended(built + [ModelRecord(table.name, RecordDict(table.columns, rows[i], true).value)],
                       RecordDicts(table, rows[i + 1..]))
  {
    RecordDictsStep(table, rows, i);
    var d := RecordDict(table.columns, rows[i], true);
    if d.Ok? {
      ExtendedAppend(built, ModelRecord(table.name, d.value), RecordDicts(table, rows[i + 1..]));
    }
  }

  lemma RecordDictsDone(table: Table, rows: seq<Row>, built: seq<ModelRecord>)
    requires RecordDicts(table, rows) == Extended(built, RecordDicts(table, rows[|rows|..]))
    ensures RecordDicts(table, rows) == Ok(built)
  {
    assert rows[|rows|..] == [];
    assert built + [] == built;
  }

  /** One poll of `get_records` (and `get_records_nowait`) over the rows the table holds. */
  function Fetch(table: Table, criteria: seq<Criterion>, kwargs: map<string, Value>, rows: seq<Row>)
    : (r: Result<seq<ModelRecord>, DbError>)
    ensures r.Err? ==> r.error.MissingAttribute? || r.error.UnknownKeywords?
    ensures SelectRows(table, rows, criteria, kwargs).Err? ==> r == Err(SelectRows(table, rows, criteria, kwargs).error)
    ensures SelectRows(table, rows, criteria, kwargs).Ok? ==> r == RecordDicts(table, SelectRows(table, rows, criteria, kwargs).value)
  {
    match SelectRows(table, rows, criteria, kwargs)
    case Err(e) => Err(e)
    case Ok(selected) =>
      RecordDictsMeaning(table, selected);
      RecordDicts(table, selected)
  }

  /**
   * What polling yields: the first attempt that raises or finds records;
   * `expired` when every attempt before the deadline found nothing.
   */
  function Poll(table: Table, criteria: seq<Criterion>, kw: map<string, Value>, attempts: seq<seq<Row>>, expired: DbError)
    : Result<seq<ModelRecord>, DbError>
  {
    if |attempts| == 0 then Err(expired)
    else
      var res := Fetch(table, criteria, kw, attempts[0]);
      if res.Err? || res.value != [] then res
      else Poll(table, criteria, kw, attempts[1..], expired)
  }

  /** Attempts that all found nothing stay so when one more empty attempt is put in front. */
  lemma PollShift(table: Table, criteria: seq<Criterion>, kw: map<string, Value>, attempts: seq<seq<Row>>, k: nat)
    requires k + 1 < |attempts| && Fetch(table, criteria, kw, attempts[0]) == Ok([])
    requires forall j :: 0 <= j < k ==> Fetch(table, criteria, kw, attempts[1..][j]) == Ok([])
    ensures forall j :: 0 <= j < k + 1 ==> Fetch(table, criteria, kw, attempts[j]) == Ok([])
    ensures attempts[k + 1] == attempts[1..][k]
  {
    forall j | 0 <= j < k + 1
      ensures Fetch(table, criteria, kw, attempts[j]) == Ok([])
    {
      if j > 0 {
        assert attempts[j] == attempts[1..][j - 1];
      }
    }
  }

  /** A poll ends at the first attempt that is not an empty result, or times out. */
  lemma {:induction false} PollFirstHit(table: Table, criteria: seq<Criterion>, kw: map<string, Value>,
                                         attempts: seq<seq<Row>>, expired: DbError)
    ensures Poll(table, criteria, kw, attempts, expired) == Err(expired) ||
            exists k :: 0 <= k < |attempts| &&
              (forall j :: 0 <= j < k ==> Fetch(table, criteria, kw, attempts[j]) == Ok([])) &&
              Fetch(table, criteria, kw, attempts[k]) == Poll(table, criteria, kw, attempts, expired) &&
              Poll(table, criteria, kw, attempts, expired) != Ok([])
    decreases |attempts|
  {
    if |attempts| > 0 && Fetch(table, criteria, kw, attempts[0]) == Ok([]) {
      var p := Poll(table, criteria, kw, attempts[1..], expired);
      assert Poll(table, criteria, kw, attempts, expired) == p;
      PollFirstHit(table, criteria, kw, attempts[1..], expired);
      if p != Err(expired) {
        var k :| 0 <= k < |attempts[1..]| &&
            (forall j :: 0 <= j < k ==> Fetch(table, criteria, kw, attempts[1..][j]) == Ok([])) &&
            Fetch(table, criteria, kw, attempts[1..][k]) == p && p != Ok([]);
        PollShift(table, criteria, kw, attempts, k);
      }
    }
  }

  /** A poll times out exactly when every attempt finds nothing. */
  lemma {:induction false} PollTimesOut(table: Table, criteria: seq<Criterion>, kw: map<string, Value>,
                                        attempts: seq<seq<Row>>, expired: DbError)
    requires expired.Timeout?
    ensures Poll(table, criteria, kw, attempts, expired) == Err(expired) <==>
            forall j :: 0 <= j < |attempts| ==> Fetch(table, criteria, kw, attempts[j]) == Ok([])
    decreases |attempts|
  {
    if |attempts| > 0 {
      PollTimesOut(table, criteria, kw, attempts[1..], expired);
      assert forall j :: 1 <= j < |attempts| ==> attempts[j] == attempts[1..][j - 1];
    }
  }

  /** `kwargs.pop('timeout_seconds', None) or DEFAULT_DB_TIMEOUT`. */
  function EffectiveTimeout(kwargs: map<string, Value>): (r: Value)
    ensures Truthy(r)
    ensures "timeout_seconds" in kwargs && Truthy(kwargs["timeout_seconds"]) ==> r == kwargs["timeout_seconds"]
    ensures !("timeout_seconds" in kwargs && Truthy(kwargs["timeout_seconds"])) ==> r == Py(JInt(DefaultDbTimeout))
  {
    if "timeout_seconds" in kwargs && Truthy(kwargs["timeout_seconds"]) then kwargs["timeout_seconds"]
    else Py(JInt(DefaultDbTimeout))
  }

  /** What `verify_no_record_with_wait` yields: success at the first attempt finding no row. */
  function WaitAbsent(table: Table, criteria: seq<Criterion>, kwargs: map<string, Value>, attempts: seq<seq<Row>>)
    : (r: Result<(), DbError>)
    ensures r.Ok? ==> exists k :: 0 <= k < |attempts| && SelectRows(table, attempts[k], criteria, kwargs) == Ok([])
    ensures (forall k :: 0 <= k < |attempts| ==> (SelectRows(table, attempts[k], criteria, kwargs).Ok? &&
               SelectRows(table, attempts[k], criteria, kwargs) != Ok([]))) ==>
            r == Err(Timeout(Py(JInt(DefaultDbTimeout)), NoRecordsOf(table.name, kwargs)))
  {
    if |attempts| == 0 then Err(Timeout(Py(JInt(DefaultDbTimeout)), NoRecordsOf(table.name, kwargs)))
    else
      match SelectRows(table, attempts[0], criteria, kwargs)
      case Err(e) => Err(e)
      case Ok(found) =>
        if found == [] then Ok(())
        else
          var rest := WaitAbsent(table, criteria, kwargs, attempts[1..]);
          assert forall k :: 0 <= k < |attempts[1..]| ==> attempts[1..][k] == attempts[k + 1];
          rest
  }

  /** An attempt of `verify_no_record_with_wait` whose query succeeds and selects rows: the wait goes on. */
  predicate Occupied(table: Table, criteria: seq<Criterion>, kwargs: map<string, Value>, rows: seq<Row>) {
    SelectRows(table, rows, criteria, kwargs).Ok? && SelectRows(table, rows, criteria, kwargs).value != []
  }

  /**
   * The wait ends at the first attempt that is not occupied: it succeeds when
   * that attempt's query selects no row, and passes on the query's error otherwise.
   */
  lemma {:induction false} WaitAbsentFirstHit(table: Table, criteria: seq<Criterion>, kwargs: map<string, Value>,
                                              attempts: seq<seq<Row>>, k: nat)
    requires k < |attempts| && !Occupied(table, criteria, kwargs, attempts[k])
    requires forall j :: 0 <= j < k ==> Occupied(table, criteria, kwargs, attempts[j])
    ensures SelectRows(table, attempts[k], criteria, kwargs) == Ok([]) ==>
              WaitAbsent(table, criteria, kwargs, attempts) == Ok(())
    ensures SelectRows(table, attempts[k], criteria, kwargs).Err? ==>
              WaitAbsent(table, criteria, kwargs, attempts) == Err(SelectRows(table, attempts[k], criteria, kwargs).error)
    decreases k
  {
    if k > 0 {
      assert Occupied(table, criteria, kwargs, attempts[0]);
      assert attempts[1..][k - 1] == attempts[k];
      assert forall j :: 0 <= j < k - 1 ==> attempts[1..][j] == attempts[j + 1];
      WaitAbsentFirstHit(table, criteria, kwargs, attempts[1..], k - 1);
    }
  }

  /** The wait times out exactly when every attempt selects rows. */
  lemma {:induction false} WaitAbsentTimesOut(table: Table, criteria: seq<Criterion>, kwargs: map<string, Value>,
                                              attempts: seq<seq<Row>>)
    ensures WaitAbsent(table, criteria, kwargs, attempts) == Err(Timeout(Py(JInt(DefaultDbTimeout)), NoRecordsOf(table.name, kwargs)))
            <==> forall j :: 0 <= j < |attempts| ==> Occupied(table, criteria, kwargs, attempts[j])
    decreases |attempts|
  {
    if |attempts| > 0 {
      WaitAbsentTimesOut(table, criteria, kwargs, attempts[1..]);
      assert forall j :: 1 <= j < |attempts| ==> attempts[j] == attempts[1..][j - 1];
    }
  }

  // ----------------------------------------------------------------- writes

  /** `delete` and `update` filter by the positional criteria when there are any, else by the keywords. */
  predicate WriteSelects(criteria: seq<Criterion>, kwargs: map<string, Value>, row: Row) {
    if |criteria| > 0 then MatchesAll(criteria, row) else MatchesKeywords(kwargs, row)
  }

  function WriteCheck(table: Table, criteria: seq<Criterion>, kwargs: map<string, Value>): (r: Option<DbError>)
    ensures |criteria| > 0 ==> r.None?
    ensures |criteria| == 0 ==> (r.None? <==> kwargs.Keys <= Names(table.columns))
  {
    if |criteria| > 0 then None else KeywordCheck(table, kwargs)
  }

  /** The rows `delete` leaves: exactly those it does not select, in stored order. */
  function Remaining(rows: seq<Row>, criteria: seq<Criterion>, kwargs: map<string, Value>): (r: seq<Row>)
    ensures |r| <= |rows|
    ensures forall row :: row in r <==> row in rows && !WriteSelects(criteria, kwargs, row)
  {
    if |rows| == 0 then []
    else
      var rest := Remaining(rows[1..], criteria, kwargs);
      assert forall row :: row in rows <==> row == rows[0] || row in rows[1..];
      if WriteSelects(criteria, kwargs, rows[0]) then rest else [rows[0]] + rest
  }

  /** Deleting from a concatenation deletes from each part: it works row by row. */
  lemma {:induction false} RemainingAppend(a: seq<Row>, b: seq<Row>, criteria: seq<Criterion>, kwargs: map<string, Value>)
    ensures Remaining(a + b, criteria, kwargs) == Remaining(a, criteria, kwargs) + Remaining(b, criteria, kwargs)
  {
    if |a| > 0 {
      assert (a + b)[1..] == a[1..] + b;
      RemainingAppend(a[1..], b, criteria, kwargs);
    } else {
      assert a + b == b;
    }
  }

  /** `after` is `before` with every column of `newValues` set and no other column changed. */
  predicate Overlaid(before: Row, newValues: map<string, Value>, after: Row) {
    && after.Keys == before.Keys + newValues.Keys
    && (forall k :: k in newValues ==> k in after && after[k] == newValues[k])
    && (forall k :: k in before && k !in newValues ==> k in after && after[k] == before[k])
  }

  lemma OverlaidMerge(before: Row, newValues: map<string, Value>)
    ensures Overlaid(before, newValues, before + newValues)
  {
  }

  /**
   * The rows `update` leaves: a selected row takes every new value and keeps
   * its other columns; every other row is unchanged.
   */
  function Updated(rows: seq<Row>, newValues: map<string, Value>, criteria: seq<Criterion>, kwargs: map<string, Value>)
    : (r: seq<Row>)
    ensures |r| == |rows|
    ensures forall i :: 0 <= i < |rows| && !WriteSelects(criteria, kwargs, rows[i]) ==> r[i] == rows[i]
    ensures forall i :: 0 <= i < |rows| && WriteSelects(criteria, kwargs, rows[i]) ==>
              Overlaid(rows[i], newValues, r[i])
  {
    if |rows| == 0 then []
    else
      var head := if WriteSelects(criteria, kwargs, rows[0]) then rows[0] + newValues else rows[0];
      OverlaidMerge(rows[0], newValues);
      var rest := Updated(rows[1..], newValues, criteria, kwargs);
      UpdatedShift(rows, newValues, criteria, kwargs, head, rest);
      [head] + rest
  }

  lemma UpdatedShift(rows: seq<Row>, newValues: map<string, Value>, criteria: seq<Criterion>,
                     kwargs: map<string, Value>, head: Row, rest: seq<Row>)
    requires 0 < |rows| && |rest| == |rows| - 1
    requires !WriteSelects(criteria, kwargs, rows[0]) ==> head == rows[0]
    requires WriteSelects(criteria, kwargs, rows[0]) ==> Overlaid(rows[0], newValues, head)
    requires forall i :: 0 <= i < |rows[1..]| && !WriteSelects(criteria, kwargs, rows[1..][i]) ==> rest[i] == rows[1..][i]
    requires forall i :: 0 <= i < |rows[1..]| && WriteSelects(criteria, kwargs, rows[1..][i]) ==>
               Overlaid(rows[1..][i], newValues, rest[i])
    ensures var r := [head] + rest;
      && (forall i :: 0 <= i < |rows| && !WriteSelects(criteria, kwargs, rows[i]) ==> r[i] == rows[i])
      && (forall i :: 0 <= i < |rows| && WriteSelects(criteria, kwargs, rows[i]) ==> Overlaid(rows[i], newValues, r[i]))
  {
    var r := [head] + rest;
    forall i | 0 <= i < |rows|
      ensures !WriteSelects(criteria, kwargs, rows[i]) ==> r[i] == rows[i]
      ensures WriteSelects(criteria, kwargs, rows[i]) ==> Overlaid(rows[i], newValues, r[i])
    {
      if i > 0 {
        assert r[i] == rest[i - 1] && rows[i] == rows[1..][i - 1];
      }
    }
  }

  function RowsOf(store: Store, t: string): seq<Row> {
    if t in store then store[t] else []
  }

  /** The store after committing rows added in order, each to the end of its table. */
  function Applied(store: Store, adds: seq<(string, Row)>): Store
    decreases |adds|
  {
    if |adds| == 0 then store
    else Applied(store[adds[0].0 := RowsOf(store, adds[0].0) + [adds[0].1]], adds[1..])
  }

  /** The rows among `adds` that go to table `t`, in order. */
  function RowsFor(adds: seq<(string, Row)>, t: string): seq<Row> {
    if |adds| == 0 then []
    else (if adds[0].0 == t then [adds[0].1] else []) + RowsFor(adds[1..], t)
  }

  /** Committing appends each table's added rows after its old rows, in the order they were added. */
  lemma {:induction false} AppliedRows(store: Store, adds: seq<(string, Row)>, t: string)
    ensures RowsOf(Applied(store, adds), t) == RowsOf(store, t) + RowsFor(adds, t)
    decreases |adds|
  {
    if |adds| > 0 {
      var next := store[adds[0].0 := RowsOf(store, adds[0].0) + [adds[0].1]];
      AppliedRows(next, adds[1..], t);
    }
  }

  /**
   * The tables and rows of records handed to `insert_records`: each row with
   * the values the database fills in for it.
   */
  function Targets(records: seq<(Table, Row, Row)>): (r: seq<(string, Row)>)
    ensures |r| == |records|
    ensures forall i :: 0 <= i < |records| ==> r[i] == (records[i].0.name, records[i].1 + records[i].2)
  {
    if |records| == 0 then [] else [(records[0].0.name, records[0].1 + records[0].2)] + Targets(records[1..])
  }

  /**
   * Reading a table right after `insert` committed `stored`: when no older row
   * meets the criteria and `stored` does, the read finds exactly the record
   * `insert` returned, or the same `to_dict` error.
   */
  lemma InsertReadBack(store: Store, table: Table, stored: Row, criteria: seq<Criterion>, kwargs: map<string, Value>)
    requires SelectRows(table, RowsOf(store, table.name), criteria, kwargs) == Ok([])
    requires MatchesAll(criteria, stored) && MatchesKeywords(kwargs - {"order_by"}, stored)
    ensures var read := Fetch(table, criteria, kwargs, RowsOf(Applied(store, [(table.name, stored)]), table.name));
      && (RecordDict(table.columns, stored, true).Ok? ==>
            read == Ok([ModelRecord(table.name, RecordDict(table.columns, stored, true).value)]))
      && (RecordDict(table.columns, stored, true).Err? ==> read == Err(RecordDict(table.columns, stored, true).error))
  {
    var before := RowsOf(store, table.name);
    var kw := kwargs - {"order_by"};
    assert RowsOf(Applied(store, [(table.name, stored)]), table.name) == before + [stored];
    MatchingAppend(before, [stored], criteria, kw);
    assert KeywordCheck(table, kw).None? && Matching(before, criteria, kw) == [];
    assert [stored][0] == stored && [stored][1..] == [];
    assert Matching([stored], criteria, kw) == [stored];
    assert Matching(before + [stored], criteria, kw) == [stored];
    assert SelectRows(table, before + [stored], criteria, kwargs) == Ok([stored]);
    assert RecordDicts(table, [stored][1..]) == Ok([]);
    if RecordDict(table.columns, stored, true).Ok? {
      var m := ModelRecord(table.name, RecordDict(table.columns, stored, true).value);
      assert [m] + [] == [m];
    }
  }

  // ------------------------------------------------------------ the helper

  class Database {
    /** No-db mode: inserts are skipped. */
    var noDbMode: bool
    var store: Store
    /** Rows added to the session and not committed yet. */
    var pending: seq<(string, Row)>
    var commits: nat
    var flushes: nat

    constructor (initial: Store)
      ensures !noDbMode && store == initial && pending == [] && commits == 0 && flushes == 0
    {
      noDbMode := false;
      store := initial;
      pending := [];
      commits := 0;
      flushes := 0;
    }

    /** Between operations the session holds nothing uncommitted. */
    predicate Valid()
      reads this
    {
      pending == []
    }

    function Rows(t: string): seq<Row>
      reads this
    {
      RowsOf(store, t)
    }

    method EnableNoDbMode()
      modifies this`noDbMode
      ensures noDbMode
    {
      noDbMode := true;
    }

    method ResetMode()
      modifies this`noDbMode
      ensures !noDbMode
    {
      noDbMode := false;
    }

    method Add(t: string, row: Row)
      modifies this`pending
      ensures pending == old(pending) + [(t, row)]
    {
      pending := pending + [(t, row)];
    }

    method Flush()
      modifies this`flushes
      ensures flushes == old(flushes) + 1
    {
      flushes := flushes + 1;
    }

    method Commit()
      modifies this`store, this`pending, this`commits
      ensures store == Applied(old(store), old(pending))
      ensures pending == [] && commits == old(commits) + 1
    {
      store := Applied(store, pending);
      pending := [];
      commits := commits + 1;
    }

    /** The list comprehension building model records from rows. */
    method Materialise(table: Table, rows: seq<Row>) returns (r: Result<seq<ModelRecord>, DbError>)
      ensures r == RecordDicts(table, rows)
    {
      var built: seq<ModelRecord> := [];
      RecordDictsFrom(table, rows);
      for i := 0 to |rows|
        invariant RecordDicts(table, rows) == Extended(built, RecordDicts(table, rows[i..]))
      {
        var d := ToDict(table.columns, rows[i], true);
        RecordDictsNext(table, rows, i, built);
        if d.Err? {
          return Err(d.error);
        }
        built := built + [ModelRecord(table.name, d.value)];
      }
      RecordDictsDone(table, rows, built);
      r := Ok(built);
    }

    /** `filter_records`: one query and the records built from its rows. */
    method FilterRecords(table: Table, criteria: seq<Criterion>, kwargs: map<string, Value>, rows: seq<Row>)
      returns (r: Result<seq<ModelRecord>, DbError>)
      ensures r == Fetch(table, criteria, kwargs, rows)
    {
      var selected := SelectRows(table, rows, criteria, kwargs);
      if selected.Err? {
        return Err(selected.error);
      }
      r := Materialise(table, selected.value);
    }

    method GetRecordsNowait(table: Table, criteria: seq<Criterion>, kwargs: map<string, Value>)
      returns (r: Result<seq<ModelRecord>, DbError>)
      ensures r == Fetch(table, criteria, kwargs, Rows(table.name))
    {
      r := FilterRecords(table, criteria, kwargs, Rows(table.name));
    }

    /**
     * `get_records`, polling: `attempts` are the rows the table holds at each
     * poll made before the deadline. `sleep_seconds`
     * and `timeout_seconds` are control keywords, not filters.
     */
    method GetRecords(table: Table, criteria: seq<Criterion>, kwargs: map<string, Value>, attempts: seq<seq<Row>>)
      returns (r: Result<seq<ModelRecord>, DbError>)
      ensures r == Poll(table, criteria, kwargs - {"sleep_seconds", "timeout_seconds"}, attempts,
                        Timeout(EffectiveTimeout(kwargs),
                                RecordsOf(table.name, kwargs - {"sleep_seconds", "timeout_seconds"})))
      ensures r.Ok? ==> r.value != []
    {
      var kw := kwargs - {"sleep_seconds", "timeout_seconds"};
      var expired := Timeout(EffectiveTimeout(kwargs), RecordsOf(table.name, kw));
      var k := 0;
      while k < |attempts|
        invariant 0 <= k <= |attempts|
        invariant Poll(table, criteria, kw, attempts, expired) == Poll(table, criteria, kw, attempts[k..], expired)
      {
        var res := FilterRecords(table, criteria, kw, attempts[k]);
        if res.Err? || res.value != [] {
          return res;
        }
        assert attempts[k..][1..] == attempts[k + 1..];
        k := k + 1;
      }
      r := Err(expired);
    }

    /** `get_records(...)[0]`: the first record of the first poll that finds any. */
    method GetRecord(table: Table, criteria: seq<Criterion>, kwargs: map<string, Value>, attempts: seq<seq<Row>>)
      returns (r: Result<ModelRecord, DbError>)
      ensures var polled := Poll(table, criteria, kwargs - {"sleep_seconds", "timeout_seconds"}, attempts,
                                 Timeout(EffectiveTimeout(kwargs),
                                         RecordsOf(table.name, kwargs - {"sleep_seconds", "timeout_seconds"})));
              (polled.Ok? ==> polled.value != [] && r == Ok(polled.value[0])) &&
              (polled.Err? ==> r == Err(polled.error))
    {
      var records := GetRecords(table, criteria, kwargs, attempts);
      if records.Err? {
        return Err(records.error);
      }
      r := Ok(records.value[0]);
    }

    /**
     * `insert`: skipped in no-db mode; otherwise the row, with the values the
     * database fills in (`generated`), is committed and read back as a record.
     */
    method Insert(table: Table, row: Row, generated: Row) returns (r: Result<Option<ModelRecord>, DbError>)
      requires Valid()
      modifies this
      ensures Valid() && noDbMode == old(noDbMode) && flushes == old(flushes)
      ensures old(noDbMode) ==> r == Ok(None) && store == old(store) && commits == old(commits)
      ensures !old(noDbMode) ==> store == Applied(old(store), [(table.name, row + generated)])
      ensures !old(noDbMode) ==> commits == old(commits) + 1
      ensures !old(noDbMode) && RecordDict(table.columns, row + generated, true).Ok? ==>
                r == Ok(Some(ModelRecord(table.name, RecordDict(table.columns, row + generated, true).value)))
      ensures !old(noDbMode) && RecordDict(table.columns, row + generated, true).Err? ==>
                r == Err(RecordDict(table.columns, row + generated, true).error)
    {
      if noDbMode {
        return Ok(None);
      }
      var stored := row + generated;
      Add(table.name, stored);
      Commit();
      var d := ToDict(table.columns, stored, true);
      if d.Err? {
        return Err(d.error);
      }
      r := Ok(Some(ModelRecord(table.name, d.value)));
    }

    /**
     * `insert_records`: every record, with the values the database fills in
     * for it, is added and flushed in order, then all are committed at once.
     */
    method InsertRecords(records: seq<(Table, Row, Row)>)
      requires Valid()
      modifies this
      ensures Valid() && noDbMode == old(noDbMode)
      ensures old(noDbMode) ==> store == old(store) && commits == old(commits) && flushes == old(flushes)
      ensures !old(noDbMode) ==> store == Applied(old(store), Targets(records))
      ensures !old(noDbMode) ==> commits == old(commits) + 1 && flushes == old(flushes) + |records|
    {
      if noDbMode {
        return;
      }
      for i := 0 to |records|
        invariant pending == Targets(records)[..i]
        invariant store == old(store) && commits == old(commits) && noDbMode == old(noDbMode)
        invariant flushes == old(flushes) + i
      {
        Add(records[i].0.name, records[i].1 + records[i].2);
        Flush();
        assert Targets(records)[..i + 1] == Targets(records)[..i] + [Targets(records)[i]];
      }
      assert Targets(records)[..|records|] == Targets(records);
      Commit();
    }

    /** `delete`: the selected rows of the table are removed and the change committed; no-db mode does not apply. */
    method Delete(table: Table, criteria: seq<Criterion>, kwargs: map<string, Value>) returns (r: Result<(), DbError>)
      requires Valid()
      modifies this
      ensures Valid() && noDbMode == old(noDbMode) && flushes == old(flushes)
      ensures WriteCheck(table, criteria, kwargs).Some? ==>
                r == Err(WriteCheck(table, criteria, kwargs).value) && store == old(store) && commits == old(commits)
      ensures WriteCheck(table, criteria, kwargs).None? ==>
                r.Ok? && commits == old(commits) + 1 &&
                store == old(store)[table.name := Remaining(old(Rows(table.name)), criteria, kwargs)]
    {
      var check := WriteCheck(table, criteria, kwargs);
      if check.Some? {
        return Err(check.value);
      }
      store := store[table.name := Remaining(Rows(table.name), criteria, kwargs)];
      Commit();
      r := Ok(());
    }

    /** `update`: the selected rows of the table take `newValues` and the change is committed. */
    method Update(table: Table, newValues: map<string, Value>, criteria: seq<Criterion>, kwargs: map<string, Value>)
      returns (r: Result<(), DbError>)
      requires Valid()
      modifies this
      ensures Valid() && noDbMode == old(noDbMode) && flushes == old(flushes)
      ensures WriteCheck(table, criteria, kwargs).Some? ==>
                r == Err(WriteCheck(table, criteria, kwargs).value) && store == old(store) && commits == old(commits)
      ensures WriteCheck(table, criteria, kwargs).None? ==>
                r.Ok? && commits == old(commits) + 1 &&
                store == old(store)[table.name := Updated(old(Rows(table.name)), newValues, criteria, kwargs)]
    {
      var check := WriteCheck(table, criteria, kwargs);
      if check.Some? {
        return Err(check.value);
      }
      store := store[table.name := Updated(Rows(table.name), newValues, criteria, kwargs)];
      Commit();
      r := Ok(());
    }

    /** `verify_no_record`: fails with the table and keywords when any row matches. */
    function VerifyNoRecord(table: Table, criteria: seq<Criterion>, kwargs: map<string, Value>): (r: Result<(), DbError>)
      reads this
      ensures SelectRows(table, Rows(table.name), criteria, kwargs).Err? ==> r.Err? && r.error.UnknownKeywords?
      ensures SelectRows(table, Rows(table.name), criteria, kwargs).Ok? ==>
                (r.Ok? <==> forall row :: row in Rows(table.name) ==>
                   !(MatchesAll(criteria, row) && MatchesKeywords(kwargs - {"order_by"}, row)))
      ensures r.Err? && !r.error.UnknownKeywords? ==> r.error == UnexpectedRecord(table.name, kwargs)
    {
      match SelectRows(table, Rows(table.name), criteria, kwargs)
      case Err(e) => Err(e)
      case Ok(found) =>
        if found == [] then Ok(())
        else
          assert found[0] in found;
          Err(UnexpectedRecord(table.name, kwargs))
    }

    /**
     * `verify_no_record_with_wait`: polls for at most the default timeout
     * until no row matches; the keywords are passed to the filter as given.
     */
    method VerifyNoRecordWithWait(table: Table, criteria: seq<Criterion>, kwargs: map<string, Value>,
                                  attempts: seq<seq<Row>>)
      returns (r: Result<(), DbError>)
      ensures r == WaitAbsent(table, criteria, kwargs, attempts)
    {
      var k := 0;
      while k < |attempts|
        invariant 0 <= k <= |attempts|
        invariant WaitAbsent(table, criteria, kwargs, attempts) == WaitAbsent(table, criteria, kwargs, attempts[k..])
      {
        var found := SelectRows(table, attempts[k], criteria, kwargs);
        if found.Err? {
          return Err(found.error);
        }
        if found.value == [] {
          return Ok(());
        }
        assert attempts[k..][1..] == attempts[k + 1..];
        k := k + 1;
      }
      r := Err(Timeout(Py(JInt(DefaultDbTimeout)), NoRecordsOf(table.name, kwargs)));
    }

    /**
     * `verify_records`: compares the records' dicts in order, under the name
     * of the first actual record's table, else the first expected one's.
     */
    static function VerifyRecords(actual: seq<ModelRecord>, expected: seq<ModelRecord>): (c: Comparison)
      ensures |c.actual| == |actual| && forall i :: 0 <= i < |actual| ==> c.actual[i] == actual[i].value
      ensures |c.expected| == |expected| && forall i :: 0 <= i < |expected| ==> c.expected[i] == expected[i].value
      ensures |actual| > 0 ==> c.targetName == actual[0].table + " records"
      ensures |actual| == 0 && |expected| > 0 ==> c.targetName == expected[0].table + " records"
      ensures |actual| == 0 && |expected| == 0 ==> c.targetName == " records"
    {
      var targetName := if |actual| > 0 then actual[0].table
                        else if |expected| > 0 then expected[0].table
                        else "";
      Comparison(seq(|actual|, i requires 0 <= i < |actual| => actual[i].value),
                 seq(|expected|, i requires 0 <= i < |expected| => expected[i].value),
                 targetName + " records")
    }
  }
}
