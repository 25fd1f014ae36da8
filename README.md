# fild-db, modelled in Dafny

fild-db is a test helper over a database session. It reads records by
positional criteria and keyword equalities, either once or by polling until
they appear. It inserts, deletes and updates rows, and asserts that a record
is absent. Every stored row becomes a model record built from `to_dict`, a
dict keyed by attribute name. Structured columns pass through value adapters:

- a boolean column stored as an integer;
- JSON columns stored as compact JSON text (MySQL);
- a JSON mapping stored as the UTF-8 bytes of JSON text written with the
  default separators (Cassandra).

The model has three parts.

- **JSON and UTF-8** (`json.dfy`, `json_encoder.dfy`, `json_decoder.dfy`,
  `json_roundtrip.dfy`, `json_facts.dfy`, `utf8.dfy`). These model what the
  adapters call:
  - `Dumps` models `json.dumps` as the adapters call it. It takes the
    separator pair as a parameter and escapes as `ensure_ascii` does: short
    escapes, `\uXXXX` in lower-case hex, and UTF-16 surrogate pairs above
    U+FFFF.
  - `Loads` models `json.loads`. It skips whitespace and rejects a BOM and
    extra data. A repeated key keeps its first position and takes its last
    value, as `dict(pairs)` does.
  - UTF-8 is modelled as an encoder and a strict decoder.
- **The value adapters** (`values.dfy`, `mysql_types.dfy`,
  `cassandra_types.dfy`). Each field is a class with a mutable `value`, which
  stands for the field's `_value`. `ToDb` is a function of that field.
  `WithValues` is a method that updates the field in place and returns it.
- **The database helper** (`database.dfy`).
  - `to_dict` is a loop that builds a map.
  - The `Database` class holds the no-db flag, an in-memory store
    (`table name -> rows`), the rows added to the session but not committed,
    and counters of commits and flushes.
  - A positional criterion is a predicate on a row. Keyword criteria are a
    map.
  - Polling is iteration over a given sequence of snapshots. Each snapshot is
    the rows the table holds at one attempt made before the deadline.

Python's `None`, `bool`, `int`, `str`, `list` and `dict` are the `Json`
datatype, and `bytes` is a separate case of `Values.Value`. A `dict` is a
sequence of key/value pairs in insertion order.

## Model

| member | source | states |
|---|---|---|
| JsonRoundTrip.DumpsLoads | fild_db/types/mysql.py:28-32 | `json.loads` of `json.dumps(v, separators)` gives back `v`, with members in insertion order. This holds for any value with distinct keys at every depth, and for any separator pair made of `,` or `:` surrounded by JSON whitespace. |
| JsonRoundTrip.StandardSeparatorsReadable | fild_db/types/mysql.py:23 | Both the compact pair `(',', ':')` and the default pair `(', ', ': ')` are separators that `json.loads` reads past. |
| JsonRoundTrip.EscapeCharRoundTrip | fild_db/types/cassandra.py:8 | Every character's ASCII escape is non-empty and does not start with a quote. The string reader turns it back into exactly that character, leaving the following text untouched. |
| JsonRoundTrip.QuoteRoundTrip | fild_db/types/cassandra.py:8 | The escaped text of any string, followed by the closing quote, reads back as that string. |
| JsonFacts.CompactHasNoWs | fild_db/types/mysql.py:23 | With the compact separators, the text has no JSON whitespace at all when no key or string of the value contains a space. |
| JsonFacts.DumpsPrintable | fild_db/types/cassandra.py:8 | With ASCII separators, every character `json.dumps` writes is printable ASCII, because non-ASCII and control characters are escaped. |
| JsonFacts.LoadsWellFormed | fild_db/types/cassandra.py:12 | Any value `json.loads` returns has distinct keys at every depth. |
| JsonFacts.BuildDictLookup | fild_db/types/cassandra.py:12 | In a parsed object, a key repeated in the text reads as the value of its last occurrence. |
| JsonEncoder.Dumps | fild_db/types/mysql.py:23 | `json.dumps` with a given separator pair and ASCII escaping. Its meaning is stated by `JsonRoundTrip.DumpsLoads`, `JsonFacts.DumpsPrintable` and `JsonFacts.CompactHasNoWs`. |
| JsonDecoder.Loads | fild_db/types/mysql.py:32 | `json.loads` of a whole text. Its meaning is stated by `JsonRoundTrip.DumpsLoads`, `JsonFacts.LoadsWellFormed` and `JsonFacts.BuildDictLookup`. |
| Utf8.Encode | fild_db/types/cassandra.py:8 | `.encode('utf-8')`. Its meaning is stated by `Utf8.EncodeDecode` and `Utf8.EncodeAscii`. |
| Utf8.Decode | fild_db/types/cassandra.py:8 | Strict UTF-8 decoding, with which a reader of the stored bytes recovers the text. `Utf8.EncodeDecode` states that it inverts `Encode`. |
| Utf8.EncodeDecode | fild_db/types/cassandra.py:8 | Strict UTF-8 decoding of the encoding of any text gives the text back. |
| Utf8.EncodeAscii | fild_db/types/cassandra.py:8 | Text below U+0080 encodes to one byte per character, equal to the character's code. |
| Values.JsonWithValues | fild_db/types/mysql.py:30-37 | A `str` argument is parsed as JSON and a parse error is returned. When the parsed or given value is `None`, the current value is kept. Any other argument, `bytes` included, is stored unparsed. |
| MysqlTypes.AsBool | fild_db/types/mysql.py:13-14 | An `int` or `bool` argument becomes the bool of its truthiness, so 0 gives `False` and any other int gives `True`. Every other argument is unchanged, `None` included. |
| MysqlTypes.DbBool.ToDb | fild_db/types/mysql.py:9-10 | `int(value)` succeeds exactly for ints and bools. `True` gives 1, `False` gives 0 and an int gives itself; anything else is a `TypeError`. |
| MysqlTypes.DbBool.WithValues | fild_db/types/mysql.py:12-18 | Stores the argument, coerced by `AsBool`, and returns the same field object. |
| MysqlTypes.BoolColumnRoundTrip | fild_db/types/mysql.py:9-16 | A boolean field writes 0 or 1, and giving that number back through the `with_values` coercion restores the boolean. |
| MysqlTypes.CompactText | fild_db/types/mysql.py:23 | Compact JSON text reads back to the value when keys are distinct. It is printable ASCII, and has no whitespace when no string contains a space. |
| MysqlTypes.CompactToDb | fild_db/types/mysql.py:21-28 | Writing fails exactly for `bytes`. Otherwise the result is the compact text, which has the properties of `CompactText`. |
| MysqlTypes.DbJsonDict.ToDb | fild_db/types/mysql.py:21-23 | The relational JSON mapping writes the compact text of its value (see `CompactToDb`). |
| MysqlTypes.DbJsonArray.ToDb | fild_db/types/mysql.py:26-28 | The JSON list writes the compact text of its value (see `CompactToDb`). |
| MysqlTypes.DbJsonArray.WithValues | fild_db/types/mysql.py:30-37 | The field takes the value `JsonWithValues` gives for its old value and returns itself. A parse error leaves it unchanged. |
| MysqlTypes.ArrayColumnRoundTrip | fild_db/types/mysql.py:27-35 | Whatever the field holds now, giving it the text a JSON list writes stores that list again. |
| MysqlTypes.NullKeepsValue | fild_db/types/mysql.py:31-37 | `None` and the text `"null"` both leave the stored value as it is. |
| CassandraTypes.DefaultText | fild_db/types/cassandra.py:8 | JSON text with the default separators reads back to the value when keys are distinct, and is printable ASCII. |
| CassandraTypes.DefaultBytes | fild_db/types/cassandra.py:7-8 | Writing fails exactly for `bytes`. Otherwise the result is the UTF-8 encoding of the default-separator text: one byte per character, every byte below 0x80 and equal to its character's code. Decoding and parsing it gives the value back. |
| CassandraTypes.DbJsonDict.ToDb | fild_db/types/cassandra.py:7-8 | The columnar JSON mapping writes the bytes of its value (see `DefaultBytes`). |
| CassandraTypes.DbJsonDict.WithValues | fild_db/types/cassandra.py:10-17 | The field takes the value `JsonWithValues` gives for its old value and returns itself. A parse error leaves it unchanged. |
| CassandraTypes.DictColumnRoundTrip | fild_db/types/cassandra.py:8-15 | The bytes a mapping writes decode as UTF-8. Given back as text, they store that mapping again, whatever the field held. |
| CassandraTypes.BytesStoredRaw | fild_db/types/cassandra.py:11-15 | A `bytes` argument, such as what `to_db` returns, is stored as bytes and not decoded. |
| Database.AttributeNameStable | fild_db/database.py:18-22 | Exactly the columns `global` and `metadata` are renamed. A renamed name is never renamed again and is never one of the two reserved names. |
| Database.AttributeName | fild_db/database.py:18-22 | The attribute a column is read from. Its meaning is stated by `Database.AttributeNameStable`. |
| Database.FirstMissing | fild_db/database.py:15-24 | Gives the first column whose attribute the record lacks, if any. Every earlier attribute is present. |
| Database.RecordDict | fild_db/database.py:12-31 | `to_dict` fails exactly when some column's attribute is missing, and reports the first one. Otherwise its keys are exactly the renamed column names, minus those holding `None` when `filter_none` is set, and each value is the record's value under that name. |
| Database.ToDict | fild_db/database.py:12-31 | The loop over the columns computes `RecordDict`. |
| Database.KeywordCheck | fild_db/database.py:51-55 | `filter_by` accepts the keywords exactly when each names a column attribute. |
| Database.Matching | fild_db/database.py:50-55 | A row is kept exactly when it meets every positional criterion and every keyword equality, and no row is added. |
| Database.MatchingAppend | fild_db/database.py:50-55 | Filtering works row by row: filtering a concatenation filters each part. So the stored order is kept and no row is dropped or repeated. |
| Database.SelectRows | fild_db/database.py:46-58 | `order_by` is removed from the keywords, then reads apply both the criteria and the remaining keywords. The result is an error exactly when a remaining keyword names no column. |
| Database.RecordDicts | fild_db/database.py:64-67 | The list comprehension building records from rows. Its meaning is stated by `Database.RecordDictsMeaning`. |
| Database.RecordDictsMeaning | fild_db/database.py:64-67 | The comprehension gives one record per selected row, in order, holding that row's `to_dict`. Otherwise it fails with the error of the first row that fails. |
| Database.Fetch | fild_db/database.py:73-79 | One attempt is the selection's error, or the records built from the selected rows. Its errors are only a missing attribute or an unknown keyword. |
| Database.Poll | fild_db/database.py:81-86 | `wait` over the attempts of `filter_records`. Its meaning is stated by `Database.PollFirstHit` and `Database.PollTimesOut`. |
| Database.PollFirstHit | fild_db/database.py:81-86 | A poll times out, or returns the result of the first attempt that raised or found records, after attempts that all found nothing. |
| Database.PollTimesOut | fild_db/database.py:81-86 | A poll times out exactly when every attempt found no records. |
| Database.EffectiveTimeout | fild_db/database.py:71-84 | The timeout is `timeout_seconds` when it is given and truthy. Otherwise it is 3, including when 0 or `None` is given. |
| Database.WaitAbsent | fild_db/database.py:169-175 | Waiting for absence succeeds only at an attempt selecting no row. It times out with the default timeout when every attempt selects rows. |
| Database.WaitAbsentFirstHit | fild_db/database.py:170-175 | The wait ends at the first attempt that does not select rows. It succeeds when that attempt's query selects nothing, and passes on the query's error otherwise. |
| Database.WaitAbsentTimesOut | fild_db/database.py:170-175 | The wait times out with the default timeout exactly when every attempt selects rows. |
| Database.WriteCheck | fild_db/database.py:132-135 | Writes with positional criteria ignore the keywords. Without criteria, the keywords are checked against the columns. |
| Database.Remaining | fild_db/database.py:130-137 | `delete` keeps exactly the rows its criteria do not select: the positional criteria if there are any, otherwise the keywords. |
| Database.RemainingAppend | fild_db/database.py:137 | Deletion works row by row: deleting from a concatenation deletes from each part. |
| Database.Updated | fild_db/database.py:146-153 | `update` keeps the number of rows. A selected row takes every new value and keeps its other columns; an unselected row is unchanged. |
| Database.Applied | fild_db/database.py:117 | The store after a commit. Its meaning is stated by `Database.AppliedRows`. |
| Database.AppliedRows | fild_db/database.py:112-117 | After a commit, each table holds its old rows followed by the rows added for it, in the order they were added. |
| Database.Targets | fild_db/database.py:112-114 | The records handed to `insert_records` go, in order, to their own tables, each with the values the database fills in for it. |
| Database.InsertReadBack | fild_db/database.py:95-106 | Suppose no older row of the table meets the criteria and the committed row does. Then reading the table right after `insert` finds exactly the record `insert` returned, or the same `to_dict` error. |
| Database.Database.constructor | fild_db/database.py:35-38 | A new helper starts with no-db mode off, nothing pending and no commits. |
| Database.Database.EnableNoDbMode | fild_db/database.py:40-41 | Turns no-db mode on and changes nothing else. |
| Database.Database.ResetMode | fild_db/database.py:43-44 | Turns no-db mode off and changes nothing else. |
| Database.Database.Add | fild_db/database.py:114 | The session's pending rows gain the row at the end. |
| Database.Database.Flush | fild_db/database.py:115 | Counts one flush. |
| Database.Database.Commit | fild_db/database.py:117 | Appends the pending rows to their tables in order, empties the session and counts one commit. |
| Database.Database.Materialise | fild_db/database.py:64-67 | The loop over the rows computes the records of `RecordDictsMeaning`. |
| Database.Database.FilterRecords | fild_db/database.py:73-79 | One query and its records are `Fetch` of the rows given. |
| Database.Database.GetRecordsNowait | fild_db/database.py:63-67 | One query over the rows the table holds now. |
| Database.Database.GetRecords | fild_db/database.py:69-86 | The poll prescribed by `PollFirstHit` and `PollTimesOut`. `sleep_seconds` and `timeout_seconds` are removed from the filters. The timeout error carries the effective timeout and the remaining keywords. A successful result is never empty. |
| Database.Database.GetRecord | fild_db/database.py:60-61 | The first record of the poll's result, or the poll's error. |
| Database.Database.Insert | fild_db/database.py:88-106 | In no-db mode it returns `None` and changes nothing. Otherwise the row, with the values the database fills in, is committed at the end of its table with one commit and no flush. The result is the record built from that row, or its `to_dict` error. |
| Database.Database.InsertRecords | fild_db/database.py:108-118 | In no-db mode it changes nothing. Otherwise it adds every record in order, with the values the database fills in for it, with one flush each. It then commits all of them with a single commit. |
| Database.Database.Delete | fild_db/database.py:120-139 | Removes the selected rows of the table with one commit, whatever the mode. An unknown keyword changes nothing. |
| Database.Database.Update | fild_db/database.py:141-155 | The table's rows become `Updated` under the selection, with one commit, whatever the mode. An unknown keyword changes nothing. |
| Database.Database.VerifyNoRecord | fild_db/database.py:163-167 | Succeeds exactly when no stored row meets the criteria and keywords. Otherwise it fails naming the table and the keywords. |
| Database.Database.VerifyNoRecordWithWait | fild_db/database.py:169-175 | The loop over the attempts computes `WaitAbsent`. |
| Database.Database.VerifyRecords | fild_db/database.py:185-201 | Compares the records' dicts in order. The target is named after the first actual record's table, else the first expected one's, else the empty name, followed by `" records"`. |

## Left out

- SQLAlchemy session mechanics (`refresh`, `make_transient`, `close`,
  `close_all`, query building) are foreign calls. The session is modelled
  only by its pending rows, flushes and commits.
- `cascade_delete` and `trunc_all_tables` run raw SQL or delegate to a
  client class that is not part of this model. `verify_record` only hands
  two values to `fild_compare.compare`. That comparison engine is not
  modelled. `VerifyRecords` returns the record dicts and the target name
  `compare` would receive. `rules` reaches `compare` unchanged and is not
  part of the model.
- Wall-clock time and sleeping inside `waiting.wait` are not modelled.
  Polling is given as the snapshots taken before the deadline, and
  `sleep_seconds` has no effect. The `waiting` library always makes a first
  attempt; the model also accepts an empty list of attempts, which is a
  timeout.
- Database.SelectRows: `order_by` is removed from the filters, but the
  ordering it asks for is not applied. Rows come in stored order.
- Database.Database.Insert: `to_table_record` and the values the database
  fills in on commit (keys, defaults) are not modelled. The filled-in
  values are the parameter `generated`.
- Database.Database.InsertRecords: likewise, each record's filled-in values
  are given with the record. `to_table_record` is not modelled.
- Store operations are assumed to succeed: in the model, `add`, `flush` and
  `commit` never fail. Two behaviours are therefore not modelled:
  - a row the database rejects, which makes `flush` or `commit` raise
    (database.py lines 96, 115 and 117);
  - the all-or-nothing visibility of an `insert_records` batch when one of
    its rows is rejected.
- Database.Database.Update: the keys of `new_values` are not checked against
  the table's columns.
- Model records hold the dict `to_dict` builds. The model classes'
  `with_values` from `fild.sdk` (field validation, defaults) is not part of
  this model. The same goes for the base `with_values` of `Array` and
  `Dictionary`, which the model represents as storing the value as given.
- The relational `DBJsonDict.with_values` is inherited from
  `fild_db/types/common.py`, which is not part of this model.
- MysqlTypes.DbBool.ToDb: Python's `int()` also parses a `str` or `bytes`
  holding an integer literal. The model treats those as a `TypeError`,
  like every other non-integer value.
- JSON floating-point numbers, `NaN` and `Infinity` are not modelled. Such
  text is a parse error in the model.
- Python's limit on the digits of an `int` converted to or from text is not
  modelled.
- Python strings can hold lone surrogates, and `json.loads` accepts a lone
  `\uD800`-style escape. A Dafny `char` cannot hold a surrogate, so the
  model reports such an escape as an error.
- Dictionary keys are strings only. `json.dumps` also converts `int`,
  `bool` and `None` keys, and that conversion is not modelled.
- Attribute names are assumed to be the ones `to_dict` reads, the column
  name after its two renames. `filter_by` is checked against those names.

What the code does, which the model follows:

- A `timeout_seconds` of 0 falls back to the default of 3 seconds. It does
  not mean a single attempt.
- `verify_no_record_with_wait` always waits the default timeout. It passes
  every keyword to the filter.
- No-db mode affects only `insert` and `insert_records`. `delete` and
  `update` still run.
- The mode is a per-instance field: `enable_no_db_mode` sets it on the
  instance.
- Column renaming exists only in the `to_dict` direction.
