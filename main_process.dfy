/** The main process: the file name of a capture, the `db:query` handler that
    turns a query message into SQL text with an ordered parameter list and
    shapes the rows it reads, and the signed-in user of the session. SQLite,
    hashing and id generation are parameters. */
module MainProcess {
  import opened Wrappers
  import opened Strings
  import opened JsValues
  import opened Ipc
  import Seqs
  import LocalDatabase
  import DbClient

  // ---------------------------------------------------------------- file names

  /** The local date and time fields of `new Date()`; `month` is
      `getMonth()`, counted from 0. */
  datatype LocalTime = LocalTime(year: nat, month: nat, day: nat, hours: nat, minutes: nat, seconds: nat)

  predicate ValidTime(t: LocalTime) {
    1000 <= t.year <= 9999 && t.month < 12 && 1 <= t.day <= 31
    && t.hours < 24 && t.minutes < 60 && t.seconds < 60
  }

  /** `timestampName`. */
  function TimestampName(t: LocalTime): string {
    NameOf(NatToDecimal(t.year), Pad2(t.month + 1), Pad2(t.day), Pad2(t.hours), Pad2(t.minutes), Pad2(t.seconds))
  }

  /** The template of `timestampName`, filled with the formatted fields. */
  function NameOf(y: string, mo: string, d: string, h: string, mi: string, s: string): string {
    "screenshot_" + y + "-" + mo + "-" + d + "_" + h + "-" + mi + "-" + s + ".png"
  }

  /** Where each field sits in the template when the fields have their usual widths. */
  lemma NameLayout(y: string, mo: string, d: string, h: string, mi: string, s: string)
    requires |y| == 4 && |mo| == 2 && |d| == 2 && |h| == 2 && |mi| == 2 && |s| == 2
    ensures var r := NameOf(y, mo, d, h, mi, s);
      && |r| == 34 && r[..11] == "screenshot_" && r[30..] == ".png"
      && r[15] == '-' && r[18] == '-' && r[21] == '_' && r[24] == '-' && r[27] == '-'
      && r[11..15] == y && r[16..18] == mo && r[19..21] == d
      && r[22..24] == h && r[25..27] == mi && r[28..30] == s
  {
    var r := NameOf(y, mo, d, h, mi, s);
    var head := "screenshot_" + y + "-" + mo + "-" + d + "_" + h + "-" + mi + "-";
    assert r == head + s + ".png";
    SliceOf(head, s, ".png");
    var front := "screenshot_" + y + "-" + mo + "-" + d + "_";
    assert head == front + h + ("-" + mi + "-");
    SliceOf(front, h, "-" + mi + "-");
    SliceOf(front + h + "-", mi, "-");
    assert front == "screenshot_" + y + ("-" + mo + "-") + d + "_";
    SliceOf("screenshot_", y, "-" + mo + "-" + d + "_");
    SliceOf("screenshot_" + y + "-", mo, "-" + d + "_");
    SliceOf("screenshot_" + y + "-" + mo + "-", d, "_");
  }

  /** The middle piece of a concatenation reads back at its offset. */
  lemma SliceOf(a: string, b: string, c: string)
    ensures (a + b + c)[|a|..|a| + |b|] == b
    ensures (a + b + c)[..|a|] == a && (a + b + c)[|a| + |b|..] == c
  {
  }

  /** The name has a fixed layout from which every field reads back: a
      four-digit year, then the 1-based month, the day, the hours, minutes
      and seconds, each as two digits. */
  lemma TimestampNameLayout(t: LocalTime)
    requires ValidTime(t)
    ensures var r := TimestampName(t);
      && |r| == 34 && r[..11] == "screenshot_" && r[30..] == ".png"
      && r[15] == '-' && r[18] == '-' && r[21] == '_' && r[24] == '-' && r[27] == '-'
      && AllDigits(r[11..15]) && DecimalValue(r[11..15]) == t.year
      && AllDigits(r[16..18]) && DecimalValue(r[16..18]) == t.month + 1
      && AllDigits(r[19..21]) && DecimalValue(r[19..21]) == t.day
      && AllDigits(r[22..24]) && DecimalValue(r[22..24]) == t.hours
      && AllDigits(r[25..27]) && DecimalValue(r[25..27]) == t.minutes
      && AllDigits(r[28..30]) && DecimalValue(r[28..30]) == t.seconds
  {
    DecimalLength(t.year, 4);
    DecimalLengthAtLeast(t.year, 3);
    DecimalRoundTrip(t.year);
    Pad2Length(t.month + 1); Pad2Value(t.month + 1);
    Pad2Length(t.day); Pad2Value(t.day);
    Pad2Length(t.hours); Pad2Value(t.hours);
    Pad2Length(t.minutes); Pad2Value(t.minutes);
    Pad2Length(t.seconds); Pad2Value(t.seconds);
    NameLayout(NatToDecimal(t.year), Pad2(t.month + 1), Pad2(t.day), Pad2(t.hours), Pad2(t.minutes), Pad2(t.seconds));
  }

  // ---------------------------------------------------------------- SQL text

  datatype Statement = Statement(sql: string, params: seq<Value>)

  /** `k = ?` for each key. */
  function Conditions(keys: seq<string>): (r: seq<string>)
    ensures |r| == |keys|
    ensures forall i :: 0 <= i < |keys| ==> r[i] == keys[i] + " = ?"
  {
    seq(|keys|, i requires 0 <= i < |keys| => keys[i] + " = ?")
  }

  /** `cols.map(() => '?')`. */
  function Marks(n: nat): (r: seq<string>)
    ensures |r| == n && forall i :: 0 <= i < n ==> r[i] == "?"
  {
    seq(n, _ => "?")
  }

  /** `SELECT * FROM t`, with ` WHERE k1 = ? AND …` only for a truthy `where`;
      the parameters are the `where` values in key order. */
  function SelectStatement(table: string, where: Value): Statement {
    if Truthy(where) then
      var fs := OwnFields(where);
      Statement("SELECT * FROM " + table + " WHERE " + Join(Conditions(Keys(fs)), " AND "), Values(fs))
    else Statement("SELECT * FROM " + table, [])
  }

  /** `INSERT INTO t (c1, …) VALUES (?, …)`: one column and one `?` per
      key of `data`, and the values of the encoded copy `d2` as parameters.
      `Object.keys` of `null` or `undefined` throws. */
  function InsertStatement(table: string, data: Value): (r: Result<Statement>)
    ensures r.Failure? <==> IsNullish(data)
    ensures r.Failure? ==> r.error == NullConversionError
  {
    match ObjectKeys(data)
    case Failure(e) => Failure(e)
    case Success(cols) =>
      Success(Statement(InsertSql(table, cols), Values(EncodedFields(Assign([], OwnFields(data)), true))))
  }

  /** `UPDATE t SET k = ?, …, updated_at = CURRENT_TIMESTAMP WHERE w = ? AND …`:
      the encoded data values, then the `where` values. The keys of `data`
      are read before those of `where`. */
  function UpdateStatement(table: string, data: Value, where: Value): (r: Result<Statement>)
    ensures r.Failure? <==> IsNullish(data) || IsNullish(where)
    ensures r.Failure? ==> r.error == NullConversionError
  {
    match ObjectKeys(data)
    case Failure(e) => Failure(e)
    case Success(dk) =>
      match ObjectKeys(where)
      case Failure(e) => Failure(e)
      case Success(wk) =>
        Success(Statement(UpdateSql(table, dk, wk),
          Values(EncodedFields(Assign([], OwnFields(data)), false)) + Values(OwnFields(where))))
  }

  function InsertSql(table: string, cols: seq<string>): string {
    "INSERT INTO " + table + " (" + Join(cols, ", ") + ") VALUES (" + Join(Marks(|cols|), ", ") + ")"
  }

  function UpdateSql(table: string, dk: seq<string>, wk: seq<string>): string {
    "UPDATE " + table + " SET " + Join(Conditions(dk), ", ")
      + ", updated_at = CURRENT_TIMESTAMP WHERE " + Join(Conditions(wk), " AND ")
  }

  function DeleteSql(table: string, wk: seq<string>): string {
    "DELETE FROM " + table + " WHERE " + Join(Conditions(wk), " AND ")
  }

  /** `DELETE FROM t WHERE w = ? AND …` with the `where` values. */
  function DeleteStatement(table: string, where: Value): (r: Result<Statement>)
    ensures r.Failure? <==> IsNullish(where)
    ensures r.Failure? ==> r.error == NullConversionError
  {
    match ObjectKeys(where)
    case Failure(e) => Failure(e)
    case Success(wk) =>
      Success(Statement(DeleteSql(table, wk), Values(OwnFields(where))))
  }

  // ---------------------------------------------------------------- placeholders

  /** The number of `?` placeholders in SQL text. */
  function Placeholders(sql: string): nat {
    Seqs.Count(sql, '?')
  }

  /** A piece without `?` adds no placeholder, on either side. */
  lemma MarkFree(a: string, b: string)
    ensures '?' !in a ==> Placeholders(a + b) == Placeholders(b)
    ensures '?' !in b ==> Placeholders(a + b) == Placeholders(a)
  {
    Seqs.CountConcat(a, b, '?');
    Seqs.CountPositive(a, '?');
    Seqs.CountPositive(b, '?');
  }

  lemma {:induction false} JoinPlaceholders(parts: seq<string>, sep: string, per: nat)
    requires '?' !in sep
    requires forall i :: 0 <= i < |parts| ==> Placeholders(parts[i]) == per
    ensures Placeholders(Join(parts, sep)) == per * |parts|
  {
    if |parts| > 1 {
      var rest := Join(parts[1..], sep);
      assert Placeholders(rest) == per * (|parts| - 1) by {
        JoinPlaceholders(parts[1..], sep, per);
      }
      assert Placeholders(parts[0] + sep) == per by {
        MarkFree(parts[0], sep);
      }
      assert Placeholders(Join(parts, sep)) == Placeholders(parts[0] + sep) + Placeholders(rest) by {
        assert Join(parts, sep) == parts[0] + sep + rest;
        Seqs.CountConcat(parts[0] + sep, rest, '?');
      }
      assert per * |parts| == per + per * (|parts| - 1);
    }
  }

  predicate NoMarkIn(keys: seq<string>) {
    forall i :: 0 <= i < |keys| ==> '?' !in keys[i]
  }

  /** `k = ?` has exactly one placeholder when `k` has none. */
  lemma ConditionPlaceholders(keys: seq<string>, sep: string)
    requires NoMarkIn(keys) && '?' !in sep
    ensures Placeholders(Join(Conditions(keys), sep)) == |keys|
  {
    var cs := Conditions(keys);
    forall i | 0 <= i < |keys| ensures Placeholders(cs[i]) == 1 {
      assert cs[i] == (keys[i] + " = ") + "?";
      MarkFree(keys[i] + " = ", "?");
    }
    JoinPlaceholders(cs, sep, 1);
  }

  lemma ColumnPlaceholders(cols: seq<string>)
    requires NoMarkIn(cols)
    ensures '?' !in Join(cols, ", ")
    ensures Placeholders(Join(Marks(|cols|), ", ")) == |cols|
  {
    forall i | 0 <= i < |cols| ensures Placeholders(cols[i]) == 0 {
      Seqs.CountPositive(cols[i], '?');
    }
    JoinPlaceholders(cols, ", ", 0);
    Seqs.CountPositive(Join(cols, ", "), '?');
    JoinPlaceholders(Marks(|cols|), ", ", 1);
  }

  /** With a table name and keys free of `?`, the select binds one
      parameter per placeholder. */
  lemma SelectPlaceholders(table: string, where: Value)
    requires '?' !in table && NoMarkIn(Keys(OwnFields(where)))
    ensures var st := SelectStatement(table, where);
      Placeholders(st.sql) == |st.params|
  {
    var s1 := "SELECT * FROM " + table;
    assert '?' !in s1;
    if Truthy(where) {
      var fs := OwnFields(where);
      assert '?' !in s1 + " WHERE ";
      MarkFree(s1 + " WHERE ", Join(Conditions(Keys(fs)), " AND "));
      ConditionPlaceholders(Keys(fs), " AND ");
    } else {
      Seqs.CountPositive(s1, '?');
    }
  }

  /** Spreading an object with distinct keys copies it. */
  lemma SpreadCopies(fs: seq<Field>)
    requires DistinctKeys(fs)
    ensures Assign([], fs) == fs
  {
    assert [] + fs == fs;
    AssignFresh([], fs);
  }

  lemma InsertSqlPlaceholders(table: string, cols: seq<string>)
    requires '?' !in table && NoMarkIn(cols)
    ensures Placeholders(InsertSql(table, cols)) == |cols|
  {
    ColumnPlaceholders(cols);
    var q := "INSERT INTO " + table + " (" + Join(cols, ", ") + ") VALUES (";
    var marks := Join(Marks(|cols|), ", ");
    assert '?' !in q;
    MarkFree(q, marks);
    MarkFree(q + marks, ")");
  }

  /** The insert carries one placeholder per key of `data` and as many
      parameters, the i-th being the i-th property of `data` as it is
      stored; the column list names those keys in the same order. */
  lemma InsertPlaceholders(table: string, data: Value)
    requires !IsNullish(data) && '?' !in table
    requires DistinctKeys(OwnFields(data)) && NoMarkIn(Keys(OwnFields(data)))
    ensures var st := InsertStatement(table, data).value; var fs := OwnFields(data);
      && Placeholders(st.sql) == |fs| == |st.params|
      && forall i :: 0 <= i < |fs| ==> st.params[i] == EncodeValue(fs[i].key, fs[i].val, true)
  {
    SpreadCopies(OwnFields(data));
    InsertSqlPlaceholders(table, Keys(OwnFields(data)));
  }

  lemma UpdateSqlPlaceholders(table: string, dk: seq<string>, wk: seq<string>)
    requires '?' !in table && NoMarkIn(dk) && NoMarkIn(wk)
    ensures Placeholders(UpdateSql(table, dk, wk)) == |dk| + |wk|
  {
    var p1 := "UPDATE " + table + " SET ";
    var setList := Join(Conditions(dk), ", ");
    var tail := ", updated_at = CURRENT_TIMESTAMP WHERE ";
    var wh := Join(Conditions(wk), " AND ");
    assert Placeholders(p1 + setList + tail) == |dk| by {
      assert '?' !in p1;
      ConditionPlaceholders(dk, ", ");
      MarkFree(p1, setList);
      MarkFree(p1 + setList, tail);
    }
    ConditionPlaceholders(wk, " AND ");
    Seqs.CountConcat(p1 + setList + tail, wh, '?');
    assert UpdateSql(table, dk, wk) == p1 + setList + tail + wh;
  }

  /** The update carries one placeholder per key of `data` and of `where`,
      and as many parameters: the stored data values (only `is_favorite`
      among the flags is converted), then the `where` values. */
  lemma UpdatePlaceholders(table: string, data: Value, where: Value)
    requires !IsNullish(data) && !IsNullish(where) && '?' !in table
    requires DistinctKeys(OwnFields(data)) && NoMarkIn(Keys(OwnFields(data))) && NoMarkIn(Keys(OwnFields(where)))
    ensures var st := UpdateStatement(table, data, where).value; var fs := OwnFields(data); var ws := OwnFields(where);
      && Placeholders(st.sql) == |fs| + |ws| == |st.params|
      && (forall i :: 0 <= i < |fs| ==> st.params[i] == EncodeValue(fs[i].key, fs[i].val, false))
      && st.params[|fs|..] == Values(ws)
  {
    SpreadCopies(OwnFields(data));
    UpdateSqlPlaceholders(table, Keys(OwnFields(data)), Keys(OwnFields(where)));
  }

  lemma DeleteSqlPlaceholders(table: string, wk: seq<string>)
    requires '?' !in table && NoMarkIn(wk)
    ensures Placeholders(DeleteSql(table, wk)) == |wk|
  {
    var p1 := "DELETE FROM " + table + " WHERE ";
    assert '?' !in p1;
    ConditionPlaceholders(wk, " AND ");
    MarkFree(p1, Join(Conditions(wk), " AND "));
  }

  /** The delete carries one placeholder and one parameter per `where` key. */
  lemma DeletePlaceholders(table: string, where: Value)
    requires !IsNullish(where) && '?' !in table && NoMarkIn(Keys(OwnFields(where)))
    ensures var st := DeleteStatement(table, where).value;
      Placeholders(st.sql) == |OwnFields(where)| == |st.params|
  {
    DeleteSqlPlaceholders(table, Keys(OwnFields(where)));
  }

  // ---------------------------------------------------------------- renderer queries as SQL

  /** The SQL a renderer `select(options)` runs depends on the table and the
      filter only: the order-by and paging values it sends are dropped. */
  lemma SelectPayloadStatement(table: string, opts: DbClient.SelectOptions, other: DbClient.SelectOptions)
    requires other.where == opts.where
    ensures var q := DbClient.SelectPayload(table, opts);
      SelectStatement(q.table, q.where) == SelectStatement(table, opts.where)
    ensures SelectStatement(table, DbClient.SelectPayload(table, opts).where)
      == SelectStatement(table, DbClient.SelectPayload(table, other).where)
  {
  }

  /** `select().eq(column, value)` runs `SELECT * FROM t WHERE column = ?`
      bound to that one value. */
  lemma EqQueryStatement(table: string, column: string, value: Value)
    ensures var q := DbClient.EqQuery(table, column, value);
      && q.table == table && q.operation == "select"
      && SelectStatement(q.table, q.where)
         == Statement("SELECT * FROM " + table + " WHERE " + column + " = ?", [value])
  {
  }

  /** `delete().eq(column, value)` runs `DELETE FROM t WHERE column = ?`
      bound to that one value; it never fails for want of a filter. */
  lemma DeleteQueryStatement(table: string, column: string, value: Value)
    ensures var q := DbClient.DeleteQuery(table, column, value);
      && q.table == table && q.operation == "delete"
      && DeleteStatement(q.table, q.where)
         == Success(Statement("DELETE FROM " + table + " WHERE " + column + " = ?", [value]))
  {
    var fs := [Field(column, value)];
    assert Keys(fs) == [column] && Values(fs) == [value];
    var p1 := "DELETE FROM " + table + " WHERE ";
    assert Join(Conditions([column]), " AND ") == column + " = ?";
    assert p1 + (column + " = ?") == p1 + column + " = ?";
    assert DeleteSql(table, [column]) == "DELETE FROM " + table + " WHERE " + column + " = ?";
  }

  /** `update(data).eq(column, value).select()` fails exactly when `data` is
      nullish. Otherwise it sets one column per key of `data` and filters on
      `column = ?`: the encoded data values come first and the filter value
      last. The renderer's reply echoes `data` with the query's error. */
  lemma UpdateSelectStatement(table: string, data: Value, column: string, value: Value, reply: Response)
    ensures var (q, r) := DbClient.UpdateSelect(table, data, column, value, reply);
      var st := UpdateStatement(q.table, q.data, q.where);
      && q.table == table && q.operation == "update"
      && (st.Success? <==> !IsNullish(data))
      && (st.Success? ==>
            && st.value.sql == "UPDATE " + table + " SET " + Join(Conditions(Keys(OwnFields(data))), ", ")
                 + ", updated_at = CURRENT_TIMESTAMP WHERE " + column + " = ?"
            && st.value.params[|st.value.params| - 1] == value)
      && r == Response(data, reply.error)
    ensures var (q, _) := DbClient.UpdateSelect(table, data, column, value, reply);
      var st := UpdateStatement(q.table, q.data, q.where); var fs := OwnFields(data);
      st.Success? && DistinctKeys(fs) ==>
        && |st.value.params| == |fs| + 1
        && forall i :: 0 <= i < |fs| ==> st.value.params[i] == EncodeValue(fs[i].key, fs[i].val, false)
  {
    if !IsNullish(data) {
      var fs := OwnFields(data);
      if DistinctKeys(fs) {
        SpreadCopies(fs);
      }
    }
  }



  /** How a written value is stored: truthy tag arrays as JSON text, and
      boolean flags as 1 or 0 (`is_archived` only on insert). */
  function EncodeValue(k: string, v: Value, archivedToo: bool): Value {
    if (k == "ai_tags" || k == "custom_tags") && Truthy(v) then Stringify(v)
    else if (k == "is_favorite" || (archivedToo && k == "is_archived")) && v.Bool? then Num(if v.b then 1 else 0)
    else v
  }

  /** Every field encoded in place. */
  function EncodedFields(fs: seq<Field>, archivedToo: bool): (r: seq<Field>)
    ensures |r| == |fs|
    ensures forall i :: 0 <= i < |fs| ==> r[i] == Field(fs[i].key, EncodeValue(fs[i].key, fs[i].val, archivedToo))
  {
    seq(|fs|, i requires 0 <= i < |fs| => Field(fs[i].key, EncodeValue(fs[i].key, fs[i].val, archivedToo)))
  }

  /** The fields with only key `k` encoded. */
  function EncodeKey(fs: seq<Field>, k: string, archivedToo: bool): (r: seq<Field>)
    ensures |r| == |fs| && Keys(r) == Keys(fs)
  {
    var r := seq(|fs|, i requires 0 <= i < |fs| => if fs[i].key == k then Field(k, EncodeValue(k, fs[i].val, archivedToo)) else fs[i]);
    assert forall i :: 0 <= i < |fs| ==> Keys(r)[i] == Keys(fs)[i];
    r
  }

  /** Writing the encoded value back under an existing key encodes that key in place. */
  lemma EncodePut(fs: seq<Field>, k: string, v: Value, archivedToo: bool)
    requires DistinctKeys(fs) && Get(Obj(fs), k) == v && !IsNullish(v)
    ensures Put(fs, k, EncodeValue(k, v, archivedToo)) == EncodeKey(fs, k, archivedToo)
    ensures DistinctKeys(EncodeKey(fs, k, archivedToo))
  {
    var i := KeyIndex(fs, k);
    assert fs[i].val == v by {
      LookupAt(fs, i);
    }
    var w := EncodeValue(k, v, archivedToo);
    PutReplaces(fs, k, w, i);
    EncodeKeyAt(fs, k, archivedToo, i);
    KeysDistinct(fs, EncodeKey(fs, k, archivedToo));
  }

  /** Where a key that is present sits. */
  lemma KeyIndex(fs: seq<Field>, k: string) returns (i: nat)
    requires DistinctKeys(fs) && !IsNullish(Get(Obj(fs), k))
    ensures i < |fs| && fs[i].key == k
    ensures forall j :: 0 <= j < i ==> fs[j].key != k
  {
    assert k in Keys(fs);
    i :| 0 <= i < |fs| && Keys(fs)[i] == k;
  }

  /** With distinct keys, encoding key `k` changes only the one field holding it. */
  lemma EncodeKeyAt(fs: seq<Field>, k: string, archivedToo: bool, i: nat)
    requires DistinctKeys(fs) && i < |fs| && fs[i].key == k
    ensures EncodeKey(fs, k, archivedToo) == fs[i := Field(k, EncodeValue(k, fs[i].val, archivedToo))]
  {
    var e := EncodeKey(fs, k, archivedToo);
    forall j | 0 <= j < |fs| ensures e[j] == fs[i := Field(k, EncodeValue(k, fs[i].val, archivedToo))][j] {
      if j != i {
        assert fs[j].key != k;
      }
    }
  }

  /** Leaving the fields alone is right when `k` is absent or its value does not change. */
  lemma EncodeSkip(fs: seq<Field>, k: string, archivedToo: bool)
    requires DistinctKeys(fs)
    requires var v := Get(Obj(fs), k);
      || ((k == "ai_tags" || k == "custom_tags") && !Truthy(v))
      || ((k == "is_favorite" || k == "is_archived") && !v.Bool?)
      || (k == "is_archived" && !archivedToo)
    ensures fs == EncodeKey(fs, k, archivedToo)
    ensures DistinctKeys(EncodeKey(fs, k, archivedToo))
  {
    var e := EncodeKey(fs, k, archivedToo);
    forall i | 0 <= i < |fs| ensures fs[i] == e[i] {
      if fs[i].key == k {
        LookupAt(fs, i);
      }
    }
  }

  lemma KeysDistinct(a: seq<Field>, b: seq<Field>)
    requires DistinctKeys(a) && Keys(a) == Keys(b)
    ensures DistinctKeys(b)
  {
    forall i, j | 0 <= i < j < |b| ensures b[i].key != b[j].key {
      assert b[i].key == Keys(b)[i] == a[i].key;
      assert b[j].key == Keys(b)[j] == a[j].key;
    }
  }

  /** Encoding the four columns one after the other encodes every field. */
  lemma EncodeInOrder(d1: seq<Field>, archivedToo: bool)
    ensures EncodedFields(d1, archivedToo)
      == EncodeKey(EncodeKey(EncodeKey(EncodeKey(d1, "ai_tags", archivedToo), "custom_tags", archivedToo), "is_favorite", archivedToo), "is_archived", archivedToo)
  {
  }

  /** `const d2 = { ...data }` followed by the in-place conversions of the
      insert (`archivedToo`) or the update branch. */
  method EncodeColumns(data: Value, archivedToo: bool) returns (d2: seq<Field>)
    ensures d2 == EncodedFields(Assign([], OwnFields(data)), archivedToo)
  {
    var d1 := Assign([], OwnFields(data));
    AssignDistinct([], OwnFields(data));
    d2 := EncodeTagColumns(d1, archivedToo);
    d2 := EncodeFlagColumns(d2, archivedToo);
    EncodeInOrder(d1, archivedToo);
  }

  /** `if (d2.ai_tags) d2.ai_tags = JSON.stringify(d2.ai_tags)`, then the same for `custom_tags`. */
  method EncodeTagColumns(d1: seq<Field>, archivedToo: bool) returns (d2: seq<Field>)
    requires DistinctKeys(d1)
    ensures d2 == EncodeKey(EncodeKey(d1, "ai_tags", archivedToo), "custom_tags", archivedToo)
    ensures DistinctKeys(d2)
  {
    d2 := d1;
    var ai := Get(Obj(d2), "ai_tags");
    if Truthy(ai) {
      EncodePut(d2, "ai_tags", ai, archivedToo);
      d2 := Put(d2, "ai_tags", Stringify(ai));
    } else {
      EncodeSkip(d2, "ai_tags", archivedToo);
    }
    var ct := Get(Obj(d2), "custom_tags");
    if Truthy(ct) {
      EncodePut(d2, "custom_tags", ct, archivedToo);
      d2 := Put(d2, "custom_tags", Stringify(ct));
    } else {
      EncodeSkip(d2, "custom_tags", archivedToo);
    }
  }

  /** A boolean `is_favorite` (and, on insert, `is_archived`) becomes 1 or 0. */
  method EncodeFlagColumns(d1: seq<Field>, archivedToo: bool) returns (d2: seq<Field>)
    requires DistinctKeys(d1)
    ensures d2 == EncodeKey(EncodeKey(d1, "is_favorite", archivedToo), "is_archived", archivedToo)
  {
    var e := EncodeFavorite(d1, archivedToo);
    d2 := EncodeArchivedColumn(e, archivedToo);
  }

  method EncodeFavorite(d1: seq<Field>, archivedToo: bool) returns (d2: seq<Field>)
    requires DistinctKeys(d1)
    ensures d2 == EncodeKey(d1, "is_favorite", archivedToo)
    ensures DistinctKeys(d2)
  {
    var fav := Get(Obj(d1), "is_favorite");
    if fav.Bool? {
      EncodePut(d1, "is_favorite", fav, archivedToo);
      d2 := Put(d1, "is_favorite", Num(if fav.b then 1 else 0));
    } else {
      EncodeSkip(d1, "is_favorite", archivedToo);
      d2 := d1;
    }
  }

  method EncodeArchivedColumn(d1: seq<Field>, archivedToo: bool) returns (d2: seq<Field>)
    requires DistinctKeys(d1)
    ensures d2 == EncodeKey(d1, "is_archived", archivedToo)
  {
    d2 := d1;
    if archivedToo {
      var arch := Get(Obj(d1), "is_archived");
      if arch.Bool? {
        EncodePut(d1, "is_archived", arch, archivedToo);
        d2 := Put(d1, "is_archived", Num(if arch.b then 1 else 0));
      } else {
        EncodeArchived(d1, archivedToo);
      }
    } else {
      EncodeArchived(d1, archivedToo);
    }
  }

  /** Without the insert's conversion, or with a non-boolean value, `is_archived` stays as it is. */
  lemma EncodeArchived(fs: seq<Field>, archivedToo: bool)
    requires DistinctKeys(fs)
    requires !archivedToo || !Get(Obj(fs), "is_archived").Bool?
    ensures fs == EncodeKey(fs, "is_archived", archivedToo)
  {
    EncodeSkip(fs, "is_archived", archivedToo);
  }

  /** In a field list with distinct keys, looking up the key at `i` finds the value at `i`. */
  lemma {:induction false} LookupAt(fs: seq<Field>, i: nat)
    requires i < |fs|
    requires DistinctKeys(fs) || forall j :: 0 <= j < i ==> fs[j].key != fs[i].key
    ensures Lookup(fs, fs[i].key) == Some(fs[i].val)
  {
    if i > 0 {
      LookupAt(fs[1..], i - 1);
    }
  }

  lemma {:induction false} AssignDistinct(base: seq<Field>, src: seq<Field>)
    requires DistinctKeys(base)
    ensures DistinctKeys(Assign(base, src))
    decreases |src|
  {
    if src != [] {
      var b' := Put(base, src[0].key, src[0].val);
      PutKeys(base, src[0].key, src[0].val);
      assert forall i :: 0 <= i < |b'| ==> b'[i].key == Keys(b')[i];
      AssignDistinct(b', src[1..]);
    }
  }

  // ---------------------------------------------------------------- rows read

  /** `row.ai_tags ? JSON.parse(row.ai_tags) : []`. */
  function DecodeTags(v: Value): (r: Result<Value>)
    ensures !Truthy(v) ==> r == Success(Arr([]))
    ensures Truthy(v) ==> r == Parse(v)
  {
    if Truthy(v) then Parse(v) else Success(Arr([]))
  }

  /** A tag array written by insert or update reads back as the same array. */
  lemma TagsRoundTrip(k: string, tags: seq<Value>, archivedToo: bool)
    requires k == "ai_tags" || k == "custom_tags"
    ensures DecodeTags(EncodeValue(k, Arr(tags), archivedToo)) == Success(Arr(tags))
  {
  }

  /** A boolean flag written as 1 or 0 reads back as the same boolean. */
  lemma FlagRoundTrip(b: bool)
    ensures Bool(Truthy(EncodeValue("is_favorite", Bool(b), false))) == Bool(b)
    ensures Bool(Truthy(EncodeValue("is_archived", Bool(b), true))) == Bool(b)
  {
  }

  /** The columns the select rewrites. */
  const NormalizedColumns: seq<string> := ["ai_tags", "custom_tags", "is_favorite", "is_archived", "onboarding_completed"]

  /** `{ ...row, ai_tags: …, custom_tags: …, is_favorite: !!row.is_favorite,
      is_archived: …, onboarding_completed: … }`; `JSON.parse` of text that is
      not JSON throws. */
  function NormalizeRow(row: seq<Field>): (r: Result<seq<Field>>)
    ensures r.Failure? <==> DecodeTags(Get(Obj(row), "ai_tags")).Failure? || DecodeTags(Get(Obj(row), "custom_tags")).Failure?
    ensures r.Failure? ==> r.error == JsonParseError
  {
    var o := Obj(row);
    var ai := DecodeTags(Get(o, "ai_tags"));
    var ct := DecodeTags(Get(o, "custom_tags"));
    if ai.Failure? then Failure(ai.error)
    else if ct.Failure? then Failure(ct.error)
    else Success(Assign(Assign([], row), RowOverrides(row, ai.value, ct.value)))
  }

  function RowOverrides(row: seq<Field>, ai: Value, ct: Value): (r: seq<Field>)
    ensures Keys(r) == NormalizedColumns
  {
    var o := Obj(row);
    [Field("ai_tags", ai), Field("custom_tags", ct),
     Field("is_favorite", Bool(Truthy(Get(o, "is_favorite")))),
     Field("is_archived", Bool(Truthy(Get(o, "is_archived")))),
     Field("onboarding_completed", Bool(Truthy(Get(o, "onboarding_completed"))))]
  }

  /** The overrides of a row whose tag columns decode. */
  function Overrides(row: seq<Field>): seq<Field>
    requires DecodeTags(Get(Obj(row), "ai_tags")).Success? && DecodeTags(Get(Obj(row), "custom_tags")).Success?
  {
    RowOverrides(row, DecodeTags(Get(Obj(row), "ai_tags")).value, DecodeTags(Get(Obj(row), "custom_tags")).value)
  }

  lemma NormalizeRowShape(row: seq<Field>)
    requires DistinctKeys(row) && NormalizeRow(row).Success?
    ensures NormalizeRow(row).value == Assign(row, Overrides(row))
  {
    SpreadCopies(row);
  }

  lemma NormalizedColumnsDistinct()
    ensures Seqs.NoDuplicates(NormalizedColumns)
  {
  }

  lemma OverridesDistinct(row: seq<Field>)
    requires DecodeTags(Get(Obj(row), "ai_tags")).Success? && DecodeTags(Get(Obj(row), "custom_tags")).Success?
    ensures DistinctKeys(Overrides(row)) && Keys(Overrides(row)) == NormalizedColumns
  {
    var extra := Overrides(row);
    NormalizedColumnsDistinct();
    forall i, j | 0 <= i < j < |extra| ensures extra[i].key != extra[j].key {
      assert extra[i].key == Keys(extra)[i] && extra[j].key == Keys(extra)[j];
    }
  }

  /** What each override holds. */
  lemma OverridesLookup(row: seq<Field>, k: string)
    requires DecodeTags(Get(Obj(row), "ai_tags")).Success? && DecodeTags(Get(Obj(row), "custom_tags")).Success?
    requires k in NormalizedColumns
    ensures k == "ai_tags" || k == "custom_tags" ==> Lookup(Overrides(row), k) == Some(DecodeTags(Get(Obj(row), k)).value)
    ensures k != "ai_tags" && k != "custom_tags" ==> Lookup(Overrides(row), k) == Some(Bool(Truthy(Get(Obj(row), k))))
  {
    var extra := Overrides(row);
    OverridesDistinct(row);
    var i :| 0 <= i < |NormalizedColumns| && NormalizedColumns[i] == k;
    assert extra[i].key == Keys(extra)[i] == k;
    LookupAt(extra, i);
  }

  /** A normalised row keeps every column of the row in its place, and a
      rewritten column the row lacks is added after the row's own columns. */
  lemma NormalizeRowKeys(row: seq<Field>)
    requires DistinctKeys(row) && NormalizeRow(row).Success?
    ensures var r := NormalizeRow(row).value;
      |row| <= |r| && Keys(r)[..|row|] == Keys(row)
  {
    NormalizeRowShape(row);
    AssignKeysPrefix(row, Overrides(row));
  }

  /** Every column but the five rewritten ones passes through unchanged;
      the tag columns are decoded (or `[]`), the flags are booleans by
      truthiness. */
  lemma NormalizeRowSpec(row: seq<Field>, k: string)
    requires DistinctKeys(row) && NormalizeRow(row).Success?
    ensures var r := NormalizeRow(row).value; var o := Obj(row);
      && (k !in NormalizedColumns ==> Lookup(r, k) == Lookup(row, k))
      && (k == "ai_tags" || k == "custom_tags" ==> Lookup(r, k) == Some(DecodeTags(Get(o, k)).value))
      && (k == "is_favorite" || k == "is_archived" || k == "onboarding_completed" ==> Lookup(r, k) == Some(Bool(Truthy(Get(o, k)))))
  {
    var extra := Overrides(row);
    NormalizeRowShape(row);
    OverridesDistinct(row);
    if k in NormalizedColumns {
      AssignLookup(row, extra, k);
      OverridesLookup(row, k);
    } else {
      AssignUntouched(row, extra, k);
    }
  }

  /** `rows.map(normalise)`: the first row that throws aborts the select. */
  function NormalizeRows(rows: seq<seq<Field>>): (r: Result<seq<Value>>)
    ensures r.Success? <==> forall i :: 0 <= i < |rows| ==> NormalizeRow(rows[i]).Success?
    ensures r.Success? ==>
      |r.value| == |rows| && forall i :: 0 <= i < |rows| ==> r.value[i] == Obj(NormalizeRow(rows[i]).value)
    ensures r.Failure? ==> r.error == JsonParseError
  {
    if rows == [] then Success([])
    else
      var head := NormalizeRow(rows[0]);
      var tail := NormalizeRows(rows[1..]);
      if head.Failure? then Failure(head.error)
      else if tail.Failure? then Failure(tail.error)
      else Success([Obj(head.value)] + tail.value)
  }

  // ---------------------------------------------------------------- db:query

  /** `{ data, error: null }` on success, `{ data: null, error: message }`
      on a thrown error. */
  function Reply(res: Result<Value>): (r: Response)
    ensures res.Success? ==> r == Response(res.value, None)
    ensures res.Failure? ==> r == Response(Null, Some(res.error))
  {
    match res
    case Success(v) => Response(v, None)
    case Failure(e) => Response(Null, Some(e))
  }

  /** What a select answers given the outcome of running it. */
  function SelectResult(ran: Result<seq<seq<Field>>>): (r: Result<Value>)
    ensures ran.Failure? ==> r == Failure(ran.error)
    ensures ran.Success? && NormalizeRows(ran.value).Success? ==> r == Success(Arr(NormalizeRows(ran.value).value))
    ensures ran.Success? && NormalizeRows(ran.value).Failure? ==> r == Failure(JsonParseError)
  {
    match ran
    case Failure(e) => Failure(e)
    case Success(rows) =>
      match NormalizeRows(rows)
      case Failure(e) => Failure(e)
      case Success(vs) => Success(Arr(vs))
  }

  /** A write answers `ok` unless running it threw. */
  function WriteResult(ran: Result<seq<seq<Field>>>, ok: Value): (r: Result<Value>)
    ensures ran.Failure? ==> r == Failure(ran.error)
    ensures ran.Success? ==> r == Success(ok)
  {
    match ran
    case Failure(e) => Failure(e)
    case Success(_) => Success(ok)
  }

  const InvalidOperation := "Invalid operation"

  /** The `db:query` handler. Only `table`, `operation`, `data` and `where`
      are read from the message; `orderBy`, `limit` and `offset` are
      ignored. `dbOpen` says whether the connection exists; `exec` stands for
      preparing and running a statement: the rows it reads, or the message
      of the error SQLite throws. `ran` is the statement run, if any. */
  method HandleDbQuery(q: Query, dbOpen: bool, exec: Statement -> Result<seq<seq<Field>>>)
    returns (ran: Option<Statement>, reply: Response)
    ensures !dbOpen ==> ran == None && reply == Response(Null, Some(LocalDatabase.NotInitialized))
    ensures dbOpen && q.operation == "select" ==>
      var st := SelectStatement(q.table, q.where);
      ran == Some(st) && reply == Reply(SelectResult(exec(st)))
    ensures dbOpen && q.operation == "insert" ==>
      var st := InsertStatement(q.table, q.data);
      && (st.Failure? ==> ran == None && reply == Response(Null, Some(NullConversionError)))
      && (st.Success? ==>
            ran == Some(st.value) && reply == Reply(WriteResult(exec(st.value), Obj([Field("id", Get(q.data, "id"))]))))
    ensures dbOpen && q.operation == "update" ==>
      var st := UpdateStatement(q.table, q.data, q.where);
      && (st.Failure? ==> ran == None && reply == Response(Null, Some(NullConversionError)))
      && (st.Success? ==> ran == Some(st.value) && reply == Reply(WriteResult(exec(st.value), Bool(true))))
    ensures dbOpen && q.operation == "delete" ==>
      var st := DeleteStatement(q.table, q.where);
      && (st.Failure? ==> ran == None && reply == Response(Null, Some(NullConversionError)))
      && (st.Success? ==> ran == Some(st.value) && reply == Reply(WriteResult(exec(st.value), Bool(true))))
    ensures dbOpen && q.operation !in ["select", "insert", "update", "delete"] ==>
      ran == None && reply == Response(Null, Some(InvalidOperation))
  {
    ran := None;
    if !dbOpen {
      reply := Response(Null, Some(LocalDatabase.NotInitialized));
      return;
    }
    if q.operation == "select" {
      var st := SelectStatement(q.table, q.where);
      ran := Some(st);
      reply := Reply(SelectResult(exec(st)));
      return;
    }
    if q.operation == "insert" {
      var cols := ObjectKeys(q.data);
      if cols.Failure? {
        reply := Response(Null, Some(cols.error));
        return;
      }
      var d2 := EncodeColumns(q.data, true);
      var st := Statement(InsertSql(q.table, cols.value), Values(d2));
      ran := Some(st);
      reply := Reply(WriteResult(exec(st), Obj([Field("id", Get(q.data, "id"))])));
      return;
    }
    if q.operation == "update" {
      var dk := ObjectKeys(q.data);
      if dk.Failure? {
        reply := Response(Null, Some(dk.error));
        return;
      }
      var wk := ObjectKeys(q.where);
      if wk.Failure? {
        reply := Response(Null, Some(wk.error));
        return;
      }
      var d2 := EncodeColumns(q.data, false);
      var st := Statement(UpdateSql(q.table, dk.value, wk.value), Values(d2) + Values(OwnFields(q.where)));
      ran := Some(st);
      reply := Reply(WriteResult(exec(st), Bool(true)));
      return;
    }
    if q.operation == "delete" {
      var wk := ObjectKeys(q.where);
      if wk.Failure? {
        reply := Response(Null, Some(wk.error));
        return;
      }
      var st := Statement(DeleteSql(q.table, wk.value), Values(OwnFields(q.where)));
      ran := Some(st);
      reply := Reply(WriteResult(exec(st), Bool(true)));
      return;
    }
    reply := Response(Null, Some(InvalidOperation));
  }

  // ---------------------------------------------------------------- session

  /** The `{ user, error }` reply of the auth handlers. */
  datatype AuthReply = AuthReply(user: Value, error: Option<string>)

  const InvalidCredentials := "Invalid email or password"

  /** The three statements of the auth handlers, by what they do and what
      they bind: the insert of a new user row (id, email, password hash),
      the read of the user's public columns by id, and the same read by
      email and password hash. */
  datatype AuthStatement =
    | InsertUser(id: string, email: string, passwordHash: string)
    | UserById(userId: string)
    | UserByCredentials(loginEmail: string, loginHash: string)

  /** The main process's `currentUser`. `hash` stands for SHA-256 in hex,
      `id` for a fresh `crypto.randomUUID()`; the outcomes of the SQLite
      calls are parameters. */
  class Session {
    /** The signed-in user's row, or `null`. */
    var currentUser: Value

    constructor()
      ensures currentUser == Null
    {
      currentUser := Null;
    }

    /** `auth:sign-up`: insert the user, read the row back and sign it in.
        `inserted` is the error the insert throws, if any; `fetched` the
        row read back (`undefined` when there is none) or the error. */
    method SignUp(email: string, password: string, id: string, hash: string -> string, dbOpen: bool,
                  inserted: Option<string>, fetched: Result<Value>)
      returns (issued: seq<AuthStatement>, reply: AuthReply)
      modifies this
      ensures !dbOpen ==> issued == [] && reply == AuthReply(Null, Some(LocalDatabase.NotInitialized))
      ensures dbOpen && inserted.Some? ==> issued == [InsertUser(id, email, hash(password))] && reply == AuthReply(Null, inserted)
      ensures dbOpen && inserted.None? ==> issued == [InsertUser(id, email, hash(password)), UserById(id)]
      ensures dbOpen && inserted.None? && fetched.Failure? ==> reply == AuthReply(Null, Some(fetched.error))
      ensures dbOpen && inserted.None? && fetched.Success? ==> reply == AuthReply(fetched.value, None) && currentUser == fetched.value
      ensures !(dbOpen && inserted.None? && fetched.Success?) ==> currentUser == old(currentUser)
    {
      if !dbOpen {
        return [], AuthReply(Null, Some(LocalDatabase.NotInitialized));
      }
      var insert := InsertUser(id, email, hash(password));
      if inserted.Some? {
        return [insert], AuthReply(Null, inserted);
      }
      issued := [insert, UserById(id)];
      if fetched.Failure? {
        return issued, AuthReply(Null, Some(fetched.error));
      }
      currentUser := fetched.value;
      reply := AuthReply(fetched.value, None);
    }

    /** `auth:sign-in`: look the user up by email and password hash; `found`
        is the row (`undefined` when none matches) or the error thrown. */
    method SignIn(email: string, password: string, hash: string -> string, dbOpen: bool, found: Result<Value>)
      returns (issued: Option<AuthStatement>, reply: AuthReply)
      modifies this
      ensures !dbOpen ==> issued == None && reply == AuthReply(Null, Some(LocalDatabase.NotInitialized))
      ensures dbOpen ==> issued == Some(UserByCredentials(email, hash(password)))
      ensures dbOpen && found.Failure? ==> reply == AuthReply(Null, Some(found.error))
      ensures dbOpen && found.Success? && !Truthy(found.value) ==> reply == AuthReply(Null, Some(InvalidCredentials))
      ensures dbOpen && found.Success? && Truthy(found.value) ==> reply == AuthReply(found.value, None) && currentUser == found.value
      ensures !(dbOpen && found.Success? && Truthy(found.value)) ==> currentUser == old(currentUser)
    {
      if !dbOpen {
        return None, AuthReply(Null, Some(LocalDatabase.NotInitialized));
      }
      issued := Some(UserByCredentials(email, hash(password)));
      if found.Failure? {
        return issued, AuthReply(Null, Some(found.error));
      }
      if !Truthy(found.value) {
        return issued, AuthReply(Null, Some(InvalidCredentials));
      }
      currentUser := found.value;
      reply := AuthReply(found.value, None);
    }

    /** `auth:sign-out`. */
    method SignOut() returns (error: Option<string>)
      modifies this
      ensures currentUser == Null && error == None
    {
      currentUser := Null;
      error := None;
    }

    /** `auth:get-session`. */
    method GetSession() returns (user: Value)
      ensures user == currentUser
    {
      user := currentUser;
    }
  }
}
