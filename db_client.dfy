/** The renderer's database wrapper: it turns builder calls into `db:query`
    messages and shapes the replies. The main process answers each message;
    its reply is a parameter here. */
module DbClient {
  import opened Wrappers
  import opened Strings
  import opened JsValues
  import opened Ipc

  datatype Direction = Asc | Desc

  /** The `orderBy` option: `column`, `direction` and `ascending`, each of
      which may be absent. */
  datatype OrderByOpt = OrderByOpt(column: Option<string>, direction: Option<string>, ascending: Option<bool>)

  datatype SelectOptions = SelectOptions(where: Value, orderBy: Option<OrderByOpt>, limit: Value, offset: Value)

  /** An explicit, non-empty `direction` string. */
  predicate HasDirection(ob: OrderByOpt) {
    ob.direction.Some? && ob.direction.value != []
  }

  /** `normalizeDirection`: an explicit direction wins and is read without
      regard to case, anything but "asc"/"desc" meaning descending; then a
      boolean `ascending`; then descending. Nothing without an `orderBy`.
      (Only the ASCII letters can lower-case onto "asc" or "desc", so the
      ASCII case mapping decides the same as the full one here.) */
  function NormalizeDirection(o: Option<OrderByOpt>): (r: Option<Direction>)
    ensures r.None? <==> o.None?
  {
    if o.None? then None
    else if HasDirection(o.value) then
      var d := ToLower(o.value.direction.value);
      if d == "asc" || d == "desc" then Some(if d == "asc" then Asc else Desc) else Some(Desc)
    else if o.value.ascending.Some? then Some(if o.value.ascending.value then Asc else Desc)
    else Some(Desc)
  }

  /** An explicit direction takes precedence over `ascending`. */
  lemma ExplicitDirectionWins(ob: OrderByOpt, asc: Option<bool>)
    requires HasDirection(ob)
    ensures NormalizeDirection(Some(ob)) == NormalizeDirection(Some(ob.(ascending := asc)))
  {
  }

  /** The explicit direction is read case-insensitively, and only "asc"
      gives ascending order. */
  lemma DirectionIgnoresCase(ob: OrderByOpt)
    requires HasDirection(ob)
    ensures NormalizeDirection(Some(ob)) == Some(Asc) <==> ToLower(ob.direction.value) == "asc"
    ensures NormalizeDirection(Some(ob.(direction := Some("ASC")))) == Some(Asc)
    ensures NormalizeDirection(Some(ob.(direction := Some("up")))) == Some(Desc)
  {
    assert ToLower("ASC") == "asc";
    assert ToLower("up") == "up";
  }

  /** Without an explicit direction a boolean `ascending` decides, and the
      default is descending. */
  lemma AscendingFallback(ob: OrderByOpt)
    requires !HasDirection(ob)
    ensures NormalizeDirection(Some(ob)) == Some(Asc) <==> ob.ascending == Some(true)
    ensures ob.ascending.None? ==> NormalizeDirection(Some(ob)) == Some(Desc)
  {
  }

  /** `toIPCOrderBy`: nothing for a missing or empty column; otherwise the
      trimmed column and the upper-cased direction. */
  function ToIpcOrderBy(o: Option<OrderByOpt>): (r: Option<OrderSpec>)
    ensures r.None? <==> o.None? || o.value.column.None? || o.value.column.value == []
    ensures r.Some? ==> r.value.column == Trim(o.value.column.value)
    ensures r.Some? ==> r.value.direction == "ASC" || r.value.direction == "DESC"
  {
    if o.None? || o.value.column.None? || o.value.column.value == [] then None
    else
      var d := NormalizeDirection(o);
      Some(OrderSpec(Trim(o.value.column.value), if d == Some(Asc) then "ASC" else "DESC"))
  }

  lemma IpcDirectionAgrees(o: Option<OrderByOpt>)
    requires ToIpcOrderBy(o).Some?
    ensures ToIpcOrderBy(o).value.direction == "ASC" <==> NormalizeDirection(o) == Some(Asc)
  {
  }

  /** `select(options)`: the immediate query. */
  function SelectPayload(table: string, opts: SelectOptions): (q: Query)
    ensures q.operation == "select" && q.table == table && q.where == opts.where
    ensures q.orderBy == ToIpcOrderBy(opts.orderBy)
    ensures q.limit == opts.limit && q.offset == opts.offset
  {
    Query(table, "select", Undefined, opts.where, ToIpcOrderBy(opts.orderBy), opts.limit, opts.offset)
  }

  /** `select().eq(column, value)`: the query behind `all`, `maybeSingle` and `single`. */
  function EqQuery(table: string, column: string, value: Value): (q: Query)
    ensures q.operation == "select" && q.where == WhereEq(column, value) && q.orderBy.None?
  {
    Query(table, "select", Undefined, WhereEq(column, value), None, Undefined, Undefined)
  }

  /** The reply holds an array whose first row is present (not nullish). */
  predicate HasFirst(reply: Response) {
    reply.data.Arr? && reply.data.items != [] && !IsNullish(reply.data.items[0])
  }

  /** The reply holds an array whose first row is truthy. */
  predicate TruthyFirst(reply: Response) {
    reply.data.Arr? && reply.data.items != [] && Truthy(reply.data.items[0])
  }

  /** `maybeSingle`: the first row, or `null` when there is none; the error
      is passed through. */
  function MaybeSingle(reply: Response): (r: Response)
    ensures r.error == reply.error
    ensures HasFirst(reply) ==> r.data == reply.data.items[0]
    ensures !HasFirst(reply) ==> r.data == Null
  {
    var first := if reply.data.Arr? && reply.data.items != [] then reply.data.items[0] else Undefined;
    Response(OrElse(first, Null), reply.error)
  }

  const NoRowsFound := "No rows found"

  /** `single`: the first row; without a truthy first row, `null` data and the
      query error, or "No rows found" when there was none. */
  function Single(reply: Response): (r: Response)
    ensures TruthyFirst(reply) ==> r == Response(reply.data.items[0], reply.error)
    ensures !TruthyFirst(reply) ==>
      r.data == Null && r.error == Some(if reply.error.Some? then reply.error.value else NoRowsFound)
  {
    if !reply.data.Arr? || reply.data.items == [] || !Truthy(reply.data.items[0]) then
      Response(Null, Some(if reply.error.Some? then reply.error.value else NoRowsFound))
    else Response(reply.data.items[0], reply.error)
  }

  /** `single` gives a row exactly when the first row is truthy, and then
      agrees with `maybeSingle`; otherwise it always reports an error, the
      query's own one when there was one. A first row that is present but
      falsy (`0`, `""`, `false`) is returned by `maybeSingle` and refused by
      `single`. */
  lemma SingleAgreesWithMaybeSingle(reply: Response)
    ensures Single(reply).data != Null <==> TruthyFirst(reply)
    ensures Single(reply).data != Null ==> Single(reply) == MaybeSingle(reply)
    ensures Single(reply).data == Null ==> Single(reply).error.Some?
    ensures Single(reply).data == Null ==> Single(reply).error == if reply.error.Some? then reply.error else Some(NoRowsFound)
    ensures HasFirst(reply) && !TruthyFirst(reply) ==>
      MaybeSingle(reply).data == reply.data.items[0] && Single(reply).data == Null
  {
  }

  /** `order(column, options).limit(count)`. */
  function OrderLimitQuery(table: string, column: string, options: Value, count: Value): (q: Query)
    ensures q.operation == "select" && q.limit == count && q.where == Undefined
    ensures q.orderBy.Some? && q.orderBy.value.column == column
  {
    var dir := if Truthy(Get(options, "ascending")) then "asc" else "desc";
    Query(table, "select", Undefined, Undefined, Some(OrderSpec(column, dir)), count, Undefined)
  }

  lemma OrderLimitDirection(table: string, column: string, options: Value, count: Value)
    ensures OrderLimitQuery(table, column, options, count).orderBy.value.direction == "asc"
      <==> options.Obj? && Lookup(options.fields, "ascending").Some? && Truthy(Lookup(options.fields, "ascending").value)
    ensures IsNullish(options) ==> OrderLimitQuery(table, column, options, count).orderBy.value.direction == "desc"
  {
  }

  /** `update(data).eq(column, value).select()`: the query sent, and the reply
      that echoes `data` with the query's error. */
  function UpdateSelect(table: string, data: Value, column: string, value: Value, reply: Response): (r: (Query, Response))
    ensures r.0.operation == "update" && r.0.data == data && r.0.where == WhereEq(column, value)
    ensures r.1.data == data && r.1.error == reply.error
  {
    (Query(table, "update", data, WhereEq(column, value), None, Undefined, Undefined), Response(data, reply.error))
  }

  /** `delete().eq(column, value)`. */
  function DeleteQuery(table: string, column: string, value: Value): (q: Query)
    ensures q.operation == "delete" && q.where == WhereEq(column, value) && q.data == Undefined
  {
    Query(table, "delete", Undefined, WhereEq(column, value), None, Undefined, Undefined)
  }

  /** `{ id: v?.id ?? genId, ...v }`. */
  function WithId(v: Value, genId: string): Value {
    Obj(Assign([Field("id", OrElse(Get(v, "id"), Str(genId)))], OwnFields(v)))
  }

  /** The id an item ends up with: its own `id` property if it has one
      (even a `null` one, since the spread comes last), otherwise the
      generated id. Its other properties keep their values. */
  lemma WithIdSpec(v: Value, genId: string, k: string)
    requires v.Obj? ==> DistinctKeys(v.fields)
    ensures Keys(WithId(v, genId).fields)[0] == "id"
    ensures Lookup(WithId(v, genId).fields, "id")
      == if v.Obj? && "id" in Keys(v.fields) then Lookup(v.fields, "id") else Some(Str(genId))
    ensures v.Obj? && k != "id" ==> Lookup(WithId(v, genId).fields, k) == Lookup(v.fields, k)
  {
    var base := [Field("id", OrElse(Get(v, "id"), Str(genId)))];
    var src := OwnFields(v);
    AssignKeysPrefix(base, src);
    if v.Obj? && "id" in Keys(v.fields) {
      AssignLookup(base, src, "id");
    } else {
      if !v.Obj? {
        IndexKeysNotId(v);
      }
      AssignUntouched(base, src, "id");
    }
    if v.Obj? && k != "id" {
      if k in Keys(src) {
        AssignLookup(base, src, k);
      } else {
        AssignUntouched(base, src, k);
      }
    }
  }

  /** The properties spread from an array or a string are decimal indices. */
  lemma IndexKeysNotId(v: Value)
    requires !v.Obj?
    ensures "id" !in Keys(OwnFields(v))
  {
    var ks := Keys(OwnFields(v));
    forall i | 0 <= i < |ks| ensures ks[i] != "id" {
      assert ks[i] == OwnFields(v)[i].key == NatToDecimal(i);
      assert IsDigit(ks[i][0]);
    }
  }

  /** Items of an array insert without their own `id` all share the one
      generated id. */
  lemma GeneratedIdShared(a: Value, b: Value, genId: string)
    requires a.Obj? && DistinctKeys(a.fields) && "id" !in Keys(a.fields)
    requires b.Obj? && DistinctKeys(b.fields) && "id" !in Keys(b.fields)
    ensures Lookup(WithId(a, genId).fields, "id") == Lookup(WithId(b, genId).fields, "id") == Some(Str(genId))
  {
    WithIdSpec(a, genId, "id");
    WithIdSpec(b, genId, "id");
  }

  /** The data `insert(values)` sends and returns. */
  function WithIds(values: Value, genId: string): Value {
    if values.Arr? then Arr(seq(|values.items|, i requires 0 <= i < |values.items| => WithId(values.items[i], genId)))
    else WithId(values, genId)
  }

  function InsertQuery(table: string, item: Value): Query {
    Query(table, "insert", item, Undefined, None, Undefined, Undefined)
  }

  /** One insert message per item, in order; a single value is one message. */
  function InsertQueries(table: string, data: Value): (r: seq<Query>)
    ensures data.Arr? ==> |r| == |data.items|
    ensures !data.Arr? ==> |r| == 1
    ensures forall i :: 0 <= i < |r| ==> r[i].operation == "insert" && r[i].table == table
  {
    if data.Arr? then seq(|data.items|, i requires 0 <= i < |data.items| => InsertQuery(table, data.items[i]))
    else [InsertQuery(table, data)]
  }

  /** `insert(values).select()`: gives every item an id, sends one insert
      per item in order, and reports the data with no error whatever the
      replies were. */
  method InsertSelect(table: string, values: Value, genId: string) returns (issued: seq<Query>, reply: Response)
    ensures reply == Response(WithIds(values, genId), None)
    ensures issued == InsertQueries(table, WithIds(values, genId))
    ensures values.Arr? ==> |issued| == |values.items| && forall i :: 0 <= i < |issued| ==> issued[i].data == WithId(values.items[i], genId)
  {
    var dataWithId := WithIds(values, genId);
    if dataWithId.Arr? {
      var items := dataWithId.items;
      issued := [];
      var i := 0;
      while i < |items|
        invariant 0 <= i <= |items|
        invariant |issued| == i
        invariant forall j :: 0 <= j < i ==> issued[j] == InsertQuery(table, items[j])
      {
        issued := issued + [InsertQuery(table, items[i])];
        i := i + 1;
      }
    } else {
      issued := [InsertQuery(table, dataWithId)];
    }
    reply := Response(dataWithId, None);
  }
}
