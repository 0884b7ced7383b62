/**
What routing preserves: no row of a routed statement is on a shard the plan leaves out,
a bound plan is the literal plan, and accepted writes keep every row on its shard
(`crates/pgshard-plan/src/lib.rs`, `crates/pgshard-plan/src/extract.rs`).
*/
module Routing {
  import opened Wrappers
  import opened Keyspace
  import opened Catalog
  import opened Scalar
  import opened Sql
  import opened Plan
  import opened Statements

  // -------------------------------------------------- extraction is sound

  /** The constant is, as a value of the type, the key `k`. */
  ghost predicate Denotes(params: seq<ScalarValue>, v: KeyVal, ty: ScalarType, k: ScalarValue) {
    match v
    case ConstVal(c) => Coerce(ty, c) == Some(k)
    case ParamVal(n) => 0 < n <= |params| ==> Coerce(ty, params[n - 1]) == Some(k)
  }

  /** The name means the shard key column. */
  ghost predicate NamesKey(sc: Scope, key: string) {
    sc.Valid() && Resolve(sc.names, key) == sc.keyIndex
  }

  /** A row on which a key column and a constant compare equal, in either order. */
  ghost predicate Same(m: Meaning, sc: Scope, col: Expr, val: Expr, row: Row) {
    Equal(m, sc, col, val, row) == True || Equal(m, sc, val, col, row) == True
  }

  lemma EqualDenotes(m: Meaning, sc: Scope, key: string, col: Expr, val: Expr, row: Row)
    requires NamesKey(sc, key) && Fits(sc, row) && IsKeyColumn(col, key) && KeyValOf(val).Some? && Same(m, sc, col, val, row)
    ensures Denotes(m.params, KeyValOf(val).value, sc.KeyType(), KeyOf(sc, row))
  {
    hide Coerce;
    assert OperandOf(m, sc, col) == Col(sc.keyIndex);
  }

  lemma {:induction false} ListRead(items: seq<Expr>, i: nat)
    requires ListValues(items).Some? && i < |items|
    ensures KeyValOf(items[i]).Some? && KeyValOf(items[i]).value in ListValues(items).value
  {
    if i < |items| - 1 { ListRead(items[..|items| - 1], i); }
  }

  lemma ComparisonSound(m: Meaning, sc: Scope, key: string, e: Expr, row: Row) returns (col: Expr, val: Expr)
    requires e.AExpr? && Eval(m, sc, e, row) == True && ComparisonValues(e, key) != []
    ensures IsKeyColumn(col, key) && Same(m, sc, col, val, row)
    ensures KeyValOf(val).Some? && KeyValOf(val).value in ComparisonValues(e, key)
  {
    hide Equal;
    col := e.lhs;
    if e.kind.OpKind? {
      if IsKeyColumn(e.lhs, key) {
        val := e.rhs;
      } else {
        col, val := e.rhs, e.lhs;
      }
    } else {
      var i := AnyEqualTrue(m, sc, e.lhs, e.rhs.items, row);
      ListRead(e.rhs.items, i);
      val := e.rhs.items[i];
    }
  }

  /** If a conjunction constrains the key, on a row it is true of some key column equals one of the collected values. */
  lemma {:induction false} AndSound(m: Meaning, sc: Scope, key: string, e: Expr, row: Row) returns (col: Expr, val: Expr)
    requires Eval(m, sc, e, row) == True && AndValues(e, key) != []
    ensures IsKeyColumn(col, key) && Same(m, sc, col, val, row)
    ensures KeyValOf(val).Some? && KeyValOf(val).value in AndValues(e, key)
    decreases e
  {
    hide Same;
    if e.AExpr? {
      col, val := ComparisonSound(m, sc, key, e, row);
    } else {
      var i := SomeCollected(e.args, key);
      AllTrue(m, sc, e.args, row, i);
      col, val := AndSound(m, sc, key, e.args[i], row);
      CollectedIn(e.args, key, i, KeyValOf(val).value);
    }
  }

  lemma {:induction false} SomeCollected(args: seq<Expr>, key: string) returns (i: nat)
    requires AllAndValues(args, key) != []
    ensures i < |args| && AndValues(args[i], key) != []
  {
    if AndValues(args[|args| - 1], key) != [] {
      i := |args| - 1;
    } else {
      i := SomeCollected(args[..|args| - 1], key);
    }
  }

  lemma {:induction false} CollectedIn(args: seq<Expr>, key: string, i: nat, v: KeyVal)
    requires i < |args| && v in AndValues(args[i], key)
    ensures v in AllAndValues(args, key)
  {
    if i < |args| - 1 { CollectedIn(args[..|args| - 1], key, i, v); }
  }

  /** The extractor's guarantee: every row the WHERE matches has its key among the values read. */
  lemma WhereSound(m: Meaning, sc: Scope, key: string, where_: Option<Expr>, row: Row) returns (v: KeyVal)
    requires NamesKey(sc, key) && Fits(sc, row)
    requires Matches(m, sc, where_, row) && WhereValues(where_, key) != []
    ensures v in WhereValues(where_, key) && Denotes(m.params, v, sc.KeyType(), KeyOf(sc, row))
  {
    var col, val := AndSound(m, sc, key, where_.value, row);
    EqualDenotes(m, sc, key, col, val, row);
    v := KeyValOf(val).value;
  }

  // ----------------------------------------------- resolution keeps the shard

  lemma {:induction false} ConstShardsHold(values: seq<KeyVal>, ty: ScalarType, hash: ShardFn, shards: seq<Shard>, v: KeyVal)
    requires Validated(shards) && ConstShards(values, ty, hash, shards).Some? && v in values && v.ConstVal?
    ensures ShardOf(v.v, ty, hash, shards).Some?
    ensures ShardOf(v.v, ty, hash, shards).value in ConstShards(values, ty, hash, shards).value
  {
    hide ShardOf, Validated;
    var n := |values| - 1;
    if v != values[n] {
      var i :| 0 <= i < |values| && values[i] == v;
      assert v == values[..n][i];
      ConstShardsHold(values[..n], ty, hash, shards, v);
    }
  }

  lemma {:induction false} ParamIndex(values: seq<KeyVal>, v: KeyVal)
    requires v in values && v.ParamVal?
    ensures v.n in ParamsIn(values)
  {
    var n := |values| - 1;
    if v != values[n] {
      var i :| 0 <= i < |values| && values[i] == v;
      assert v == values[..n][i];
      ParamIndex(values[..n], v);
    }
  }

  lemma {:induction false} BoundHolds(indices: seq<nat>, values: seq<ScalarValue>, n: nat)
    requires BoundValues(indices, values).Some? && n in indices
    ensures 0 < n <= |values| && ConstVal(values[n - 1]) in BoundValues(indices, values).value
  {
    var m := |indices| - 1;
    if n != indices[m] {
      var i :| 0 <= i < |indices| && indices[i] == n;
      assert indices[..m][i] == n;
      BoundHolds(indices[..m], values, n);
    }
  }

  /** Once its parameters are known, the plan is refused or runs on the shard. */
  ghost predicate Covers(p: Plan, params: seq<ScalarValue>, shards: seq<Shard>, s: ShardId)
    requires Validated(shards)
  {
    var run := Completed(p, params, shards);
    run.Reject? || s in Targets(run)
  }

  lemma ReadCovers(values: seq<KeyVal>, def: TableDef, where_: Option<Expr>, shards: seq<Shard>, params: seq<ScalarValue>, v: KeyVal, k: ScalarValue)
    requires Validated(shards) && def.Sharded? && values == WhereValues(where_, def.key)
    requires v in values && Denotes(params, v, def.keyType, k)
    ensures Covers(PlanKeyedRead(where_, def, shards), params, shards, Route(shards, def.hash(k)))
  {
    hide Coerce, Validated, Route;
    RouteInAll(shards, def.hash(k));
    var r := RouteValues(values, def.keyType, def.hash, shards);
    if r.Shards? {
      if v.ParamVal? { ParamIndex(values, v); }
      ConstShardsHold(values, def.keyType, def.hash, shards, v);
    } else if r.Params? {
      assert v.ParamVal?;
      ParamsCover(values, def, shards, params, v, k, false);
    }
  }

  lemma RouteInAll(shards: seq<Shard>, id: U64)
    requires Validated(shards)
    ensures Route(shards, id) in All(shards)
  {
    var s := Route(shards, id);
    var i :| 0 <= i < |shards| && shards[i].range.Contains(id) && shards[i].id == s;
  }

  lemma {:induction false} ParamsCover(values: seq<KeyVal>, def: TableDef, shards: seq<Shard>, params: seq<ScalarValue>, v: KeyVal, k: ScalarValue, write: bool)
    requires Validated(shards) && def.Sharded? && v in values && v.ParamVal? && Denotes(params, v, def.keyType, k)
    ensures Covers(AtBind(Parameterized(def.hash, def.keyType, ParamsIn(values), write)), params, shards, Route(shards, def.hash(k)))
  {
    hide Coerce, Validated, Route, ConstShards, BoundValues, ParamsIn;
    var indices := ParamsIn(values);
    ParamIndex(values, v);
    var bound := BoundValues(indices, params);
    if bound.Some? && ConstShards(bound.value, def.keyType, def.hash, shards).Some? {
      BoundHolds(indices, params, v.n);
      ConstShardsHold(bound.value, def.keyType, def.hash, shards, ConstVal(params[v.n - 1]));
    }
  }

  // -------------------------------------------------------- whole SELECTs

  /** Where a sharded table's rows are. */
  type Data = map<ShardId, seq<Row>>

  /** Every row is on the shard that owns its key. */
  ghost predicate Placed(data: Data, sc: Scope, hash: ShardFn, shards: seq<Shard>)
    requires sc.Valid() && Validated(shards)
  {
    forall s, i | s in data && 0 <= i < |data[s]| :: Fits(sc, data[s][i]) && OwnedBy(data[s][i], s, sc, hash, shards)
  }

  ghost predicate OwnedBy(row: Row, s: ShardId, sc: Scope, hash: ShardFn, shards: seq<Shard>)
    requires sc.Valid() && Fits(sc, row) && Validated(shards)
  {
    Route(shards, hash(KeyOf(sc, row))) == s
  }

  /** The column names a FROM item shows: its aliases rename the first columns. */
  function Visible(columns: seq<string>, aliases: seq<string>): seq<string> {
    if |aliases| <= |columns| then aliases + columns[|aliases|..] else aliases[..|columns|]
  }

  lemma KeyedReadLosesNothing(where_: Option<Expr>, def: TableDef, sc: Scope, shards: seq<Shard>, m: Meaning, row: Row)
    requires Validated(shards) && def.Sharded? && NamesKey(sc, def.key) && sc.KeyType() == def.keyType
    requires Fits(sc, row) && Matches(m, sc, where_, row)
    ensures Covers(PlanKeyedRead(where_, def, shards), m.params, shards, Route(shards, def.hash(KeyOf(sc, row))))
  {
    var values := WhereValues(where_, def.key);
    if values == [] {
      RouteInAll(shards, def.hash(KeyOf(sc, row)));
    } else {
      var v := WhereSound(m, sc, def.key, where_, row);
      ReadCovers(values, def, where_, shards, m.params, v, KeyOf(sc, row));
    }
  }

  /** The one relation of a keyed SELECT. */
  ghost predicate ReadsOne(s: Select, t: RelName, aliases: seq<string>) {
    s.Simple? && exists schema, name :: s.from == [FromItem.Relation(schema, name, aliases)] && Qualify(schema, name) == t
  }

  lemma {:induction false} OneTable(s: Select, t: RelName, aliases: seq<string>, vschema: VSchema)
    requires ReadsOne(s, t, aliases) && IsSharded(vschema, t)
    ensures AnalyzeFrom(s.from) == FromClause([t], true) && ShardedIn([t], vschema) == [t]
  {
    var schema, name :| s.from == [FromItem.Relation(schema, name, aliases)] && Qualify(schema, name) == t;
    assert s.from[..0] == [];
    assert [t][..0] == [];
    assert AnalyzeFrom([]) == FromClause([], true);
    assert [] + [t] == [t];
  }

  /** A plain FROM item names at least one relation, and one that names a single relation is that relation. */
  lemma {:induction false} PlainItem(item: FromItem)
    requires CollectFrom(item).allPlain
    ensures |CollectFrom(item).tables| >= 1
    ensures |CollectFrom(item).tables| == 1 ==> item.Relation?
  {
    if item.Join? {
      PlainItem(item.left);
      PlainItem(item.right);
    }
  }

  lemma {:induction false} PlainItems(items: seq<FromItem>)
    requires AnalyzeFrom(items).allPlain
    ensures |AnalyzeFrom(items).tables| >= |items|
  {
    if items != [] {
      PlainItems(items[..|items| - 1]);
      PlainItem(items[|items| - 1]);
    }
  }

  /** Plain items naming one table are one relation. */
  lemma OnePlainRelation(items: seq<FromItem>)
    requires AnalyzeFrom(items).allPlain && |AnalyzeFrom(items).tables| == 1
    ensures |items| == 1 && items[0].Relation?
    ensures AnalyzeFrom(items).tables == [Qualify(items[0].schema, items[0].name)]
  {
    PlainItems(items);
    assert items != [];
    assert items[..0] == [] && AnalyzeFrom([]) == FromClause([], true);
    PlainItem(items[0]);
  }

  /** What a SELECT is that is sent to shards: a read of one sharded table and of nothing else. */
  lemma RoutedReadsOne(s: Select, vschema: VSchema, shards: seq<Shard>) returns (t: RelName, aliases: seq<string>)
    requires Validated(shards)
    requires var p := PlanSelect(s, vschema, shards); p.SingleShard? || p.Scatter? || p.AtBind?
    ensures ReadsOne(s, t, aliases) && IsSharded(vschema, t) && s.ctes == [] && !SelectHasSubLink(s)
    ensures PlanSelect(s, vschema, shards) == PlanKeyedRead(s.where_, vschema[t], shards)
  {
    hide PlanKeyedRead, Validated, SelectHasSubLink, AnalyzeFrom, SelectKnown;
    var from := AnalyzeFrom(s.from);
    t := ShardedIn(from.tables, vschema)[0];
    assert t in from.tables;
    OnePlainRelation(s.from);
    aliases := s.from[0].aliases;
    assert s.from == [FromItem.Relation(s.from[0].schema, s.from[0].name, aliases)];
  }

  /**
  Routing preserves the meaning of SELECT: with every row on its key's shard, a row the WHERE
  matches, on any shard, is on a shard the plan runs on, whether the keys are literals or
  bound parameters; and the plan runs on shards or is refused, never elsewhere.
  */
  lemma SelectLosesNoRows(s: Select, vschema: VSchema, shards: seq<Shard>, t: RelName, columns: seq<string>, aliases: seq<string>,
                          sc: Scope, m: Meaning, data: Data, at: ShardId, i: nat)
    requires Validated(shards) && ReadsOne(s, t, aliases) && IsSharded(vschema, t)
    requires sc.names == Visible(columns, aliases) && NamesKey(sc, vschema[t].key) && sc.KeyType() == vschema[t].keyType
    requires Placed(data, sc, vschema[t].hash, shards) && at in data && i < |data[at]|
    requires Matches(m, sc, s.where_, data[at][i])
    ensures Covers(PlanSelect(s, vschema, shards), m.params, shards, at)
    ensures var run := Completed(PlanSelect(s, vschema, shards), m.params, shards); run.SingleShard? || run.Scatter? || run.Reject?
  {
    hide PlanKeyedRead, Validated, Route, AnalyzeFrom, ShardedIn, Coerce, ResolveBound;
    OneTable(s, t, aliases, vschema);
    KeyedReadLosesNothing(s.where_, vschema[t], sc, shards, m, data[at][i]);
  }

  // ------------------------------------------------ when the name is not the key's

  /** Every column the expression names is in scope: PostgreSQL runs no other statement. */
  predicate Resolves(names: seq<string>, e: Expr)
    decreases e, 1
  {
    match e
    case ColumnRef(_, _) => ColumnName(e).None? || ColumnName(e).value in names
    case BoolExpr(_, args) => AllResolve(names, args)
    case AExpr(_, _, lhs, rhs) => Resolves(names, lhs) && Resolves(names, rhs)
    case List(items) => AllResolve(names, items)
    case Opaque(_, args) => AllResolve(names, args)
    case _ => true
  }

  predicate AllResolve(names: seq<string>, args: seq<Expr>)
    decreases args, 0
  {
    args == [] || (AllResolve(names, args[..|args| - 1]) && Resolves(names, args[|args| - 1]))
  }

  /** A FROM item over a sharded table, and the scope its columns and alias list make. */
  datatype Source = Source(schema: string, name: string, columns: seq<string>, aliases: seq<string>, sc: Scope) {
    function Table(): RelName {
      Qualify(schema, name)
    }

    function Item(): FromItem {
      FromItem.Relation(schema, name, aliases)
    }
  }

  ghost predicate SourceOk(src: Source, vschema: VSchema) {
    && IsSharded(vschema, src.Table())
    && src.sc.Valid() && src.sc.names == Visible(src.columns, src.aliases)
    && src.sc.KeyType() == vschema[src.Table()].keyType
    && |src.columns| == |src.sc.names| && src.columns[src.sc.keyIndex] == vschema[src.Table()].key
    && forall i, j | 0 <= i < j < |src.columns| :: src.columns[i] != src.columns[j]
  }

  /** A SELECT over the source, and a row of the source's table that it matches. */
  ghost predicate Selects(src: Source, s: Select, m: Meaning, row: Row) {
    && s.Simple? && s.from == [src.Item()]
    && (s.where_.Some? ==> Resolves(src.sc.names, s.where_.value))
    && src.sc.Valid() && Fits(src.sc, row) && Matches(m, src.sc, s.where_, row)
  }

  /** No SELECT over the source leaves out the shard of a row it matches. */
  ghost predicate LosesNothing(src: Source, vschema: VSchema, shards: seq<Shard>)
    requires Validated(shards) && SourceOk(src, vschema)
  {
    forall s, m, row | Selects(src, s, m, row) ::
      Covers(PlanSelect(s, vschema, shards), m.params, shards, Route(shards, vschema[src.Table()].hash(KeyOf(src.sc, row))))
  }

  /** `v` can be compared with the column that has the key's name, and routes elsewhere than the key `k`. */
  ghost predicate Misroutes(v: ScalarValue, k: ScalarValue, ty: Option<ScalarType>, def: TableDef, shards: seq<Shard>)
    requires Validated(shards) && def.Sharded?
  {
    && Coerce(def.keyType, v).Some? && (ty.Some? ==> Coerce(ty.value, v).Some?)
    && Coerce(def.keyType, k) == Some(k)
    && Route(shards, def.hash(k)) != Route(shards, def.hash(Coerce(def.keyType, v).value))
  }

  /**
  The key's name means another column, some value can be compared with that column and read
  as a key, and the keys are not all on that value's shard.
  */
  ghost predicate Misreads(src: Source, def: TableDef, shards: seq<Shard>)
    requires Validated(shards) && def.Sharded? && src.sc.Valid()
  {
    var c := Resolve(src.sc.names, def.key);
    && c < |src.sc.names| && c != src.sc.keyIndex
    && exists v, k :: Misroutes(v, k, src.sc.types[c], def, shards)
  }

  /** Only an alias list can do this. */
  lemma MisreadsByAlias(src: Source, vschema: VSchema, shards: seq<Shard>)
    requires Validated(shards) && SourceOk(src, vschema) && Misreads(src, vschema[src.Table()], shards)
    ensures vschema[src.Table()].key in src.aliases
  {
    hide Misroutes;
  }

  lemma {:induction false} PlanOfSource(src: Source, s: Select, vschema: VSchema, shards: seq<Shard>)
    requires Validated(shards) && SourceOk(src, vschema) && s.Simple? && s.from == [src.Item()]
    ensures PlanSelect(s, vschema, shards)
         == if s.ctes != [] || SelectHasSubLink(s) then Reject else PlanKeyedRead(s.where_, vschema[src.Table()], shards)
  {
    hide PlanKeyedRead, Validated, SelectHasSubLink;
    assert ReadsOne(s, src.Table(), src.aliases);
    OneTable(s, src.Table(), src.aliases, vschema);
  }

  /** The row with key `k` whose cell `c` is `v`, and nothing else. */
  function RowWith(sc: Scope, k: ScalarValue, c: nat, v: Option<ScalarValue>): (row: Row)
    requires sc.Valid() && c < |sc.names| && c != sc.keyIndex
    ensures |row.cells| == |sc.names| && row.cells[sc.keyIndex] == Some(k) && row.cells[c] == v
  {
    Row(seq(|sc.names|, i => None)[sc.keyIndex := Some(k)][c := v])
  }

  /** `WHERE key = $1`, under the key's name. */
  function KeyEquals(src: Source, key: string): Select {
    Simple([src.Item()], Some(AExpr(OpKind, ["="], ColumnRef([key], false), ParamRef(1))), [], [])
  }

  /**
  The failing family: when an alias list gives the key's name to another column, the planner
  still reads it as the key. Every value that can be compared with that column and read as a
  key selects, for every key owned elsewhere, a row on a shard the plan leaves out.
  */
  lemma AliasedKeyLosesRows(src: Source, vschema: VSchema, shards: seq<Shard>, v: ScalarValue, k: ScalarValue) returns (m: Meaning, row: Row)
    requires Validated(shards) && SourceOk(src, vschema)
    requires var c := Resolve(src.sc.names, vschema[src.Table()].key);
      c < |src.sc.names| && c != src.sc.keyIndex && Misroutes(v, k, src.sc.types[c], vschema[src.Table()], shards)
    ensures var def := vschema[src.Table()];
      var s := KeyEquals(src, def.key);
      && Selects(src, s, m, row) && m.params == [v] && KeyOf(src.sc, row) == k
      && Completed(PlanSelect(s, vschema, shards), m.params, shards).SingleShard?
      && Route(shards, def.hash(k)) !in Targets(Completed(PlanSelect(s, vschema, shards), m.params, shards))
  {
    hide Validated, Route, Coerce, PlanSelect, PlanKeyedRead;
    var def := vschema[src.Table()];
    var c := Resolve(src.sc.names, def.key);
    var s := KeyEquals(src, def.key);
    m := Meaning([v], (e, r) => True);
    row := RowWith(src.sc, k, c, if src.sc.types[c].Some? then Coerce(src.sc.types[c].value, v) else None);
    KeyEqualsSelects(src, def.key, m, v, row);
    PlanOfSource(src, s, vschema, shards);
    OneParam(v, s.where_, def, shards);
  }

  lemma {:induction false} KeyEqualsSelects(src: Source, key: string, m: Meaning, v: ScalarValue, row: Row)
    requires src.sc.Valid() && Fits(src.sc, row) && Resolve(src.sc.names, key) < |src.sc.names|
    requires m.params == [v] && (forall e, r :: m.other(e, r) == True)
    requires var c := Resolve(src.sc.names, key);
      src.sc.types[c].Some? ==> Coerce(src.sc.types[c].value, v).Some? && row.cells[c] == Coerce(src.sc.types[c].value, v)
    ensures Selects(src, KeyEquals(src, key), m, row) && !SelectHasSubLink(KeyEquals(src, key))
  {
    hide Coerce;
    var e := KeyEquals(src, key).where_.value;
    assert src.sc.names[Resolve(src.sc.names, key)] in src.sc.names;
    assert Resolves(src.sc.names, e.lhs) && Resolves(src.sc.names, e.rhs);
    assert Eval(m, src.sc, e, row) == Equal(m, src.sc, e.lhs, e.rhs, row);
    assert !HasSubLink(e.lhs) && !HasSubLink(e.rhs);
  }

  lemma OneParamBound(v: ScalarValue)
    ensures ParamsIn([ParamVal(1)]) == [1] && !HasConst([ParamVal(1)])
    ensures BoundValues([1], [v]) == Some([ConstVal(v)])
  {
    var values: seq<KeyVal>, indices: seq<nat> := [ParamVal(1)], [1];
    assert values[..0] == [] && indices[..0] == [];
    assert ParamsIn([]) == [] && BoundValues([], [v]) == Some([]);
    assert [] + [ConstVal(v)] == [ConstVal(v)];
  }

  lemma OneParamRead(where_: Option<Expr>, def: TableDef, shards: seq<Shard>)
    requires Validated(shards) && def.Sharded? && WhereValues(where_, def.key) == [ParamVal(1)]
    requires ParamsIn([ParamVal(1)]) == [1] && !HasConst([ParamVal(1)])
    ensures PlanKeyedRead(where_, def, shards) == AtBind(Parameterized(def.hash, def.keyType, [1], false))
  {
    hide Validated, WhereValues, ParamsIn, HasConst, ConstShards;
  }

  lemma OneParam(v: ScalarValue, where_: Option<Expr>, def: TableDef, shards: seq<Shard>)
    requires Validated(shards) && def.Sharded? && Coerce(def.keyType, v).Some?
    requires where_ == Some(AExpr(OpKind, ["="], ColumnRef([def.key], false), ParamRef(1)))
    ensures Completed(PlanKeyedRead(where_, def, shards), [v], shards) == SingleShard(Route(shards, def.hash(Coerce(def.keyType, v).value)))
  {
    hide Validated, Route, Coerce, ParamsIn, HasConst, BoundValues, ConstShards, PlanKeyedRead;
    assert WhereValues(where_, def.key) == [ParamVal(1)];
    OneParamBound(v);
    OneParamRead(where_, def, shards);
    OneConst(v, def, shards);
  }

  /** A WHERE that resolves while the key's name does not constrains the key nowhere. */
  lemma {:induction false} HiddenKey(names: seq<string>, e: Expr, key: string)
    requires Resolves(names, e) && key !in names
    ensures AndValues(e, key) == []
    decreases e, 1
  {
    if e.BoolExpr? && e.op.AndOp? { HiddenKeys(names, e.args, key); }
  }

  lemma {:induction false} HiddenKeys(names: seq<string>, args: seq<Expr>, key: string)
    requires AllResolve(names, args) && key !in names
    ensures AllAndValues(args, key) == []
    decreases args, 0
  {
    if args != [] {
      HiddenKeys(names, args[..|args| - 1], key);
      HiddenKey(names, args[|args| - 1], key);
    }
  }

  /** The constant compared with the column that has the key's name is a value of that column's type. */
  lemma {:induction false} ComparedCoerces(m: Meaning, sc: Scope, key: string, col: Expr, val: Expr, row: Row)
    requires sc.Valid() && IsKeyColumn(col, key) && KeyValOf(val).Some? && Same(m, sc, col, val, row)
    requires Resolve(sc.names, key) < |sc.names| && sc.types[Resolve(sc.names, key)].Some?
    ensures var v, ty := KeyValOf(val).value, sc.types[Resolve(sc.names, key)].value;
      match v
      case ConstVal(x) => Coerce(ty, x).Some?
      case ParamVal(n) => 0 < n <= |m.params| ==> Coerce(ty, m.params[n - 1]).Some?
  {
    hide Coerce;
    assert OperandOf(m, sc, col) == Col(Resolve(sc.names, key));
  }

  /** If every value that could be misread routes where the row's key does, the plan covers the row. */
  lemma HarmlessCovers(where_: Option<Expr>, def: TableDef, shards: seq<Shard>, m: Meaning, val: Expr, ty: Option<ScalarType>, k: ScalarValue)
    requires Validated(shards) && def.Sharded? && KeyValOf(val).Some? && KeyValOf(val).value in WhereValues(where_, def.key)
    requires Coerce(def.keyType, k) == Some(k) && forall x :: !Misroutes(x, k, ty, def, shards)
    requires ty.Some? ==>
      match KeyValOf(val).value
      case ConstVal(x) => Coerce(ty.value, x).Some?
      case ParamVal(n) => 0 < n <= |m.params| ==> Coerce(ty.value, m.params[n - 1]).Some?
    ensures Covers(PlanKeyedRead(where_, def, shards), m.params, shards, Route(shards, def.hash(k)))
  {
    hide Coerce, Validated, Route, Covers, PlanKeyedRead;
    var v := KeyValOf(val).value;
    if v.ConstVal? {
      if Coerce(def.keyType, v.v).Some? {
        assert !Misroutes(v.v, k, ty, def, shards);
        ReadCovers(WhereValues(where_, def.key), def, where_, shards, m.params, v, Coerce(def.keyType, v.v).value);
      } else {
        Unreadable(where_, def, shards, m.params, v, k);
      }
    } else if 0 < v.n <= |m.params| && Coerce(def.keyType, m.params[v.n - 1]).Some? {
      var x := m.params[v.n - 1];
      assert !Misroutes(x, k, ty, def, shards);
      ReadCovers(WhereValues(where_, def.key), def, where_, shards, m.params, v, Coerce(def.keyType, x).value);
    } else if 0 < v.n <= |m.params| {
      Unreadable(where_, def, shards, m.params, v, k);
    } else {
      ReadCovers(WhereValues(where_, def.key), def, where_, shards, m.params, v, k);
    }
  }

  /** A key value that is not of the key's type sends the read everywhere, or has it refused at Bind. */
  lemma Unreadable(where_: Option<Expr>, def: TableDef, shards: seq<Shard>, params: seq<ScalarValue>, v: KeyVal, k: ScalarValue)
    requires Validated(shards) && def.Sharded? && v in WhereValues(where_, def.key)
    requires match v case ConstVal(x) => Coerce(def.keyType, x).None? case ParamVal(n) => 0 < n <= |params| && Coerce(def.keyType, params[n - 1]).None?
    ensures Covers(PlanKeyedRead(where_, def, shards), params, shards, Route(shards, def.hash(k)))
  {
    hide Coerce, Validated, Route, ConstShards, ParamsIn, WhereValues;
    var values := WhereValues(where_, def.key);
    RouteInAll(shards, def.hash(k));
    if v.ConstVal? {
      BadConst(values, def, shards, v);
    } else {
      ParamIndex(values, v);
      if !HasConst(values) { BadBound(ParamsIn(values), def, shards, params, v.n); }
    }
  }

  lemma {:induction false} BadConst(values: seq<KeyVal>, def: TableDef, shards: seq<Shard>, v: KeyVal)
    requires Validated(shards) && def.Sharded? && v in values && v.ConstVal? && Coerce(def.keyType, v.v).None?
    ensures ConstShards(values, def.keyType, def.hash, shards).None? && HasConst(values)
  {
    hide Coerce, Validated, Route;
    if ConstShards(values, def.keyType, def.hash, shards).Some? { ConstShardsHold(values, def.keyType, def.hash, shards, v); }
  }

  lemma BadBound(indices: seq<nat>, def: TableDef, shards: seq<Shard>, params: seq<ScalarValue>, n: nat)
    requires Validated(shards) && def.Sharded? && n in indices && 0 < n <= |params| && Coerce(def.keyType, params[n - 1]).None?
    ensures ResolveBound(Parameterized(def.hash, def.keyType, indices, false), params, shards) == Reject
  {
    hide Coerce, Validated, Route, ConstShards, BoundValues;
    if BoundValues(indices, params).Some? {
      BoundHolds(indices, params, n);
      BadConst(BoundValues(indices, params).value, def, shards, ConstVal(params[n - 1]));
    }
  }

  /** Every row a SELECT over a source that misreads nothing matches is on a shard of its plan. */
  lemma SourceCovers(src: Source, vschema: VSchema, shards: seq<Shard>, s: Select, m: Meaning, row: Row)
    requires Validated(shards) && SourceOk(src, vschema) && !Misreads(src, vschema[src.Table()], shards) && Selects(src, s, m, row)
    ensures Covers(PlanSelect(s, vschema, shards), m.params, shards, Route(shards, vschema[src.Table()].hash(KeyOf(src.sc, row))))
  {
    hide Coerce, Validated, Route, PlanKeyedRead, PlanSelect, Misroutes;
    var def, k := vschema[src.Table()], KeyOf(src.sc, row);
    var c := Resolve(src.sc.names, def.key);
    PlanOfSource(src, s, vschema, shards);
    if c == src.sc.keyIndex {
      KeyedReadLosesNothing(s.where_, def, src.sc, shards, m, row);
    } else if WhereValues(s.where_, def.key) == [] {
      EverywhereCovers(s.where_, def, shards, m.params, k);
    } else if c == |src.sc.names| {
      HiddenKey(src.sc.names, s.where_.value, def.key);
    } else {
      var col, val := AndSound(m, src.sc, def.key, s.where_.value, row);
      if src.sc.types[c].Some? { ComparedCoerces(m, src.sc, def.key, col, val, row); }
      HarmlessCovers(s.where_, def, shards, m, val, src.sc.types[c], k);
    }
  }

  lemma EverywhereCovers(where_: Option<Expr>, def: TableDef, shards: seq<Shard>, params: seq<ScalarValue>, k: ScalarValue)
    requires Validated(shards) && def.Sharded? && WhereValues(where_, def.key) == []
    ensures Covers(PlanKeyedRead(where_, def, shards), params, shards, Route(shards, def.hash(k)))
  {
    hide Validated, Route;
    RouteInAll(shards, def.hash(k));
  }

  /**
  Exactly when routing preserves SELECT over an aliased source: the key's name must not mean
  another column that shares readable values with the key while keys are on several shards.
  A name no column has is harmless, since PostgreSQL then runs no WHERE that constrains it.
  */
  lemma LosesNothingIffNotMisread(src: Source, vschema: VSchema, shards: seq<Shard>)
    requires Validated(shards) && SourceOk(src, vschema)
    ensures LosesNothing(src, vschema, shards) <==> !Misreads(src, vschema[src.Table()], shards)
  {
    hide Coerce, Validated, Route, PlanSelect, Misroutes, Covers, Matches, Resolves;
    var def := vschema[src.Table()];
    if Misreads(src, def, shards) {
      var c := Resolve(src.sc.names, def.key);
      var v, k :| Misroutes(v, k, src.sc.types[c], def, shards);
      var m, row := AliasedKeyLosesRows(src, vschema, shards, v, k);
      NotCovered(PlanSelect(KeyEquals(src, def.key), vschema, shards), m.params, shards, Route(shards, def.hash(k)));
      assert Selects(src, KeyEquals(src, def.key), m, row);
    } else {
      forall s, m, row | Selects(src, s, m, row)
        ensures Covers(PlanSelect(s, vschema, shards), m.params, shards, Route(shards, def.hash(KeyOf(src.sc, row))))
      {
        SourceCovers(src, vschema, shards, s, m, row);
      }
    }
  }

  /** Two shards, one of which owns only key 7. */
  function SevenApart(): (shards: seq<Shard>)
    ensures Validated(shards)
  {
    var shards := [Shard(KeyRange(0, Some(1)), "low"), Shard(KeyRange(1, None), "high")];
    var ranges := Ranges(shards);
    assert ranges == [shards[0].range, shards[1].range];
    shards
  }

  function SevenHash(v: ScalarValue): U64 {
    if v == Int64(7) then 0 else 1
  }

  /** `FROM orders AS o(amount, customer_id)` over `orders(customer_id, amount)`, both integers. */
  lemma OrdersMisread() returns (src: Source, vschema: VSchema)
    ensures src.columns == ["customer_id", "amount"] && src.aliases == ["amount", "customer_id"] && SourceOk(src, vschema)
    ensures vschema[src.Table()] == Sharded("customer_id", IntType, SevenHash)
    ensures !LosesNothing(src, vschema, SevenApart())
  {
    var columns, aliases := ["customer_id", "amount"], ["amount", "customer_id"];
    src := Source("public", "orders", columns, aliases, Scope(aliases, [Some(IntType), Some(IntType)], 0));
    vschema := map[src.Table() := Sharded("customer_id", IntType, SevenHash)];
    assert aliases[0] != "customer_id";
    assert Resolve(aliases, "customer_id") == 1;
    assert aliases + columns[2..] == aliases;
    var shards := SevenApart();
    RouteOf(shards, shards[0], 0);
    RouteOf(shards, shards[1], 1);
    assert shards[0].id[0] != shards[1].id[0];
    assert Misroutes(Int64(7), Int64(8), src.sc.types[1], vschema[src.Table()], shards);
    LosesNothingIffNotMisread(src, vschema, shards);
  }

  lemma NotCovered(p: Plan, params: seq<ScalarValue>, shards: seq<Shard>, s: ShardId)
    requires Validated(shards) && Completed(p, params, shards).SingleShard? && s !in Targets(Completed(p, params, shards))
    ensures !Covers(p, params, shards, s)
  {
  }

  lemma OneConst(v: ScalarValue, def: TableDef, shards: seq<Shard>)
    requires Validated(shards) && def.Sharded? && Coerce(def.keyType, v).Some?
    ensures ConstShards([ConstVal(v)], def.keyType, def.hash, shards) == Some({Route(shards, def.hash(Coerce(def.keyType, v).value))})
  {
    hide Validated, Route, Coerce;
    var values := [ConstVal(v)];
    assert values[..0] == [];
    assert ConstShards([], def.keyType, def.hash, shards) == Some({});
    assert {} + {Route(shards, def.hash(Coerce(def.keyType, v).value))} == {Route(shards, def.hash(Coerce(def.keyType, v).value))};
  }

  // ---------------------------------------------- bound plans, literal plans

  /** Writes literals in the place of parameters. */
  function Subst(e: Expr, lits: seq<Literal>): Expr
    decreases e, 1
  {
    match e
    case ParamRef(n) => if 0 < n <= |lits| then Const(lits[n - 1]) else e
    case BoolExpr(op, args) => BoolExpr(op, SubstAll(args, lits))
    case AExpr(kind, name, lhs, rhs) => AExpr(kind, name, Subst(lhs, lits), Subst(rhs, lits))
    case List(items) => List(SubstAll(items, lits))
    case Opaque(id, args) => Opaque(id, SubstAll(args, lits))
    case _ => e
  }

  function SubstAll(args: seq<Expr>, lits: seq<Literal>): (r: seq<Expr>)
    ensures |r| == |args|
    decreases args, 0
  {
    if args == [] then [] else SubstAll(args[..|args| - 1], lits) + [Subst(args[|args| - 1], lits)]
  }

  function SubstWhere(where_: Option<Expr>, lits: seq<Literal>): Option<Expr> {
    if where_.None? then None else Some(Subst(where_.value, lits))
  }

  /**
  Each literal in the place of a key's parameter is readable and spells the bound value, as the
  key's type sees it. The other parameters may be anything.
  */
  ghost predicate Spells(lits: seq<Literal>, values: seq<ScalarValue>, ty: ScalarType, indices: seq<nat>) {
    && |lits| == |values|
    && forall n | n in indices ::
         0 < n <= |values| && ScalarOf(lits[n - 1]).Some? && Coerce(ty, ScalarOf(lits[n - 1]).value) == Coerce(ty, values[n - 1])
  }

  /** The value bound to each of the key's parameters is of the key's type. */
  ghost predicate AllCoerce(values: seq<ScalarValue>, ty: ScalarType, indices: seq<nat>) {
    forall n | n in indices :: 0 < n <= |values| && Coerce(ty, values[n - 1]).Some?
  }

  function Bind(v: KeyVal, lits: seq<Literal>): KeyVal {
    if v.ParamVal? && 0 < v.n <= |lits| && ScalarOf(lits[v.n - 1]).Some? then ConstVal(ScalarOf(lits[v.n - 1]).value) else v
  }

  function BindAll(values: seq<KeyVal>, lits: seq<Literal>): (r: seq<KeyVal>)
    ensures |r| == |values| && forall i | 0 <= i < |values| :: r[i] == Bind(values[i], lits)
  {
    seq(|values|, i requires 0 <= i < |values| => Bind(values[i], lits))
  }

  /** The literal in the place of this value, if any, is readable. */
  ghost predicate Binds(v: KeyVal, lits: seq<Literal>) {
    v.ParamVal? && 0 < v.n <= |lits| ==> ScalarOf(lits[v.n - 1]).Some?
  }

  ghost predicate AllBind(values: seq<KeyVal>, lits: seq<Literal>) {
    forall i | 0 <= i < |values| :: Binds(values[i], lits)
  }

  lemma {:induction false} KeyValSubst(e: Expr, lits: seq<Literal>)
    ensures KeyValOf(e).None? ==> KeyValOf(Subst(e, lits)).None?
    ensures KeyValOf(e).Some? && Binds(KeyValOf(e).value, lits) ==> KeyValOf(Subst(e, lits)) == Some(Bind(KeyValOf(e).value, lits))
    ensures forall key :: IsKeyColumn(Subst(e, lits), key) == IsKeyColumn(e, key)
    ensures Subst(e, lits).Absent? == e.Absent? && Subst(e, lits).List? == e.List?
  {
  }

  lemma {:induction false} ListSubst(items: seq<Expr>, lits: seq<Literal>)
    requires ListValues(items).Some? && AllBind(ListValues(items).value, lits)
    ensures ListValues(SubstAll(items, lits)) == Some(BindAll(ListValues(items).value, lits))
  {
    if items != [] {
      var n := |items| - 1;
      var init, last := ListValues(items[..n]).value, KeyValOf(items[n]).value;
      BindsParts(init, [last], lits);
      assert Binds([last][0], lits);
      KeyValSubst(items[n], lits);
      assert SubstAll(items, lits)[..n] == SubstAll(items[..n], lits);
      ListSubst(items[..n], lits);
      BindConcat(init, [last], lits);
      assert BindAll([last], lits) == [Bind(last, lits)];
    }
  }

  /** A list with an unreadable element keeps one, whatever is written for its parameters. */
  lemma {:induction false} ListUnreadable(items: seq<Expr>, lits: seq<Literal>)
    requires ListValues(items).None?
    ensures ListValues(SubstAll(items, lits)).None?
  {
    var n := |items| - 1;
    KeyValSubst(items[n], lits);
    assert SubstAll(items, lits)[..n] == SubstAll(items[..n], lits);
    if ListValues(items[..n]).None? { ListUnreadable(items[..n], lits); }
  }

  lemma BindsParts(a: seq<KeyVal>, b: seq<KeyVal>, lits: seq<Literal>)
    requires AllBind(a + b, lits)
    ensures AllBind(a, lits) && AllBind(b, lits)
  {
    forall i | 0 <= i < |a| ensures Binds(a[i], lits) { assert (a + b)[i] == a[i]; }
    forall i | 0 <= i < |b| ensures Binds(b[i], lits) { assert (a + b)[|a| + i] == b[i]; }
  }

  lemma {:induction false} ComparisonSubst(e: Expr, key: string, lits: seq<Literal>)
    requires e.AExpr? && AllBind(ComparisonValues(e, key), lits)
    ensures ComparisonValues(Subst(e, lits), key) == BindAll(ComparisonValues(e, key), lits)
  {
    KeyValSubst(e.lhs, lits);
    KeyValSubst(e.rhs, lits);
    if e.kind.OpKind? {
      if IsKeyColumn(e.lhs, key) { ReadableSubst(e.rhs, lits); } else { ReadableSubst(e.lhs, lits); }
    } else if e.rhs.List? {
      if ListValues(e.rhs.items).None? { ListUnreadable(e.rhs.items, lits); }
      else if ComparisonValues(e, key) == ListValues(e.rhs.items).value { ListSubst(e.rhs.items, lits); }
    }
  }

  lemma {:induction false} ReadableSubst(e: Expr, lits: seq<Literal>)
    ensures AllBind(Readable(e), lits) ==> Readable(Subst(e, lits)) == BindAll(Readable(e), lits)
  {
    KeyValSubst(e, lits);
    if KeyValOf(e).Some? && AllBind(Readable(e), lits) { assert Binds(Readable(e)[0], lits); }
  }

  lemma BindConcat(a: seq<KeyVal>, b: seq<KeyVal>, lits: seq<Literal>)
    ensures BindAll(a + b, lits) == BindAll(a, lits) + BindAll(b, lits)
  {
  }

  /** Extraction commutes with writing the parameters out. */
  lemma {:induction false} AndSubst(e: Expr, key: string, lits: seq<Literal>)
    requires AllBind(AndValues(e, key), lits)
    ensures AndValues(Subst(e, lits), key) == BindAll(AndValues(e, key), lits)
    decreases e, 1
  {
    if e.AExpr? {
      ComparisonSubst(e, key, lits);
    } else if e.BoolExpr? && e.op.AndOp? {
      AllAndSubst(e.args, key, lits);
    }
  }

  lemma {:induction false} AllAndSubst(args: seq<Expr>, key: string, lits: seq<Literal>)
    requires AllBind(AllAndValues(args, key), lits)
    ensures AllAndValues(SubstAll(args, lits), key) == BindAll(AllAndValues(args, key), lits)
    decreases args, 0
  {
    hide AndValues, Subst, BindAll, Bind, AllBind;
    if args == [] {
      assert BindAll([], lits) == [];
    } else {
      var n := |args| - 1;
      BindsParts(AllAndValues(args[..n], key), AndValues(args[n], key), lits);
      AllAndSubst(args[..n], key, lits);
      AndSubst(args[n], key, lits);
      assert SubstAll(args, lits)[..n] == SubstAll(args[..n], lits);
      BindConcat(AllAndValues(args[..n], key), AndValues(args[n], key), lits);
    }
  }

  lemma {:induction false} SubLinkSubst(e: Expr, lits: seq<Literal>)
    ensures HasSubLink(Subst(e, lits)) == HasSubLink(e)
    decreases e, 1
  {
    match e
    case BoolExpr(_, args) => AnySubLinkSubst(args, lits);
    case AExpr(_, _, lhs, rhs) => SubLinkSubst(lhs, lits); SubLinkSubst(rhs, lits);
    case List(items) => AnySubLinkSubst(items, lits);
    case Opaque(_, args) => AnySubLinkSubst(args, lits);
    case _ =>
  }

  lemma {:induction false} AnySubLinkSubst(args: seq<Expr>, lits: seq<Literal>)
    ensures AnySubLink(SubstAll(args, lits)) == AnySubLink(args)
    decreases args, 0
  {
    if args != [] {
      var n := |args| - 1;
      AnySubLinkSubst(args[..n], lits);
      SubLinkSubst(args[n], lits);
      AnySubLinkSnoc(args[..n], args[n]);
      AnySubLinkSnoc(SubstAll(args[..n], lits), Subst(args[n], lits));
      assert args == args[..n] + [args[n]];
    }
  }

  lemma {:induction false} AnySubLinkSnoc(init: seq<Expr>, last: Expr)
    ensures AnySubLink(init + [last]) == (AnySubLink(init) || HasSubLink(last))
  {
    if init == [] {
      assert [] + [last] == [last];
      assert [last][1..] == [];
    } else {
      AnySubLinkSnoc(init[1..], last);
      assert (init + [last])[1..] == init[1..] + [last];
    }
  }

  lemma SpelledShard(lits: seq<Literal>, bound: seq<ScalarValue>, def: TableDef, shards: seq<Shard>, indices: seq<nat>, n: nat)
    requires Validated(shards) && def.Sharded? && Spells(lits, bound, def.keyType, indices) && n in indices
    ensures 0 < n <= |bound| == |lits| && ScalarOf(lits[n - 1]).Some?
    ensures ShardOf(ScalarOf(lits[n - 1]).value, def.keyType, def.hash, shards) == ShardOf(bound[n - 1], def.keyType, def.hash, shards)
  {
    hide Coerce, Validated, Route;
  }

  lemma {:induction false} ParamsSnoc(init: seq<KeyVal>, last: KeyVal)
    ensures ParamsIn(init + [last]) == if last.ParamVal? then ParamsIn(init) + [last.n] else ParamsIn(init)
  {
    assert (init + [last])[..|init|] == init;
  }

  lemma {:induction false} BoundSnoc(init: seq<nat>, n: nat, bound: seq<ScalarValue>)
    requires BoundValues(init, bound).Some? && 0 < n <= |bound|
    ensures BoundValues(init + [n], bound) == Some(BoundValues(init, bound).value + [ConstVal(bound[n - 1])])
  {
    assert (init + [n])[..|init|] == init;
  }

  lemma {:induction false} ConstSnoc(init: seq<KeyVal>, v: ScalarValue, def: TableDef, shards: seq<Shard>)
    requires Validated(shards) && def.Sharded?
    ensures var before, s := ConstShards(init, def.keyType, def.hash, shards), ShardOf(v, def.keyType, def.hash, shards);
      ConstShards(init + [ConstVal(v)], def.keyType, def.hash, shards)
        == if before.None? || s.None? then None else Some(before.value + {s.value})
  {
    hide ShardOf, Validated;
    assert (init + [ConstVal(v)])[..|init|] == init;
  }

  /** At Bind, as literals: the same shards, if every value is of the key's type, and at least one of them. */
  ghost predicate BindsAlike(values: seq<KeyVal>, lits: seq<Literal>, bound: seq<ScalarValue>, def: TableDef, shards: seq<Shard>)
    requires Validated(shards) && def.Sharded?
  {
    && ParamsIn(BindAll(values, lits)) == []
    && BoundValues(ParamsIn(values), bound).Some?
    && var hit := ConstShards(BindAll(values, lits), def.keyType, def.hash, shards);
       && ConstShards(BoundValues(ParamsIn(values), bound).value, def.keyType, def.hash, shards) == hit
       && (hit.Some? <==> AllCoerce(bound, def.keyType, ParamsIn(values)))
       && (hit.Some? && values != [] ==> hit.value != {})
  }

  /** Values that are all parameters resolve at Bind to the shards of their literals. */
  lemma {:induction false} BoundIsLiteral(values: seq<KeyVal>, lits: seq<Literal>, bound: seq<ScalarValue>, def: TableDef, shards: seq<Shard>, indices: seq<nat>)
    requires Validated(shards) && def.Sharded? && Spells(lits, bound, def.keyType, indices)
    requires forall i | 0 <= i < |values| :: values[i].ParamVal? && values[i].n in indices
    ensures BindsAlike(values, lits, bound, def, shards)
  {
    hide BindsAlike, Spells, Validated;
    if values == [] {
      NothingBinds(lits, bound, def, shards);
    } else {
      var n := |values| - 1;
      BoundIsLiteral(values[..n], lits, bound, def, shards, indices);
      BindsOneMore(values[..n], values[n], lits, bound, def, shards, indices);
      assert values == values[..n] + [values[n]];
    }
  }

  lemma NothingBinds(lits: seq<Literal>, bound: seq<ScalarValue>, def: TableDef, shards: seq<Shard>)
    requires Validated(shards) && def.Sharded?
    ensures BindsAlike([], lits, bound, def, shards)
  {
    hide Validated;
  }

  lemma BindsOneMore(init: seq<KeyVal>, last: KeyVal, lits: seq<Literal>, bound: seq<ScalarValue>, def: TableDef, shards: seq<Shard>, indices: seq<nat>)
    requires Validated(shards) && def.Sharded? && Spells(lits, bound, def.keyType, indices)
    requires last.ParamVal? && last.n in indices && BindsAlike(init, lits, bound, def, shards)
    ensures BindsAlike(init + [last], lits, bound, def, shards)
  {
    hide ShardOf, Validated, Spells, Coerce, ConstShards, BoundValues, ParamsIn, BindAll, AllCoerce;
    SpelledShard(lits, bound, def, shards, indices, last.n);
    var spelled := ScalarOf(lits[last.n - 1]).value;
    var literals, atBind := BindAll(init, lits), BoundValues(ParamsIn(init), bound).value;
    BindSnoc(init, last, lits, spelled);
    ParamsSnoc(init, last);
    ParamsSnoc(literals, ConstVal(spelled));
    BoundSnoc(ParamsIn(init), last.n, bound);
    ConstSnoc(literals, spelled, def, shards);
    ConstSnoc(atBind, bound[last.n - 1], def, shards);
    CoerceSnoc(ParamsIn(init), last.n, bound, def, shards);
  }

  lemma CoerceSnoc(init: seq<nat>, n: nat, bound: seq<ScalarValue>, def: TableDef, shards: seq<Shard>)
    requires Validated(shards) && def.Sharded? && 0 < n <= |bound|
    ensures AllCoerce(bound, def.keyType, init + [n])
       <==> AllCoerce(bound, def.keyType, init) && ShardOf(bound[n - 1], def.keyType, def.hash, shards).Some?
  {
    hide Coerce, Validated, Route;
    assert n in init + [n] && forall i | i in init :: i in init + [n];
  }

  lemma BindSnoc(init: seq<KeyVal>, last: KeyVal, lits: seq<Literal>, spelled: ScalarValue)
    requires last.ParamVal? && 0 < last.n <= |lits| && ScalarOf(lits[last.n - 1]) == Some(spelled)
    ensures BindAll(init + [last], lits) == BindAll(init, lits) + [ConstVal(spelled)]
  {
    BindConcat(init, [last], lits);
  }

  lemma {:induction false} AllParams(values: seq<KeyVal>)
    requires !HasConst(values)
    ensures forall i | 0 <= i < |values| :: values[i].ParamVal? && values[i].n in ParamsIn(values)
  {
    forall i | 0 <= i < |values| ensures values[i].n in ParamsIn(values) { ParamIndex(values, values[i]); }
  }

  /** Resolution of key values, at Bind and as literals: the same shards, or in both cases a value that is not a key. */
  lemma {:induction false} ResolutionAgrees(values: seq<KeyVal>, lits: seq<Literal>, bound: seq<ScalarValue>, def: TableDef, shards: seq<Shard>, write: bool)
    requires Validated(shards) && def.Sharded? && RouteValues(values, def.keyType, def.hash, shards).Params?
    requires Spells(lits, bound, def.keyType, ParamsIn(values))
    ensures var r := RouteValues(BindAll(values, lits), def.keyType, def.hash, shards);
      var atBind := ResolveBound(Parameterized(def.hash, def.keyType, ParamsIn(values), write), bound, shards);
      if AllCoerce(bound, def.keyType, ParamsIn(values))
      then r.Shards? && r.hit != {} && atBind == if write then WriteToShards(r.hit) else ReadFromShards(r.hit)
      else r.Uncoercible? && atBind == Reject
  {
    hide Coerce, Validated, Route, ConstShards, BoundValues, ParamsIn, AllCoerce;
    AllParams(values);
    BoundIsLiteral(values, lits, bound, def, shards, ParamsIn(values));
  }

  lemma {:induction false} SpelledBinds(values: seq<KeyVal>, lits: seq<Literal>, bound: seq<ScalarValue>, ty: ScalarType)
    requires Spells(lits, bound, ty, ParamsIn(values))
    ensures AllBind(values, lits)
  {
    hide Coerce;
    forall i | 0 <= i < |values| ensures Binds(values[i], lits) {
      if values[i].ParamVal? { ParamIndex(values, values[i]); }
    }
  }

  lemma WhereSubst(where_: Option<Expr>, key: string, lits: seq<Literal>)
    requires AllBind(WhereValues(where_, key), lits)
    ensures WhereValues(SubstWhere(where_, lits), key) == BindAll(WhereValues(where_, key), lits)
  {
    if where_.Some? { AndSubst(where_.value, key, lits); }
  }

  function SubstSelect(s: Select, lits: seq<Literal>): Select
    requires s.Simple?
  {
    s.(where_ := SubstWhere(s.where_, lits), exprs := SubstAll(s.exprs, lits))
  }

  lemma {:induction false} SelectSubLinkSubst(s: Select, lits: seq<Literal>)
    requires s.Simple?
    ensures SelectHasSubLink(SubstSelect(s, lits)) == SelectHasSubLink(s)
  {
    if s.where_.Some? { SubLinkSubst(s.where_.value, lits); }
    AnySubLinkSubst(s.exprs, lits);
  }

  lemma KeyedReadBound(where_: Option<Expr>, def: TableDef, shards: seq<Shard>, lits: seq<Literal>, bound: seq<ScalarValue>)
    requires Validated(shards) && def.Sharded? && PlanKeyedRead(where_, def, shards).AtBind?
    requires Spells(lits, bound, def.keyType, PlanKeyedRead(where_, def, shards).param.indices)
    ensures var p := PlanKeyedRead(where_, def, shards).param;
      if AllCoerce(bound, def.keyType, p.indices)
      then PlanKeyedRead(SubstWhere(where_, lits), def, shards) == ResolveBound(p, bound, shards)
      else PlanKeyedRead(SubstWhere(where_, lits), def, shards) == Scatter(All(shards)) && ResolveBound(p, bound, shards) == Reject
  {
    hide ConstShards, Validated, Coerce, BoundValues, ParamsIn, WhereValues, ResolveBound, AllCoerce;
    var values := WhereValues(where_, def.key);
    SpelledBinds(values, lits, bound, def.keyType);
    WhereSubst(where_, def.key, lits);
    ResolutionAgrees(values, lits, bound, def, shards, false);
  }

  /**
  A parameterized SELECT completed at Bind is the same statement with its key values written as
  literals, exactly when those values are of the key's type: a bound value that is not is
  refused, while such a literal is scattered.
  */
  lemma BoundSelectIsLiteral(s: Select, vschema: VSchema, shards: seq<Shard>, lits: seq<Literal>, bound: seq<ScalarValue>)
    requires Validated(shards) && s.Simple? && PlanSelect(s, vschema, shards).AtBind?
    requires Spells(lits, bound, PlanSelect(s, vschema, shards).param.keyType, PlanSelect(s, vschema, shards).param.indices)
    ensures var p := PlanSelect(s, vschema, shards).param;
      PlanSelect(SubstSelect(s, lits), vschema, shards) == ResolveBound(p, bound, shards) <==> AllCoerce(bound, p.keyType, p.indices)
  {
    SelectSubLinkSubst(s, lits);
    var def := vschema[ShardedIn(AnalyzeFrom(s.from).tables, vschema)[0]];
    KeyTypeOfRead(s.where_, def, shards);
    hide PlanKeyedRead, Validated, AnalyzeFrom, ShardedIn, SelectHasSubLink, Spells, AllCoerce, ResolveBound;
    KeyedReadBound(s.where_, def, shards, lits, bound);
  }

  lemma KeyTypeOfRead(where_: Option<Expr>, def: TableDef, shards: seq<Shard>)
    requires Validated(shards) && def.Sharded? && PlanKeyedRead(where_, def, shards).AtBind?
    ensures PlanKeyedRead(where_, def, shards).param.keyType == def.keyType
  {
  }

  // ------------------------------------------------------- writes, likewise

  lemma KeyedWriteBound(values: seq<KeyVal>, def: TableDef, shards: seq<Shard>, lits: seq<Literal>, bound: seq<ScalarValue>)
    requires Validated(shards) && def.Sharded? && PlanKeyedWrite(values, def, shards).AtBind?
    requires Spells(lits, bound, def.keyType, PlanKeyedWrite(values, def, shards).param.indices)
    ensures PlanKeyedWrite(BindAll(values, lits), def, shards) == ResolveBound(PlanKeyedWrite(values, def, shards).param, bound, shards)
    ensures PlanKeyedWrite(values, def, shards).param.keyType == def.keyType
    ensures AllBind(values, lits)
  {
    hide ConstShards, Validated, Coerce, BoundValues, ParamsIn, ResolveBound, AllCoerce, AllBind;
    SpelledBinds(values, lits, bound, def.keyType);
    ResolutionAgrees(values, lits, bound, def, shards, true);
  }

  function SubstRows(rows: seq<seq<Expr>>, lits: seq<Literal>): (r: seq<seq<Expr>>)
    ensures |r| == |rows|
  {
    if rows == [] then [] else SubstRows(rows[..|rows| - 1], lits) + [SubstAll(rows[|rows| - 1], lits)]
  }

  lemma {:induction false} SubstAt(args: seq<Expr>, lits: seq<Literal>, i: nat)
    requires i < |args|
    ensures SubstAll(args, lits)[i] == Subst(args[i], lits)
  {
    hide Subst;
    if i < |args| - 1 { SubstAt(args[..|args| - 1], lits, i); }
  }

  lemma {:induction false} CellSubst(rows: seq<seq<Expr>>, idx: nat, lits: seq<Literal>)
    requires CellValues(rows, idx).Some? && AllBind(CellValues(rows, idx).value, lits)
    ensures CellValues(SubstRows(rows, lits), idx) == Some(BindAll(CellValues(rows, idx).value, lits))
  {
    if rows != [] {
      var n := |rows| - 1;
      var init, v := CellValues(rows[..n], idx).value, KeyValOf(rows[n][idx]).value;
      BindsParts(init, [v], lits);
      CellSubst(rows[..n], idx, lits);
      assert SubstRows(rows, lits)[..n] == SubstRows(rows[..n], lits);
      SubstAt(rows[n], lits, idx);
      assert Binds([v][0], lits);
      KeyValSubst(rows[n][idx], lits);
      BindConcat(init, [v], lits);
      assert BindAll([v], lits) == [Bind(v, lits)];
    }
  }

  function SubstWrite(w: Write, lits: seq<Literal>): Write {
    match w
    case Insert(t, cols, rows, exprs, hasWith, conflict) =>
      Insert(t, cols, if rows.Some? then Some(SubstRows(rows.value, lits)) else None, SubstAll(exprs, lits), hasWith, conflict)
    case Update(t, targets, hasFrom, where_, exprs, hasWith) =>
      Update(t, targets, hasFrom, SubstWhere(where_, lits), SubstAll(exprs, lits), hasWith)
    case Delete(t, hasUsing, where_, exprs, hasWith) =>
      Delete(t, hasUsing, SubstWhere(where_, lits), SubstAll(exprs, lits), hasWith)
  }

  lemma {:induction false} AnySubLinkConcat(a: seq<Expr>, b: seq<Expr>)
    ensures AnySubLink(a + b) == (AnySubLink(a) || AnySubLink(b))
  {
    if a == [] {
      assert a + b == b;
    } else {
      assert (a + b)[1..] == a[1..] + b;
      AnySubLinkConcat(a[1..], b);
    }
  }

  lemma {:induction false} FlattenSnoc(init: seq<seq<Expr>>, last: seq<Expr>)
    ensures Flatten(init + [last]) == Flatten(init) + last
  {
    if init == [] {
      assert [] + [last] == [last];
      assert [last][1..] == [];
    } else {
      FlattenSnoc(init[1..], last);
      assert (init + [last])[1..] == init[1..] + [last];
    }
  }

  lemma {:induction false} RowsSubLink(rows: seq<seq<Expr>>, lits: seq<Literal>)
    ensures AnySubLink(Flatten(SubstRows(rows, lits))) == AnySubLink(Flatten(rows))
  {
    if rows != [] {
      var n := |rows| - 1;
      RowsSubLink(rows[..n], lits);
      AnySubLinkSubst(rows[n], lits);
      assert rows == rows[..n] + [rows[n]];
      FlattenSnoc(rows[..n], rows[n]);
      FlattenSnoc(SubstRows(rows[..n], lits), SubstAll(rows[n], lits));
      AnySubLinkConcat(Flatten(rows[..n]), rows[n]);
      AnySubLinkConcat(Flatten(SubstRows(rows[..n], lits)), SubstAll(rows[n], lits));
    }
  }

  lemma WriteSubLinkSubst(w: Write, lits: seq<Literal>)
    ensures AnySubLink(ExprsOf(SubstWrite(w, lits))) == AnySubLink(ExprsOf(w))
  {
    AnySubLinkSubst(w.exprs, lits);
    var rest := if w.Insert? then (if w.rows.Some? then Flatten(w.rows.value) else []) else if w.where_.Some? then [w.where_.value] else [];
    var rest' := if w.Insert? then (if w.rows.Some? then Flatten(SubstRows(w.rows.value, lits)) else [])
                 else if w.where_.Some? then [Subst(w.where_.value, lits)] else [];
    if w.Insert? {
      if w.rows.Some? { RowsSubLink(w.rows.value, lits); }
    } else if w.where_.Some? {
      SubLinkSubst(w.where_.value, lits);
      assert rest[1..] == [] && rest'[1..] == [];
    }
    AnySubLinkConcat(w.exprs, rest);
    AnySubLinkConcat(SubstAll(w.exprs, lits), rest');
  }

  /** The key values a sharded write is planned from. */
  function WriteValues(w: Write, key: string): Option<seq<KeyVal>> {
    match w
    case Insert(_, _, _, _, _, _) => InsertKeyValues(w, key)
    case Update(_, _, _, where_, _, _) => Some(WhereValues(where_, key))
    case Delete(_, _, where_, _, _) => Some(WhereValues(where_, key))
  }

  lemma WriteValuesSubst(w: Write, key: string, lits: seq<Literal>)
    requires WriteValues(w, key).Some? && AllBind(WriteValues(w, key).value, lits)
    ensures WriteValues(SubstWrite(w, lits), key) == Some(BindAll(WriteValues(w, key).value, lits))
  {
    if w.Insert? {
      if w.rows.Some? { CellSubst(w.rows.value, Resolve(w.cols, key), lits); }
    } else {
      WhereSubst(w.where_, key, lits);
    }
  }

  /** A sharded write that is not rejected outright is planned from its key values. */
  lemma WritePlan(w: Write, vschema: VSchema, shards: seq<Shard>)
    requires Validated(shards)
    requires var p := PlanWrite(w, vschema, shards); p.AtBind? || p.SingleShard?
    ensures IsSharded(vschema, w.table) && WriteValues(w, vschema[w.table].key).Some?
    ensures PlanWrite(w, vschema, shards) == PlanKeyedWrite(WriteValues(w, vschema[w.table].key).value, vschema[w.table], shards)
  {
    hide PlanKeyedWrite, Validated, InsertKeyValues, WhereValues;
  }

  /** Writing the parameters out changes no other test of the planner. */
  lemma SubstPlan(w: Write, vschema: VSchema, shards: seq<Shard>, lits: seq<Literal>)
    requires Validated(shards) && PlanWrite(w, vschema, shards).AtBind?
    requires IsSharded(vschema, w.table) && WriteValues(w, vschema[w.table].key).Some?
    requires AllBind(WriteValues(w, vschema[w.table].key).value, lits)
    ensures PlanWrite(SubstWrite(w, lits), vschema, shards)
         == PlanKeyedWrite(BindAll(WriteValues(w, vschema[w.table].key).value, lits), vschema[w.table], shards)
  {
    hide PlanKeyedWrite, Validated, InsertKeyValues, WhereValues, AnySubLink, ExprsOf, AllBind, BindAll;
    WritePlan(w, vschema, shards);
    WriteSubLinkSubst(w, lits);
    WriteValuesSubst(w, vschema[w.table].key, lits);
  }

  /** A parameterized write completed at Bind is the same write with its key values written as literals. */
  lemma BoundWriteIsLiteral(w: Write, vschema: VSchema, shards: seq<Shard>, lits: seq<Literal>, bound: seq<ScalarValue>)
    requires Validated(shards) && PlanWrite(w, vschema, shards).AtBind?
    requires Spells(lits, bound, PlanWrite(w, vschema, shards).param.keyType, PlanWrite(w, vschema, shards).param.indices)
    ensures PlanWrite(SubstWrite(w, lits), vschema, shards) == ResolveBound(PlanWrite(w, vschema, shards).param, bound, shards)
  {
    hide PlanWrite, PlanKeyedWrite, Validated, WriteValues, ResolveBound, Coerce, AllBind, Spells;
    WritePlan(w, vschema, shards);
    var def := vschema[w.table];
    var values := WriteValues(w, def.key).value;
    KeyTypeOfWrite(values, def, shards);
    KeyedWriteBound(values, def, shards, lits, bound);
    SubstPlan(w, vschema, shards, lits);
  }

  lemma KeyTypeOfWrite(values: seq<KeyVal>, def: TableDef, shards: seq<Shard>)
    requires Validated(shards) && def.Sharded? && PlanKeyedWrite(values, def, shards).AtBind?
    ensures PlanKeyedWrite(values, def, shards).param.keyType == def.keyType
  {
  }
}
