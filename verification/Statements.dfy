/** Planning of whole statements (`crates/pgshard-plan/src/lib.rs`). */
module Statements {
  import opened Wrappers
  import opened Catalog
  import opened Scalar
  import opened Sql
  import opened Plan

  datatype RelName = RelName(schema: string, name: string)

  datatype TableDef = Sharded(key: string, keyType: ScalarType, hash: ShardFn) | Global

  type VSchema = map<RelName, TableDef>

  /** An unqualified name is in `public`. */
  function Qualify(schema: string, name: string): RelName {
    RelName(if schema == "" then "public" else schema, name)
  }

  predicate IsCatalog(t: RelName) {
    t.schema == "pg_catalog" || t.schema == "information_schema"
  }

  // ------------------------------------------------------------------- FROM

  /** A FROM item: a relation with its column aliases, a join, or anything whose relations are hidden. */
  datatype FromItem =
    | Relation(schema: string, name: string, aliases: seq<string>)
    | Join(left: FromItem, right: FromItem)
    | Hidden

  datatype FromClause = FromClause(tables: seq<RelName>, allPlain: bool)

  function CollectFrom(item: FromItem): FromClause {
    match item
    case Relation(schema, name, _) => FromClause([Qualify(schema, name)], true)
    case Join(l, r) =>
      var a, b := CollectFrom(l), CollectFrom(r);
      FromClause(a.tables + b.tables, a.allPlain && b.allPlain)
    case Hidden => FromClause([], false)
  }

  function AnalyzeFrom(items: seq<FromItem>): FromClause {
    if items == [] then FromClause([], true)
    else
      var before, last := AnalyzeFrom(items[..|items| - 1]), CollectFrom(items[|items| - 1]);
      FromClause(before.tables + last.tables, before.allPlain && last.allPlain)
  }

  method AnalyzeFromLoop(items: seq<FromItem>) returns (fc: FromClause)
    ensures fc == AnalyzeFrom(items)
  {
    var tables: seq<RelName>, allPlain := [], true;
    for i := 0 to |items|
      invariant FromClause(tables, allPlain) == AnalyzeFrom(items[..i])
    {
      assert items[..i + 1][..i] == items[..i];
      var one := CollectFrom(items[i]);
      tables := tables + one.tables;
      allPlain := allPlain && one.allPlain;
    }
    assert items[..|items|] == items;
    return FromClause(tables, allPlain);
  }

  /** Every relation of a FROM item is known, a catalog relation, or a CTE of the statement. */
  predicate ItemKnown(item: FromItem, vschema: VSchema, ctes: seq<string>) {
    match item
    case Relation(schema, name, _) =>
      (schema == "" && name in ctes) || Qualify(schema, name) in vschema || IsCatalog(Qualify(schema, name))
    case Join(l, r) => ItemKnown(l, vschema, ctes) && ItemKnown(r, vschema, ctes)
    case Hidden => true
  }

  predicate AllKnown(items: seq<FromItem>, vschema: VSchema, ctes: seq<string>) {
    forall i | 0 <= i < |items| :: ItemKnown(items[i], vschema, ctes)
  }

  // ----------------------------------------------------------------- SELECT

  datatype Select =
    | Simple(from: seq<FromItem>, where_: Option<Expr>, exprs: seq<Expr>, ctes: seq<string>)
    | SetOp(left: Select, right: Select, ctes: seq<string>)

  function SetOpFrom(s: Select): FromClause {
    match s
    case Simple(from, _, _, _) => AnalyzeFrom(from)
    case SetOp(l, r, _) =>
      var a, b := SetOpFrom(l), SetOpFrom(r);
      FromClause(a.tables + b.tables, a.allPlain && b.allPlain)
  }

  predicate SelectHasSubLink(s: Select) {
    match s
    case Simple(_, where_, exprs, _) => (where_.Some? && HasSubLink(where_.value)) || AnySubLink(exprs)
    case SetOp(l, r, _) => SelectHasSubLink(l) || SelectHasSubLink(r)
  }

  predicate SelectHasCte(s: Select) {
    match s
    case Simple(_, _, _, ctes) => ctes != []
    case SetOp(l, r, ctes) => ctes != [] || SelectHasCte(l) || SelectHasCte(r)
  }

  predicate SelectKnown(s: Select, vschema: VSchema, outer: seq<string>) {
    match s
    case Simple(from, _, _, ctes) => AllKnown(from, vschema, outer + ctes)
    case SetOp(l, r, ctes) => SelectKnown(l, vschema, outer + ctes) && SelectKnown(r, vschema, outer + ctes)
  }

  predicate IsSharded(vschema: VSchema, t: RelName) {
    t in vschema && vschema[t].Sharded?
  }

  function ShardedIn(tables: seq<RelName>, vschema: VSchema): (r: seq<RelName>)
    ensures forall i | 0 <= i < |r| :: IsSharded(vschema, r[i]) && r[i] in tables
  {
    if tables == [] then []
    else
      var before, last := ShardedIn(tables[..|tables| - 1], vschema), tables[|tables| - 1];
      if IsSharded(vschema, last) then before + [last] else before
  }

  function PlanSetOp(s: Select, vschema: VSchema): Plan {
    if SelectHasSubLink(s) || SelectHasCte(s) then Reject
    else
      var from := SetOpFrom(s);
      if !from.allPlain || ShardedIn(from.tables, vschema) != [] then Reject
      else if from.tables == [] then RouterLocal else Unsharded
  }

  /** The read plan of a keyed table. */
  function PlanKeyedRead(where_: Option<Expr>, def: TableDef, shards: seq<Shard>): Plan
    requires def.Sharded? && Validated(shards)
  {
    match RouteValues(WhereValues(where_, def.key), def.keyType, def.hash, shards)
    case Params(indices) => AtBind(Parameterized(def.hash, def.keyType, indices, false))
    case Shards(hit) => ReadFromShards(hit)
    case _ => Scatter(All(shards))
  }

  function PlanSelect(s: Select, vschema: VSchema, shards: seq<Shard>): Plan
    requires Validated(shards)
  {
    if !SelectKnown(s, vschema, []) then Reject
    else if s.SetOp? then PlanSetOp(s, vschema)
    else
      var from := AnalyzeFrom(s.from);
      var sharded := ShardedIn(from.tables, vschema);
      if sharded == [] then
        if from.tables == [] && from.allPlain && !SelectHasSubLink(s) && s.ctes == [] then RouterLocal else Unsharded
      else if |sharded| != 1 || |from.tables| > 1 || !from.allPlain then Reject
      else if s.ctes != [] || SelectHasSubLink(s) then Reject
      else PlanKeyedRead(s.where_, vschema[sharded[0]], shards)
  }

  // ----------------------------------------------------------------- writes

  datatype OnConflict = OnConflict(doUpdate: bool, constraint: string, elems: seq<string>)

  datatype Write =
    | Insert(table: RelName, cols: seq<string>, rows: Option<seq<seq<Expr>>>, exprs: seq<Expr>, hasWith: bool, conflict: Option<OnConflict>)
    | Update(table: RelName, targets: seq<string>, hasFrom: bool, where_: Option<Expr>, exprs: seq<Expr>, hasWith: bool)
    | Delete(table: RelName, hasUsing: bool, where_: Option<Expr>, exprs: seq<Expr>, hasWith: bool)

  /** The shard-key cell of every VALUES row, or nothing if one cannot be read. */
  function CellValues(rows: seq<seq<Expr>>, idx: nat): Option<seq<KeyVal>> {
    if rows == [] then Some([])
    else
      var before, last := CellValues(rows[..|rows| - 1], idx), rows[|rows| - 1];
      if before.None? || idx >= |last| || KeyValOf(last[idx]).None? then None
      else Some(before.value + [KeyValOf(last[idx]).value])
  }

  function InsertKeyValues(w: Write, key: string): Option<seq<KeyVal>>
    requires w.Insert?
  {
    var idx := Resolve(w.cols, key);
    if idx == |w.cols| || w.rows.None? || w.rows.value == [] then None else CellValues(w.rows.value, idx)
  }

  method InsertKeyValuesLoop(w: Write, key: string) returns (out: Option<seq<KeyVal>>)
    requires w.Insert?
    ensures out == InsertKeyValues(w, key)
  {
    var idx := 0;
    while idx < |w.cols| && w.cols[idx] != key
      invariant idx <= |w.cols| && forall j | 0 <= j < idx :: w.cols[j] != key
    {
      idx := idx + 1;
    }
    if idx == |w.cols| || w.rows.None? || w.rows.value == [] {
      return None;
    }
    var rows := w.rows.value;
    var vals: seq<KeyVal> := [];
    for i := 0 to |rows|
      invariant CellValues(rows[..i], idx) == Some(vals)
    {
      assert rows[..i + 1][..i] == rows[..i];
      if idx >= |rows[i]| || KeyValOf(rows[i][idx]).None? {
        UnreadableRow(rows, idx, i + 1);
        return None;
      }
      vals := vals + [KeyValOf(rows[i][idx]).value];
    }
    assert rows[..|rows|] == rows;
    return Some(vals);
  }

  lemma {:induction false} UnreadableRow(rows: seq<seq<Expr>>, idx: nat, n: nat)
    requires n <= |rows| && CellValues(rows[..n], idx).None?
    ensures CellValues(rows, idx).None?
  {
    if n == |rows| {
      assert rows[..n] == rows;
    } else {
      assert rows[..|rows| - 1][..n] == rows[..n];
      UnreadableRow(rows[..|rows| - 1], idx, n);
    }
  }

  /** The write plan of key values. */
  function PlanKeyedWrite(values: seq<KeyVal>, def: TableDef, shards: seq<Shard>): Plan
    requires def.Sharded? && Validated(shards)
  {
    match RouteValues(values, def.keyType, def.hash, shards)
    case Params(indices) => AtBind(Parameterized(def.hash, def.keyType, indices, true))
    case Shards(hit) => WriteToShards(hit)
    case _ => Reject
  }

  function ExprsOf(w: Write): seq<Expr> {
    match w
    case Insert(_, _, rows, exprs, _, _) => exprs + (if rows.Some? then Flatten(rows.value) else [])
    case Update(_, _, _, where_, exprs, _) => exprs + (if where_.Some? then [where_.value] else [])
    case Delete(_, _, where_, exprs, _) => exprs + (if where_.Some? then [where_.value] else [])
  }

  function Flatten(rows: seq<seq<Expr>>): seq<Expr> {
    if rows == [] then [] else rows[0] + Flatten(rows[1..])
  }

  /** An accepted conflict clause does nothing, and infers its arbiter from columns that include the key. */
  predicate ConflictRoutable(c: Option<OnConflict>, key: string) {
    c.None? || (!c.value.doUpdate && c.value.constraint == "" && key in c.value.elems)
  }

  function PlanInsert(w: Write, vschema: VSchema, shards: seq<Shard>): Plan
    requires w.Insert? && Validated(shards)
  {
    if w.hasWith || AnySubLink(ExprsOf(w)) then Reject
    else if w.table !in vschema then Reject
    else if vschema[w.table].Global? then Unsharded
    else
      var def := vschema[w.table];
      if !ConflictRoutable(w.conflict, def.key) then Reject
      else
        var values := InsertKeyValues(w, def.key);
        if values.None? then Reject else PlanKeyedWrite(values.value, def, shards)
  }

  function PlanUpdate(w: Write, vschema: VSchema, shards: seq<Shard>): Plan
    requires w.Update? && Validated(shards)
  {
    if w.table !in vschema then Reject
    else if vschema[w.table].Global? then Unsharded
    else
      var def := vschema[w.table];
      if def.key in w.targets || w.hasFrom || w.hasWith || AnySubLink(ExprsOf(w)) then Reject
      else PlanKeyedWrite(WhereValues(w.where_, def.key), def, shards)
  }

  function PlanDelete(w: Write, vschema: VSchema, shards: seq<Shard>): Plan
    requires w.Delete? && Validated(shards)
  {
    if w.table !in vschema then Reject
    else if vschema[w.table].Global? then Unsharded
    else if w.hasUsing || w.hasWith || AnySubLink(ExprsOf(w)) then Reject
    else
      var def := vschema[w.table];
      PlanKeyedWrite(WhereValues(w.where_, def.key), def, shards)
  }

  function PlanWrite(w: Write, vschema: VSchema, shards: seq<Shard>): Plan
    requires Validated(shards)
  {
    match w
    case Insert(_, _, _, _, _, _) => PlanInsert(w, vschema, shards)
    case Update(_, _, _, _, _, _) => PlanUpdate(w, vschema, shards)
    case Delete(_, _, _, _, _) => PlanDelete(w, vschema, shards)
  }

  /** The plan a statement runs under once its parameters are known. */
  function Completed(p: Plan, values: seq<ScalarValue>, shards: seq<Shard>): Plan
    requires Validated(shards)
  {
    if p.AtBind? then ResolveBound(p.param, values, shards) else p
  }
}
