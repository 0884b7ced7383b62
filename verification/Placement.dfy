/**
Placement over runs of routed writes: every row stays on the shard that owns its key
(`crates/pgshard-plan/src/lib.rs`, `crates/pgshard-plan/src/extract.rs`).
*/
module Placement {
  import opened Wrappers
  import opened Catalog
  import opened Scalar
  import opened Sql
  import opened Plan
  import opened Statements
  import opened Routing

  /** One sharded table of a deployment. */
  datatype Table = Table(name: RelName, vschema: VSchema, shards: seq<Shard>, sc: Scope)

  ghost predicate TableOk(t: Table) {
    && Validated(t.shards)
    && IsSharded(t.vschema, t.name)
    && NamesKey(t.sc, t.vschema[t.name].key)
    && t.sc.KeyType() == t.vschema[t.name].keyType
  }

  ghost predicate AllPlaced(t: Table, data: Data)
    requires TableOk(t)
  {
    Placed(data, t.sc, t.vschema[t.name].hash, t.shards)
  }

  /** The row PostgreSQL stores for a VALUES row: its key is the cell's value, read as the key's type. */
  ghost predicate Stores(t: Table, v: KeyVal, params: seq<ScalarValue>, row: Row)
    requires TableOk(t)
  {
    && Fits(t.sc, row)
    && (v.ParamVal? ==> 0 < v.n <= |params|)
    && Denotes(params, v, t.vschema[t.name].keyType, KeyOf(t.sc, row))
  }

  /** A SET changes only the columns it names. */
  ghost predicate Changes(t: Table, targets: seq<string>, before: Row, after: Row)
    requires TableOk(t)
  {
    && Fits(t.sc, before) && Fits(t.sc, after)
    && forall i | 0 <= i < |t.sc.names| && t.sc.names[i] !in targets :: after.cells[i] == before.cells[i]
  }

  /** What an INSERT leaves on its shard: the old rows, and some of the new ones. */
  ghost predicate Inserted(t: Table, values: seq<KeyVal>, params: seq<ScalarValue>, before: seq<Row>, after: seq<Row>)
    requires TableOk(t)
  {
    && before <= after
    && forall i | |before| <= i < |after| :: exists k :: 0 <= k < |values| && Stores(t, values[k], params, after[i])
  }

  /** What an UPDATE leaves: matched rows changed, the others as they were. */
  ghost predicate Updated(t: Table, m: Meaning, where_: Option<Expr>, targets: seq<string>, before: seq<Row>, after: seq<Row>)
    requires TableOk(t)
  {
    && |after| == |before|
    && forall i | 0 <= i < |before| ::
         if Matches(m, t.sc, where_, before[i]) then Changes(t, targets, before[i], after[i]) else after[i] == before[i]
  }

  /** What a DELETE leaves: exactly the rows it did not match. */
  ghost predicate Deleted(t: Table, m: Meaning, where_: Option<Expr>, before: seq<Row>, after: seq<Row>) {
    forall row :: row in after <==> row in before && !Matches(m, t.sc, where_, row)
  }

  /** A write that was accepted and routed to `s` ran there. */
  ghost predicate WriteStep(t: Table, w: Write, m: Meaning, s: ShardId, data: Data, data': Data)
    requires TableOk(t)
  {
    && w.table == t.name
    && Completed(PlanWrite(w, t.vschema, t.shards), m.params, t.shards) == SingleShard(s)
    && s in data && data'.Keys == data.Keys
    && (forall o | o in data && o != s :: data'[o] == data[o])
    && match w
       case Insert(_, _, _, _, _, _) =>
         var values := InsertKeyValues(w, t.vschema[t.name].key);
         values.Some? && Inserted(t, values.value, m.params, data[s], data'[s])
       case Update(_, targets, _, where_, _, _) => Updated(t, m, where_, targets, data[s], data'[s])
       case Delete(_, _, where_, _, _) => Deleted(t, m, where_, data[s], data'[s])
  }

  // ------------------------------------------------- a write covers its keys

  /** The shard of a key value, once the parameters are known. */
  function ValueShard(v: KeyVal, params: seq<ScalarValue>, def: TableDef, shards: seq<Shard>): Option<ShardId>
    requires Validated(shards) && def.Sharded?
  {
    match v
    case ConstVal(x) => ShardOf(x, def.keyType, def.hash, shards)
    case ParamVal(n) => if 0 < n <= |params| then ShardOf(params[n - 1], def.keyType, def.hash, shards) else None
  }

  /** All the key values of a write, literals only or parameters only, are keys of shard `s`. */
  ghost predicate AllOn(values: seq<KeyVal>, params: seq<ScalarValue>, def: TableDef, shards: seq<Shard>, s: ShardId)
    requires Validated(shards) && def.Sharded?
  {
    && values != [] && (ParamsIn(values) == [] || !HasConst(values))
    && forall i | 0 <= i < |values| :: ValueShard(values[i], params, def, shards) == Some(s)
  }

  /** The shards of constants are exactly those of each. */
  lemma {:induction false} ConstShardsAre(values: seq<KeyVal>, def: TableDef, shards: seq<Shard>, s: ShardId)
    requires Validated(shards) && def.Sharded? && forall i | 0 <= i < |values| :: values[i].ConstVal?
    ensures ConstShards(values, def.keyType, def.hash, shards) == Some({s})
       <==> values != [] && forall i | 0 <= i < |values| :: ShardOf(values[i].v, def.keyType, def.hash, shards) == Some(s)
  {
    hide ShardOf, Validated;
    if values != [] {
      var n := |values| - 1;
      var init := values[..n];
      ConstShardsAre(init, def, shards, s);
      var before := ConstShards(init, def.keyType, def.hash, shards);
      assert forall i | 0 <= i < n :: values[i] == init[i];
      var last := ShardOf(values[n].v, def.keyType, def.hash, shards);
      if ConstShards(values, def.keyType, def.hash, shards) == Some({s}) {
        assert last.value in before.value + {last.value} && before.value <= {s};
        if init != [] {
          ConstShardsHold(init, def.keyType, def.hash, shards, init[0]);
          assert before.value == {s};
        }
      }
      if forall i | 0 <= i < |values| :: ShardOf(values[i].v, def.keyType, def.hash, shards) == Some(s) {
        assert before.value + {s} == {s};
      }
    }
  }

  lemma {:induction false} NoParams(values: seq<KeyVal>)
    ensures ParamsIn(values) == [] <==> forall i | 0 <= i < |values| :: values[i].ConstVal?
  {
    if values != [] {
      var n := |values| - 1;
      NoParams(values[..n]);
      assert forall i | 0 <= i < n :: values[i] == values[..n][i];
    }
  }

  /** Parameters are bound one by one. */
  lemma {:induction false} BoundAre(values: seq<KeyVal>, params: seq<ScalarValue>)
    requires forall i | 0 <= i < |values| :: values[i].ParamVal?
    ensures var b := BoundValues(ParamsIn(values), params);
      && (b.Some? <==> forall i | 0 <= i < |values| :: 0 < values[i].n <= |params|)
      && (b.Some? ==> |b.value| == |values| && forall i | 0 <= i < |values| :: b.value[i] == ConstVal(params[values[i].n - 1]))
  {
    if values != [] {
      var n := |values| - 1;
      BoundAre(values[..n], params);
      assert forall i | 0 <= i < n :: values[i] == values[..n][i];
      var before, last := ParamsIn(values[..n]), values[n].n;
      assert (before + [last])[..|before|] == before;
    }
  }

  lemma {:induction false} BoundOn(values: seq<KeyVal>, params: seq<ScalarValue>, def: TableDef, shards: seq<Shard>, s: ShardId)
    requires Validated(shards) && def.Sharded? && values != [] && !HasConst(values)
    ensures ResolveBound(Parameterized(def.hash, def.keyType, ParamsIn(values), true), params, shards) == SingleShard(s)
       <==> AllOn(values, params, def, shards, s)
  {
    hide ShardOf, Validated, ConstShards, BoundValues, ParamsIn;
    BoundAre(values, params);
    var bound := BoundValues(ParamsIn(values), params);
    if bound.Some? {
      ConstShardsAre(bound.value, def, shards, s);
      var hit := ConstShards(bound.value, def.keyType, def.hash, shards);
      if hit.Some? { OnlyIff(hit.value, s); }
      assert AllOn(values, params, def, shards, s)
        <==> forall i | 0 <= i < |values| :: ShardOf(bound.value[i].v, def.keyType, def.hash, shards) == Some(s);
    }
  }

  lemma OnlyIff(hit: set<ShardId>, s: ShardId)
    ensures WriteToShards(hit) == SingleShard(s) <==> hit == {s}
  {
  }

  /** A keyed write runs on shard `s` exactly when all its key values are keys of `s`. */
  lemma KeyedWriteIff(values: seq<KeyVal>, def: TableDef, shards: seq<Shard>, params: seq<ScalarValue>, s: ShardId)
    requires Validated(shards) && def.Sharded?
    ensures Completed(PlanKeyedWrite(values, def, shards), params, shards) == SingleShard(s) <==> AllOn(values, params, def, shards, s)
  {
    hide ShardOf, Validated, ConstShards, ResolveBound;
    NoParams(values);
    if values != [] {
      if ParamsIn(values) == [] {
        ConstShardsAre(values, def, shards, s);
        var hit := ConstShards(values, def.keyType, def.hash, shards);
        if hit.Some? { OnlyIff(hit.value, s); }
      } else if !HasConst(values) {
        BoundOn(values, params, def, shards, s);
      }
    }
  }

  /** What the planner demands of a write before it looks at keys. */
  ghost predicate Routable(w: Write, key: string) {
    && !w.hasWith && !AnySubLink(ExprsOf(w)) && WriteValues(w, key).Some?
    && match w
       case Insert(_, _, _, _, _, conflict) => ConflictRoutable(conflict, key)
       case Update(_, targets, hasFrom, _, _, _) => key !in targets && !hasFrom
       case Delete(_, hasUsing, _, _, _) => !hasUsing
  }

  /**
  Whatever is bound, a write to a sharded table runs on exactly one shard or is refused; and it
  runs on shard `s` exactly when the statement is routable and all its key values are keys of `s`.
  */
  lemma WriteRunsIff(w: Write, vschema: VSchema, shards: seq<Shard>, params: seq<ScalarValue>, s: ShardId)
    requires Validated(shards) && IsSharded(vschema, w.table)
    ensures var run := Completed(PlanWrite(w, vschema, shards), params, shards);
      && (run.SingleShard? || run.Reject?)
      && (run == SingleShard(s) <==>
            && Routable(w, vschema[w.table].key)
            && AllOn(WriteValues(w, vschema[w.table].key).value, params, vschema[w.table], shards, s))
  {
    hide RouteValues, ConstShards, BoundValues, Validated, InsertKeyValues, WhereValues, AnySubLink, ExprsOf, AllOn;
    if WriteValues(w, vschema[w.table].key).Some? {
      KeyedWriteIff(WriteValues(w, vschema[w.table].key).value, vschema[w.table], shards, params, s);
    }
  }

  lemma WriteCovers(values: seq<KeyVal>, def: TableDef, shards: seq<Shard>, params: seq<ScalarValue>, v: KeyVal, k: ScalarValue, s: ShardId)
    requires Validated(shards) && def.Sharded? && v in values && Denotes(params, v, def.keyType, k)
    requires Completed(PlanKeyedWrite(values, def, shards), params, shards) == SingleShard(s)
    ensures Route(shards, def.hash(k)) == s
  {
    hide Coerce, Validated, Route, PlanKeyedWrite, Completed;
    KeyedWriteIff(values, def, shards, params, s);
  }

  lemma PlannedFromValues(t: Table, w: Write, params: seq<ScalarValue>, s: ShardId)
    requires TableOk(t) && w.table == t.name
    requires Completed(PlanWrite(w, t.vschema, t.shards), params, t.shards) == SingleShard(s)
    ensures WriteValues(w, t.vschema[t.name].key).Some?
    ensures Completed(PlanKeyedWrite(WriteValues(w, t.vschema[t.name].key).value, t.vschema[t.name], t.shards), params, t.shards) == SingleShard(s)
  {
    hide PlanWrite, PlanKeyedWrite, Validated;
    WritePlan(w, t.vschema, t.shards);
  }

  /**
  A routed UPDATE or DELETE is whole: every row it matches, on any shard, is on the one
  shard it runs on.
  */
  lemma WriteIsWhole(t: Table, w: Write, m: Meaning, s: ShardId, data: Data, at: ShardId, i: nat)
    requires TableOk(t) && AllPlaced(t, data) && w.table == t.name && !w.Insert?
    requires Completed(PlanWrite(w, t.vschema, t.shards), m.params, t.shards) == SingleShard(s)
    requires at in data && i < |data[at]| && Matches(m, t.sc, w.where_, data[at][i])
    ensures at == s
  {
    hide PlanWrite, PlanKeyedWrite, Validated, Route, Coerce, Matches;
    var def := t.vschema[t.name];
    PlannedFromValues(t, w, m.params, s);
    var values := WhereValues(w.where_, def.key);
    KeyedWriteIff(values, def, t.shards, m.params, s);
    var v := WhereSound(m, t.sc, def.key, w.where_, data[at][i]);
    WriteCovers(values, def, t.shards, m.params, v, KeyOf(t.sc, data[at][i]), s);
  }

  // ------------------------------------------------------- placement is kept

  lemma ChangedStays(t: Table, targets: seq<string>, before: Row, after: Row, s: ShardId)
    requires TableOk(t) && Changes(t, targets, before, after) && t.vschema[t.name].key !in targets
    requires OwnedBy(before, s, t.sc, t.vschema[t.name].hash, t.shards)
    ensures OwnedBy(after, s, t.sc, t.vschema[t.name].hash, t.shards)
  {
    hide Validated, Route, Coerce;
    assert t.sc.names[t.sc.keyIndex] == t.vschema[t.name].key;
  }

  lemma InsertedOwned(t: Table, w: Write, m: Meaning, s: ShardId, data: Data, data': Data, i: nat)
    requires TableOk(t) && AllPlaced(t, data) && WriteStep(t, w, m, s, data, data') && w.Insert? && i < |data'[s]|
    ensures Fits(t.sc, data'[s][i]) && OwnedBy(data'[s][i], s, t.sc, t.vschema[t.name].hash, t.shards)
  {
    hide PlanWrite, PlanKeyedWrite, Validated, Route, Coerce, Completed, Denotes;
    var def := t.vschema[t.name];
    PlannedFromValues(t, w, m.params, s);
    var values := InsertKeyValues(w, def.key).value;
    if i < |data[s]| {
      assert data'[s][i] == data[s][i];
    } else {
      var k :| 0 <= k < |values| && Stores(t, values[k], m.params, data'[s][i]);
      WriteCovers(values, def, t.shards, m.params, values[k], KeyOf(t.sc, data'[s][i]), s);
    }
  }

  lemma UpdateNamesNoKey(t: Table, w: Write, params: seq<ScalarValue>, s: ShardId)
    requires TableOk(t) && w.table == t.name && w.Update?
    requires Completed(PlanWrite(w, t.vschema, t.shards), params, t.shards) == SingleShard(s)
    ensures t.vschema[t.name].key !in w.targets
  {
    hide PlanKeyedWrite, Validated;
  }

  lemma StepOwned(t: Table, w: Write, m: Meaning, s: ShardId, data: Data, data': Data, i: nat)
    requires TableOk(t) && AllPlaced(t, data) && WriteStep(t, w, m, s, data, data') && i < |data'[s]|
    ensures Fits(t.sc, data'[s][i]) && OwnedBy(data'[s][i], s, t.sc, t.vschema[t.name].hash, t.shards)
  {
    hide PlanWrite, PlanKeyedWrite, Validated, Route, Coerce, Completed, Matches;
    match w
    case Insert(_, _, _, _, _, _) => InsertedOwned(t, w, m, s, data, data', i);
    case Update(_, targets, _, where_, _, _) =>
      UpdateNamesNoKey(t, w, m.params, s);
      assert OwnedBy(data[s][i], s, t.sc, t.vschema[t.name].hash, t.shards);
      if Matches(m, t.sc, where_, data[s][i]) {
        ChangedStays(t, targets, data[s][i], data'[s][i], s);
      }
    case Delete(_, _, _, _, _) =>
      assert data'[s][i] in data[s];
      var k :| 0 <= k < |data[s]| && data[s][k] == data'[s][i];
      assert OwnedBy(data[s][k], s, t.sc, t.vschema[t.name].hash, t.shards);
  }

  lemma StepKeepsPlacement(t: Table, w: Write, m: Meaning, s: ShardId, data: Data, data': Data)
    requires TableOk(t) && AllPlaced(t, data) && WriteStep(t, w, m, s, data, data')
    ensures AllPlaced(t, data')
  {
    forall o, i | o in data' && 0 <= i < |data'[o]|
      ensures Fits(t.sc, data'[o][i]) && OwnedBy(data'[o][i], o, t.sc, t.vschema[t.name].hash, t.shards)
    {
      hide WriteStep, OwnedBy, Fits;
      if o == s { StepOwned(t, w, m, s, data, data', i); } else { OthersStay(t, w, m, s, data, data', o); }
    }
  }

  lemma OthersStay(t: Table, w: Write, m: Meaning, s: ShardId, data: Data, data': Data, o: ShardId)
    requires TableOk(t) && WriteStep(t, w, m, s, data, data') && o in data' && o != s
    ensures o in data && data'[o] == data[o]
  {
  }

  /** A run of accepted writes. */
  datatype Step = Step(w: Write, m: Meaning, s: ShardId)

  ghost predicate IsRun(t: Table, run: seq<Data>, steps: seq<Step>)
    requires TableOk(t)
  {
    && |run| == |steps| + 1
    && forall i {:trigger steps[i]} | 0 <= i < |steps| :: WriteStep(t, steps[i].w, steps[i].m, steps[i].s, run[i], run[i + 1])
  }

  /** Placement is kept by every run of accepted writes. */
  lemma {:induction false} PlacementIsKept(t: Table, run: seq<Data>, steps: seq<Step>, n: nat)
    requires TableOk(t) && IsRun(t, run, steps) && AllPlaced(t, run[0]) && n <= |steps|
    ensures AllPlaced(t, run[n])
  {
    if n > 0 {
      hide AllPlaced, TableOk;
      PlacementIsKept(t, run, steps, n - 1);
      var a := steps[n - 1];
      StepKeepsPlacement(t, a.w, a.m, a.s, run[n - 1], run[n]);
    }
  }

  // -------------------------------------------------------------- conflicts

  /** Two rows conflict under an arbiter: they agree on its columns, and meet whatever else its index demands, such as no nulls. */
  ghost predicate Conflicts(t: Table, elems: seq<string>, rest: (Row, Row) -> bool, a: Row, b: Row)
    requires TableOk(t)
  {
    && Fits(t.sc, a) && Fits(t.sc, b)
    && (forall i | 0 <= i < |t.sc.names| && t.sc.names[i] in elems :: a.cells[i] == b.cells[i])
    && rest(a, b)
  }

  ghost predicate FoundOn(t: Table, elems: seq<string>, rest: (Row, Row) -> bool, row: Row, data: Data, at: ShardId)
    requires TableOk(t)
  {
    at in data && exists i :: 0 <= i < |data[at]| && Conflicts(t, elems, rest, row, data[at][i])
  }

  lemma RoutableConflict(t: Table, w: Write, params: seq<ScalarValue>, s: ShardId)
    requires TableOk(t) && w.table == t.name && w.Insert? && w.conflict.Some?
    requires Completed(PlanWrite(w, t.vschema, t.shards), params, t.shards) == SingleShard(s)
    ensures !w.conflict.value.doUpdate && t.vschema[t.name].key in w.conflict.value.elems
  {
    hide PlanKeyedWrite, Validated;
  }

  /**
  An accepted ON CONFLICT DO NOTHING finds a conflict on its own shard exactly when there is
  one on any shard.
  */
  lemma ConflictIsLocal(t: Table, w: Write, m: Meaning, s: ShardId, data: Data, rest: (Row, Row) -> bool, row: Row, k: nat)
    requires TableOk(t) && AllPlaced(t, data) && w.table == t.name && w.Insert? && w.conflict.Some?
    requires Completed(PlanWrite(w, t.vschema, t.shards), m.params, t.shards) == SingleShard(s)
    requires InsertKeyValues(w, t.vschema[t.name].key).Some? && k < |InsertKeyValues(w, t.vschema[t.name].key).value|
    requires Stores(t, InsertKeyValues(w, t.vschema[t.name].key).value[k], m.params, row)
    ensures FoundOn(t, w.conflict.value.elems, rest, row, data, s)
       <==> exists at :: FoundOn(t, w.conflict.value.elems, rest, row, data, at)
  {
    hide PlanWrite, PlanKeyedWrite, Validated, Route, Coerce, Completed, Denotes;
    var def := t.vschema[t.name];
    var elems := w.conflict.value.elems;
    RoutableConflict(t, w, m.params, s);
    PlannedFromValues(t, w, m.params, s);
    var values := InsertKeyValues(w, def.key).value;
    WriteCovers(values, def, t.shards, m.params, values[k], KeyOf(t.sc, row), s);
    forall at | FoundOn(t, elems, rest, row, data, at) ensures at == s {
      var i :| 0 <= i < |data[at]| && Conflicts(t, elems, rest, row, data[at][i]);
      assert t.sc.names[t.sc.keyIndex] == def.key;
      assert OwnedBy(data[at][i], at, t.sc, def.hash, t.shards);
    }
  }
}
