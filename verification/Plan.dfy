/**
Shard-key extraction and statement routing (`crates/pgshard-plan/src/lib.rs`,
`crates/pgshard-plan/src/extract.rs`). Sharded tables carry a declared key type; the
shard function is a parameter. Shard lists are sets: their order is not modelled.
*/
module Plan {
  import opened Wrappers
  import opened Keyspace
  import opened Catalog
  import opened Scalar
  import opened Sql

  type ShardFn = ScalarValue -> U64

  // ------------------------------------------------------------- extraction

  datatype KeyVal = ConstVal(v: ScalarValue) | ParamVal(n: nat)

  function KeyValOf(e: Expr): Option<KeyVal> {
    match e
    case Const(lit) => var v := ScalarOf(lit); if v.Some? then Some(ConstVal(v.value)) else None
    case ParamRef(n) => if n > 0 then Some(ParamVal(n)) else None
    case _ => None
  }

  predicate IsKeyColumn(e: Expr, key: string) {
    ColumnName(e) == Some(key)
  }

  function Readable(e: Expr): seq<KeyVal> {
    var v := KeyValOf(e);
    if v.Some? then [v.value] else []
  }

  /** Every element of an IN list, or nothing if one cannot be read. */
  function ListValues(items: seq<Expr>): Option<seq<KeyVal>> {
    if items == [] then Some([])
    else
      var before, last := ListValues(items[..|items| - 1]), KeyValOf(items[|items| - 1]);
      if before.Some? && last.Some? then Some(before.value + [last.value]) else None
  }

  /** The constraint one comparison puts on the key. */
  function ComparisonValues(e: Expr, key: string): seq<KeyVal>
    requires e.AExpr?
  {
    if e.lhs.Absent? || e.rhs.Absent? then []
    else if e.kind.OpKind? && e.name == ["="] then
      if IsKeyColumn(e.lhs, key) then Readable(e.rhs)
      else if IsKeyColumn(e.rhs, key) then Readable(e.lhs)
      else []
    else if e.kind.InKind? && e.name == ["="] && IsKeyColumn(e.lhs, key) && e.rhs.List? then
      var vals := ListValues(e.rhs.items);
      if vals.Some? then vals.value else []
    else []
  }

  function AndValues(e: Expr, key: string): seq<KeyVal>
    decreases e, 1
  {
    match e
    case BoolExpr(AndOp, args) => AllAndValues(args, key)
    case AExpr(_, _, _, _) => ComparisonValues(e, key)
    case _ => []
  }

  function AllAndValues(args: seq<Expr>, key: string): seq<KeyVal>
    decreases args, 0
  {
    if args == [] then [] else AllAndValues(args[..|args| - 1], key) + AndValues(args[|args| - 1], key)
  }

  function WhereValues(where_: Option<Expr>, key: string): seq<KeyVal> {
    if where_.None? then [] else AndValues(where_.value, key)
  }

  /** The collector of one comparison. */
  method CollectComparison(e: Expr, key: string, out: seq<KeyVal>) returns (grown: seq<KeyVal>)
    requires e.AExpr?
    ensures grown == out + ComparisonValues(e, key)
  {
    grown := out;
    if e.lhs.Absent? || e.rhs.Absent? {
      return;
    }
    if e.kind.OpKind? && e.name == ["="] {
      if IsKeyColumn(e.lhs, key) {
        var v := KeyValOf(e.rhs);
        if v.Some? { grown := grown + [v.value]; }
      } else if IsKeyColumn(e.rhs, key) {
        var v := KeyValOf(e.lhs);
        if v.Some? { grown := grown + [v.value]; }
      }
    } else if e.kind.InKind? && e.name == ["="] && IsKeyColumn(e.lhs, key) && e.rhs.List? {
      var items := e.rhs.items;
      var vals: seq<KeyVal> := [];
      for i := 0 to |items|
        invariant ListValues(items[..i]) == Some(vals)
      {
        assert items[..i + 1][..i] == items[..i];
        var v := KeyValOf(items[i]);
        if v.None? {
          UnreadableList(items, i + 1);
          return;
        }
        vals := vals + [v.value];
      }
      assert items[..|items|] == items;
      grown := grown + vals;
    }
  }

  lemma {:induction false} UnreadableList(items: seq<Expr>, n: nat)
    requires n <= |items| && ListValues(items[..n]).None?
    ensures ListValues(items).None?
  {
    if n == |items| {
      assert items[..n] == items;
    } else {
      assert items[..|items| - 1][..n] == items[..n];
      UnreadableList(items[..|items| - 1], n);
    }
  }

  /** The collector over a conjunction. */
  method CollectAnd(e: Expr, key: string, out: seq<KeyVal>) returns (grown: seq<KeyVal>)
    ensures grown == out + AndValues(e, key)
    decreases e
  {
    grown := out;
    if e.BoolExpr? && e.op.AndOp? {
      for i := 0 to |e.args|
        invariant grown == out + AllAndValues(e.args[..i], key)
      {
        assert e.args[..i + 1][..i] == e.args[..i];
        grown := CollectAnd(e.args[i], key, grown);
      }
      assert e.args[..|e.args|] == e.args;
    } else if e.AExpr? {
      grown := CollectComparison(e, key, out);
    }
  }

  // ------------------------------------------------------------- resolution

  datatype Resolution = Unkeyed | Params(indices: seq<nat>) | Mixed | Uncoercible | Shards(hit: set<ShardId>)

  function ParamsIn(values: seq<KeyVal>): seq<nat> {
    if values == [] then []
    else
      var before, last := ParamsIn(values[..|values| - 1]), values[|values| - 1];
      if last.ParamVal? then before + [last.n] else before
  }

  predicate HasConst(values: seq<KeyVal>) {
    exists i | 0 <= i < |values| :: values[i].ConstVal?
  }

  /** The shard a constant routes to, if it is a value of the type. */
  function ShardOf(v: ScalarValue, ty: ScalarType, hash: ShardFn, shards: seq<Shard>): Option<ShardId>
    requires Validated(shards)
  {
    var canonical := Coerce(ty, v);
    if canonical.None? then None else Some(Route(shards, hash(canonical.value)))
  }

  /** The shards of the constants; none if one is not a value of the type. */
  function ConstShards(values: seq<KeyVal>, ty: ScalarType, hash: ShardFn, shards: seq<Shard>): Option<set<ShardId>>
    requires Validated(shards)
  {
    if values == [] then Some({})
    else
      var before, last := ConstShards(values[..|values| - 1], ty, hash, shards), values[|values| - 1];
      if before.None? || last.ParamVal? then before
      else
        var s := ShardOf(last.v, ty, hash, shards);
        if s.None? then None else Some(before.value + {s.value})
  }

  function RouteValues(values: seq<KeyVal>, ty: ScalarType, hash: ShardFn, shards: seq<Shard>): Resolution
    requires Validated(shards)
  {
    if values == [] then Unkeyed
    else if ParamsIn(values) != [] then if HasConst(values) then Mixed else Params(ParamsIn(values))
    else
      var hit := ConstShards(values, ty, hash, shards);
      if hit.None? then Uncoercible else Shards(hit.value)
  }

  method RouteValuesLoop(values: seq<KeyVal>, ty: ScalarType, hash: ShardFn, shards: seq<Shard>) returns (r: Resolution)
    requires Validated(shards)
    ensures r == RouteValues(values, ty, hash, shards)
  {
    hide ShardOf, Validated;
    if values == [] {
      return Unkeyed;
    }
    var params: seq<nat>, hasConst := [], false;
    for i := 0 to |values|
      invariant params == ParamsIn(values[..i]) && (hasConst <==> HasConst(values[..i]))
    {
      assert values[..i + 1][..i] == values[..i];
      assert values[..i + 1] == values[..i] + [values[i]];
      HasConstMore(values[..i], values[i]);
      if values[i].ParamVal? {
        params := params + [values[i].n];
      } else {
        hasConst := true;
      }
    }
    assert values[..|values|] == values;
    hide ParamsIn, HasConst;
    if params != [] {
      if hasConst {
        return Mixed;
      }
      return Params(params);
    }
    var hit: set<ShardId> := {};
    for i := 0 to |values|
      invariant ConstShards(values[..i], ty, hash, shards) == Some(hit)
    {
      assert values[..i + 1][..i] == values[..i];
      if values[i].ConstVal? {
        var s := ShardOf(values[i].v, ty, hash, shards);
        if s.None? {
          UncoercibleStays(values, ty, hash, shards, i + 1);
          return Uncoercible;
        }
        hit := hit + {s.value};
      }
    }
    return Shards(hit);
  }

  lemma HasConstMore(values: seq<KeyVal>, v: KeyVal)
    ensures HasConst(values + [v]) <==> HasConst(values) || v.ConstVal?
  {
    var all := values + [v];
    if HasConst(values) {
      var i :| 0 <= i < |values| && values[i].ConstVal?;
      assert all[i].ConstVal?;
    }
    if v.ConstVal? { assert all[|values|].ConstVal?; }
  }

  lemma {:induction false} UncoercibleStays(values: seq<KeyVal>, ty: ScalarType, hash: ShardFn, shards: seq<Shard>, n: nat)
    requires Validated(shards) && n <= |values| && ConstShards(values[..n], ty, hash, shards).None?
    ensures ConstShards(values, ty, hash, shards).None?
  {
    if n == |values| {
      assert values[..n] == values;
    } else {
      assert values[..|values| - 1][..n] == values[..n];
      UncoercibleStays(values[..|values| - 1], ty, hash, shards, n);
    }
  }

  // ------------------------------------------------------------------ plans

  datatype Parameterized = Parameterized(hash: ShardFn, keyType: ScalarType, indices: seq<nat>, write: bool)

  datatype Plan =
    | SingleShard(shard: ShardId)
    | Scatter(shards: set<ShardId>)
    | Unsharded
    | RouterLocal
    | AtBind(param: Parameterized)
    | Reject

  /** The shards a plan runs on. */
  function Targets(p: Plan): set<ShardId> {
    match p
    case SingleShard(s) => {s}
    case Scatter(all) => all
    case _ => {}
  }

  function ReadFromShards(hit: set<ShardId>): Plan {
    if |hit| == 1 then Only(hit) else Scatter(hit)
  }

  function WriteToShards(hit: set<ShardId>): Plan {
    if |hit| == 1 then Only(hit) else Reject
  }

  lemma OnlyMember(hit: set<ShardId>, s: ShardId)
    requires |hit| == 1 && s in hit
    ensures hit == {s}
  {
    assert |hit - {s}| == 0;
    assert hit == {s} + (hit - {s});
  }

  lemma OneOnly(hit: set<ShardId>)
    requires |hit| == 1
    ensures exists s :: s in hit
    ensures forall s, t | s in hit && t in hit :: s == t
  {
    var s :| s in hit;
    OnlyMember(hit, s);
  }

  /** The plan for a set of exactly one shard. */
  function Only(hit: set<ShardId>): (p: Plan)
    requires |hit| == 1
    ensures p.SingleShard? && hit == {p.shard}
  {
    OneOnly(hit);
    var s :| s in hit;
    OnlyMember(hit, s);
    SingleShard(s)
  }

  /** The values a parameterized plan reads at Bind; none if one is missing. */
  function BoundValues(indices: seq<nat>, values: seq<ScalarValue>): Option<seq<KeyVal>> {
    if indices == [] then Some([])
    else
      var before, n := BoundValues(indices[..|indices| - 1], values), indices[|indices| - 1];
      if before.None? || n == 0 || n > |values| then None else Some(before.value + [ConstVal(values[n - 1])])
  }

  function ResolveBound(p: Parameterized, values: seq<ScalarValue>, shards: seq<Shard>): Plan
    requires Validated(shards)
  {
    var bound := BoundValues(p.indices, values);
    if bound.None? then Reject
    else
      var hit := ConstShards(bound.value, p.keyType, p.hash, shards);
      if hit.None? || hit.value == {} then Reject
      else if p.write then WriteToShards(hit.value) else ReadFromShards(hit.value)
  }

  /** The loop that completes a parameterized plan. */
  method ResolveBoundLoop(p: Parameterized, values: seq<ScalarValue>, shards: seq<Shard>) returns (out: Plan)
    requires Validated(shards)
    ensures out == ResolveBound(p, values, shards)
  {
    hide ShardOf, Validated;
    var hit: set<ShardId> := {};
    ghost var bound: seq<KeyVal> := [];
    for i := 0 to |p.indices|
      invariant BoundValues(p.indices[..i], values) == Some(bound)
      invariant ConstShards(bound, p.keyType, p.hash, shards) == Some(hit)
    {
      assert p.indices[..i + 1][..i] == p.indices[..i];
      var n := p.indices[i];
      if n == 0 || n > |values| {
        MissingStays(p.indices, values, i + 1);
        return Reject;
      }
      var s := ShardOf(values[n - 1], p.keyType, p.hash, shards);
      bound := bound + [ConstVal(values[n - 1])];
      assert bound[..|bound| - 1] + [bound[|bound| - 1]] == bound;
      if s.None? {
        BadValueStays(p, values, shards, i + 1);
        return Reject;
      }
      hit := hit + {s.value};
    }
    assert p.indices[..|p.indices|] == p.indices;
    if hit == {} {
      return Reject;
    }
    if |hit| == 1 {
      out := Only(hit);
    } else if p.write {
      out := Reject;
    } else {
      out := Scatter(hit);
    }
  }

  lemma {:induction false} MissingStays(indices: seq<nat>, values: seq<ScalarValue>, n: nat)
    requires n <= |indices| && BoundValues(indices[..n], values).None?
    ensures BoundValues(indices, values).None?
  {
    if n == |indices| {
      assert indices[..n] == indices;
    } else {
      assert indices[..|indices| - 1][..n] == indices[..n];
      MissingStays(indices[..|indices| - 1], values, n);
    }
  }

  /** A bound value that is not of the type is rejected even if a later parameter is missing. */
  lemma {:induction false} BadValueStays(p: Parameterized, values: seq<ScalarValue>, shards: seq<Shard>, n: nat)
    requires Validated(shards) && n <= |p.indices| && BoundValues(p.indices[..n], values).Some?
    requires ConstShards(BoundValues(p.indices[..n], values).value, p.keyType, p.hash, shards).None?
    ensures ResolveBound(p, values, shards) == Reject
  {
    var bound := BoundValues(p.indices, values);
    if bound.Some? {
      BoundPrefix(p.indices, values, n);
      UncoercibleStays(bound.value, p.keyType, p.hash, shards, n);
    }
  }

  lemma {:induction false} BoundPrefix(indices: seq<nat>, values: seq<ScalarValue>, n: nat)
    requires n <= |indices| && BoundValues(indices, values).Some?
    ensures |BoundValues(indices, values).value| == |indices|
    ensures BoundValues(indices[..n], values) == Some(BoundValues(indices, values).value[..n])
  {
    if indices != [] {
      var m := |indices| - 1;
      BoundPrefix(indices[..m], values, if n < m then n else m);
      if n <= m {
        assert indices[..m][..n] == indices[..n];
        BoundPrefix(indices[..m], values, n);
        assert BoundValues(indices, values).value[..n] == BoundValues(indices[..m], values).value[..n];
      } else {
        assert indices[..n] == indices;
        assert BoundValues(indices, values).value[..n] == BoundValues(indices, values).value;
      }
    }
  }
}
