/**
What a statement's plan is, said on the statement itself: which operands pin the shard key, which
shards they pin it to, and what else of a statement decides its plan
(`crates/pgshard-plan/src/lib.rs`, `crates/pgshard-plan/src/extract.rs`).
*/
module RoutingExact {
  import opened Wrappers
  import opened Catalog
  import opened Scalar
  import opened Sql
  import opened Plan
  import opened Statements
  import opened Routing
  import opened Placement

  // ------------------------------------------------ the operands that pin the key

  ghost predicate NamesColumn(e: Expr, key: string) {
    e.ColumnRef? && !e.star && |e.fields| > 0 && e.fields[|e.fields| - 1] == key
  }

  /** An integer or string literal, or a numbered parameter. */
  ghost predicate IsValue(e: Expr) {
    match e
    case Const(lit) => lit.IntLit? || lit.StrLit? || (lit.NumLit? && lit.asInteger.Some?)
    case ParamRef(n) => n > 0
    case _ => false
  }

  /** What the operand stands for, once the parameters are known. */
  ghost function ValueOf(e: Expr, params: seq<ScalarValue>): Option<ScalarValue>
    requires IsValue(e)
  {
    match e
    case Const(IntLit(i)) => Some(Int64(i))
    case Const(NumLit(n)) => Some(Int64(n.value))
    case Const(StrLit(s)) => Some(Text(s))
    case ParamRef(n) => if n <= |params| then Some(params[n - 1]) else None
  }

  /** `c` has to be true for `e` to be: it is reached through ANDs only. */
  ghost predicate Conjunct(e: Expr, c: Expr)
    decreases e
  {
    if e.BoolExpr? && e.op.AndOp? then exists i :: 0 <= i < |e.args| && Conjunct(e.args[i], c) else c == e
  }

  /** The conjunct is `key = x`, `x = key`, or `key IN (.., x, ..)` with nothing but values in the list. */
  ghost predicate PinnedBy(c: Expr, key: string, x: Expr) {
    && c.AExpr? && c.name == ["="] && IsValue(x)
    && match c.kind
       case OpKind => (NamesColumn(c.lhs, key) && x == c.rhs) || (NamesColumn(c.rhs, key) && x == c.lhs)
       case InKind => NamesColumn(c.lhs, key) && c.rhs.List? && x in c.rhs.items && forall y | y in c.rhs.items :: IsValue(y)
       case OtherKind => false
  }

  /** The operands a WHERE pins the key to. */
  ghost function Pinned(where_: Option<Expr>, key: string): iset<Expr> {
    iset c, x | where_.Some? && Conjunct(where_.value, c) && PinnedBy(c, key, x) :: x
  }

  /** The first column with the key's name. */
  ghost predicate IsColumn(cols: seq<string>, key: string, k: int) {
    0 <= k < |cols| && cols[k] == key && forall j | 0 <= j < k :: cols[j] != key
  }

  /** The cells of VALUES rows under column `k`. */
  ghost function Cells(rows: seq<seq<Expr>>, k: nat): iset<Expr> {
    iset i | 0 <= i < |rows| && k < |rows[i]| :: rows[i][k]
  }

  /** Every row has a value under column `k`. */
  ghost predicate CellsRead(rows: seq<seq<Expr>>, k: nat) {
    forall i | 0 <= i < |rows| :: k < |rows[i]| && IsValue(rows[i][k])
  }

  // ----------------------------------------------- extraction reads exactly those

  lemma ReadsValue(e: Expr)
    ensures IsValue(e) <==> KeyValOf(e).Some?
  {
  }

  lemma {:induction false} ListAre(items: seq<Expr>)
    ensures ListValues(items).Some? <==> forall y | y in items :: IsValue(y)
    ensures ListValues(items).Some? ==> forall v :: v in ListValues(items).value <==> exists x :: x in items && KeyValOf(x) == Some(v)
  {
    if items != [] {
      var init, last := items[..|items| - 1], items[|items| - 1];
      ListAre(init);
      ReadsValue(last);
      hide IsValue, KeyValOf;
      assert items == init + [last];
      assert forall y :: y in items <==> y in init || y == last;
    }
  }

  /** Some operand of the set reads as `v`. */
  ghost predicate Spelt(xs: iset<Expr>, v: KeyVal) {
    exists x :: x in xs && KeyValOf(x) == Some(v)
  }

  /** The values are exactly what the operands read as. */
  ghost predicate Collects(values: seq<KeyVal>, xs: iset<Expr>) {
    (forall x | x in xs :: KeyValOf(x).Some?) && forall v :: v in values <==> Spelt(xs, v)
  }

  lemma ComparisonCollects(c: Expr, key: string)
    requires c.AExpr?
    ensures Collects(ComparisonValues(c, key), iset x | PinnedBy(c, key, x))
  {
    ReadsValue(c.lhs);
    ReadsValue(c.rhs);
    var xs := iset x | PinnedBy(c, key, x);
    var values := ComparisonValues(c, key);
    if c.kind.InKind? && c.rhs.List? { ListAre(c.rhs.items); }
    forall v ensures v in values <==> Spelt(xs, v) {
      hide KeyValOf, IsValue;
      if v in values {
        if c.kind.OpKind? {
          assert (if NamesColumn(c.lhs, key) then c.rhs else c.lhs) in xs;
        } else {
          var x :| x in c.rhs.items && KeyValOf(x) == Some(v);
          assert x in xs;
        }
      }
    }
    forall x | x in xs ensures KeyValOf(x).Some? { ReadsValue(x); }
  }

  lemma CollectsBoth(a: seq<KeyVal>, xs: iset<Expr>, b: seq<KeyVal>, ys: iset<Expr>)
    requires Collects(a, xs) && Collects(b, ys)
    ensures Collects(a + b, xs + ys)
  {
    hide KeyValOf;
    forall v ensures v in a + b <==> Spelt(xs + ys, v) {
      if Spelt(xs, v) {
        var x :| x in xs && KeyValOf(x) == Some(v);
        assert x in xs + ys;
      }
      if Spelt(ys, v) {
        var x :| x in ys && KeyValOf(x) == Some(v);
        assert x in xs + ys;
      }
    }
  }

  ghost function PinnedIn(e: Expr, key: string): iset<Expr> {
    iset c, x | Conjunct(e, c) && PinnedBy(c, key, x) :: x
  }

  ghost function PinnedInAll(args: seq<Expr>, key: string): iset<Expr> {
    iset i, x | 0 <= i < |args| && x in PinnedIn(args[i], key) :: x
  }

  lemma {:induction false} AndCollects(e: Expr, key: string)
    ensures Collects(AndValues(e, key), PinnedIn(e, key))
    decreases e, 1
  {
    hide PinnedBy, ComparisonValues, Collects;
    if e.BoolExpr? && e.op.AndOp? {
      AllCollects(e.args, key);
      forall x ensures x in PinnedIn(e, key) <==> x in PinnedInAll(e.args, key) {
        if x in PinnedIn(e, key) {
          var c :| Conjunct(e, c) && PinnedBy(c, key, x);
          var i :| 0 <= i < |e.args| && Conjunct(e.args[i], c);
          assert x in PinnedIn(e.args[i], key);
        }
        if x in PinnedInAll(e.args, key) {
          var i :| 0 <= i < |e.args| && x in PinnedIn(e.args[i], key);
          var c :| Conjunct(e.args[i], c) && PinnedBy(c, key, x);
          assert Conjunct(e, c);
        }
      }
      assert PinnedIn(e, key) == PinnedInAll(e.args, key);
    } else if e.AExpr? {
      ComparisonCollects(e, key);
      assert Conjunct(e, e);
      assert PinnedIn(e, key) == iset x | PinnedBy(e, key, x);
    } else {
      NothingPinned(e, key);
    }
  }

  lemma NothingPinned(e: Expr, key: string)
    requires !e.AExpr? && !(e.BoolExpr? && e.op.AndOp?)
    ensures Collects([], PinnedIn(e, key))
  {
  }

  lemma {:induction false} AllCollects(args: seq<Expr>, key: string)
    ensures Collects(AllAndValues(args, key), PinnedInAll(args, key))
    decreases args, 0
  {
    hide AndValues, PinnedIn;
    if args != [] {
      var n := |args| - 1;
      var init, last := args[..n], args[n];
      AllCollects(init, key);
      AndCollects(last, key);
      hide Collects;
      CollectsBoth(AllAndValues(init, key), PinnedInAll(init, key), AndValues(last, key), PinnedIn(last, key));
      forall x ensures x in PinnedInAll(args, key) <==> x in PinnedInAll(init, key) + PinnedIn(last, key) {
        if i :| 0 <= i < |args| && x in PinnedIn(args[i], key) {
          if i < n { assert x in PinnedIn(init[i], key); }
        }
        if i :| 0 <= i < n && x in PinnedIn(init[i], key) { assert x in PinnedIn(args[i], key); }
      }
      assert PinnedInAll(args, key) == PinnedInAll(init, key) + PinnedIn(last, key);
    }
  }

  /** Extraction is sound and complete: it reads exactly the operands the WHERE pins the key to. */
  lemma WhereCollects(where_: Option<Expr>, key: string)
    ensures Collects(WhereValues(where_, key), Pinned(where_, key))
  {
    if where_.Some? {
      AndCollects(where_.value, key);
      assert Pinned(where_, key) == PinnedIn(where_.value, key);
    }
  }

  lemma {:induction false} CellsCollect(rows: seq<seq<Expr>>, k: nat)
    ensures CellValues(rows, k).Some? <==> CellsRead(rows, k)
    ensures CellValues(rows, k).Some? ==> Collects(CellValues(rows, k).value, Cells(rows, k))
    ensures rows != [] && CellValues(rows, k).Some? ==> CellValues(rows, k).value != []
  {
    if rows != [] {
      var n := |rows| - 1;
      var init, last := rows[..n], rows[n];
      CellsCollect(init, k);
      assert forall i | 0 <= i < n :: init[i] == rows[i];
      if k < |last| { ReadsValue(last[k]); }
      if CellValues(rows, k).Some? {
        var v := KeyValOf(last[k]).value;
        OneCollects(last[k]);
        CollectsBoth(CellValues(init, k).value, Cells(init, k), [v], iset{last[k]});
        assert Cells(rows, k) == Cells(init, k) + iset{last[k]} by { CellsMore(rows, k); }
      }
    }
  }

  lemma OneCollects(x: Expr)
    requires KeyValOf(x).Some?
    ensures Collects([KeyValOf(x).value], iset{x})
  {
    hide KeyValOf;
    assert x in iset{x};
  }

  lemma CellsMore(rows: seq<seq<Expr>>, k: nat)
    requires rows != [] && k < |rows[|rows| - 1]|
    ensures Cells(rows, k) == Cells(rows[..|rows| - 1], k) + iset{rows[|rows| - 1][k]}
  {
    var n := |rows| - 1;
    var init := rows[..n];
    forall x ensures x in Cells(rows, k) <==> x in Cells(init, k) || x == rows[n][k] {
      if i :| 0 <= i < |rows| && k < |rows[i]| && rows[i][k] == x {
        if i < n { assert init[i][k] == x; }
      }
      if i :| 0 <= i < n && k < |init[i]| && init[i][k] == x { assert rows[i][k] == x; }
    }
  }

  // ------------------------------------------------------- the shards of operands

  /** The shard an operand pins the key to: none if it is unbound or not of the key's type. */
  ghost function KeyShard(x: Expr, params: seq<ScalarValue>, def: TableDef, shards: seq<Shard>): Option<ShardId>
    requires Validated(shards) && def.Sharded? && IsValue(x)
  {
    var v := ValueOf(x, params);
    if v.None? || Coerce(def.keyType, v.value).None? then None
    else Some(Route(shards, def.hash(Coerce(def.keyType, v.value).value)))
  }

  lemma KeyShardIs(x: Expr, params: seq<ScalarValue>, def: TableDef, shards: seq<Shard>)
    requires Validated(shards) && def.Sharded? && IsValue(x)
    ensures KeyValOf(x).Some? && KeyShard(x, params, def, shards) == ValueShard(KeyValOf(x).value, params, def, shards)
    ensures x.Const? <==> KeyValOf(x).value.ConstVal?
  {
    hide Coerce, Route, Validated;
  }

  /** Literals only, or parameters only, and each pins the key to some shard. */
  ghost predicate Decides(xs: iset<Expr>, params: seq<ScalarValue>, def: TableDef, shards: seq<Shard>)
    requires Validated(shards) && def.Sharded?
  {
    && xs != iset{}
    && ((forall x | x in xs :: x.Const?) || (forall x | x in xs :: x.ParamRef?))
    && forall x | x in xs :: IsValue(x) && KeyShard(x, params, def, shards).Some?
  }

  /** Some operand pins the key to `s`. */
  ghost predicate Reaches(xs: iset<Expr>, params: seq<ScalarValue>, def: TableDef, shards: seq<Shard>, s: ShardId)
    requires Validated(shards) && def.Sharded?
  {
    exists x :: x in xs && IsValue(x) && KeyShard(x, params, def, shards) == Some(s)
  }

  ghost predicate AllShards(values: seq<KeyVal>, params: seq<ScalarValue>, def: TableDef, shards: seq<Shard>)
    requires Validated(shards) && def.Sharded?
  {
    forall i | 0 <= i < |values| :: ValueShard(values[i], params, def, shards).Some?
  }

  ghost predicate AnyShard(values: seq<KeyVal>, params: seq<ScalarValue>, def: TableDef, shards: seq<Shard>, s: ShardId)
    requires Validated(shards) && def.Sharded?
  {
    exists i :: 0 <= i < |values| && ValueShard(values[i], params, def, shards) == Some(s)
  }

  lemma {:induction false} ConstShardsSet(values: seq<KeyVal>, params: seq<ScalarValue>, def: TableDef, shards: seq<Shard>)
    requires Validated(shards) && def.Sharded? && forall i | 0 <= i < |values| :: values[i].ConstVal?
    ensures ConstShards(values, def.keyType, def.hash, shards).Some? <==> AllShards(values, params, def, shards)
    ensures AllShards(values, params, def, shards) ==>
      forall s :: s in ConstShards(values, def.keyType, def.hash, shards).value <==> AnyShard(values, params, def, shards, s)
  {
    hide ShardOf, Validated;
    if values != [] {
      var n := |values| - 1;
      var init := values[..n];
      ConstShardsSet(init, params, def, shards);
      assert forall i | 0 <= i < n :: values[i] == init[i];
      if AllShards(values, params, def, shards) {
        forall s ensures s in ConstShards(values, def.keyType, def.hash, shards).value <==> AnyShard(values, params, def, shards, s) {
          if i :| 0 <= i < n && ValueShard(init[i], params, def, shards) == Some(s) {
            assert ValueShard(values[i], params, def, shards) == Some(s);
          }
        }
      }
    }
  }

  /** The plan of a read from key values, once the parameters are known. */
  ghost function ReadRun(values: seq<KeyVal>, params: seq<ScalarValue>, def: TableDef, shards: seq<Shard>): Plan
    requires Validated(shards) && def.Sharded?
  {
    Completed(match RouteValues(values, def.keyType, def.hash, shards)
              case Params(indices) => AtBind(Parameterized(def.hash, def.keyType, indices, false))
              case Shards(hit) => ReadFromShards(hit)
              case _ => Scatter(All(shards)), params, shards)
  }

  lemma HitTargets(hit: set<ShardId>)
    ensures Targets(ReadFromShards(hit)) == hit
    ensures ReadFromShards(hit).SingleShard? || ReadFromShards(hit).Scatter?
  {
  }

  ghost predicate ReadsExactly(run: Plan, values: seq<KeyVal>, params: seq<ScalarValue>, def: TableDef, shards: seq<Shard>)
    requires Validated(shards) && def.Sharded?
  {
    (run.SingleShard? || run.Scatter?) && forall s :: s in Targets(run) <==> AnyShard(values, params, def, shards, s)
  }

  lemma HitReads(hit: set<ShardId>, values: seq<KeyVal>, params: seq<ScalarValue>, def: TableDef, shards: seq<Shard>)
    requires Validated(shards) && def.Sharded? && forall s :: s in hit <==> AnyShard(values, params, def, shards, s)
    ensures ReadsExactly(ReadFromShards(hit), values, params, def, shards)
  {
    hide Validated, AnyShard;
    HitTargets(hit);
  }

  lemma ConstReads(values: seq<KeyVal>, params: seq<ScalarValue>, def: TableDef, shards: seq<Shard>)
    requires Validated(shards) && def.Sharded? && values != [] && forall i | 0 <= i < |values| :: values[i].ConstVal?
    ensures var run := ReadRun(values, params, def, shards);
      if AllShards(values, params, def, shards) then ReadsExactly(run, values, params, def, shards) else run == Scatter(All(shards))
  {
    hide Validated, ConstShards, AllShards, AnyShard, ParamsIn, ReadFromShards, All, ReadsExactly;
    NoParams(values);
    ConstShardsSet(values, params, def, shards);
    if AllShards(values, params, def, shards) {
      var hit := ConstShards(values, def.keyType, def.hash, shards).value;
      HitTargets(hit);
      HitReads(hit, values, params, def, shards);
    }
  }

  /** Bound parameters stand for the values bound to them. */
  lemma BoundShards(values: seq<KeyVal>, bound: seq<KeyVal>, params: seq<ScalarValue>, def: TableDef, shards: seq<Shard>)
    requires Validated(shards) && def.Sharded? && |bound| == |values|
    requires forall i | 0 <= i < |values| :: values[i].ParamVal? && 0 < values[i].n <= |params| && bound[i] == ConstVal(params[values[i].n - 1])
    ensures AllShards(bound, params, def, shards) <==> AllShards(values, params, def, shards)
    ensures forall s :: AnyShard(bound, params, def, shards, s) <==> AnyShard(values, params, def, shards, s)
  {
    hide ShardOf, Validated;
    assert forall i | 0 <= i < |values| :: ValueShard(bound[i], params, def, shards) == ValueShard(values[i], params, def, shards);
  }

  lemma NoConst(values: seq<KeyVal>)
    ensures !HasConst(values) <==> forall i | 0 <= i < |values| :: values[i].ParamVal?
  {
  }

  lemma {:induction false} ParamReads(values: seq<KeyVal>, params: seq<ScalarValue>, def: TableDef, shards: seq<Shard>)
    requires Validated(shards) && def.Sharded? && values != [] && forall i | 0 <= i < |values| :: values[i].ParamVal?
    ensures var run := ReadRun(values, params, def, shards);
      if AllShards(values, params, def, shards) then ReadsExactly(run, values, params, def, shards) else run == Reject
  {
    hide Validated, ConstShards, AnyShard, ParamsIn, ReadFromShards, ReadsExactly, BoundValues, ShardOf, HasConst;
    NoParams(values);
    NoConst(values);
    BoundAre(values, params);
    assert values[0].ParamVal?;
    assert ReadRun(values, params, def, shards)
      == ResolveBound(Parameterized(def.hash, def.keyType, ParamsIn(values), false), params, shards);
    var bound := BoundValues(ParamsIn(values), params);
    if bound.Some? {
      BoundShards(values, bound.value, params, def, shards);
      ConstShardsSet(bound.value, params, def, shards);
      hide AllShards;
      if AllShards(values, params, def, shards) {
        var hit := ConstShards(bound.value, def.keyType, def.hash, shards).value;
        FirstHit(values, hit, params, def, shards);
        HitReads(hit, values, params, def, shards);
      }
    } else {
      var i :| 0 <= i < |values| && !(0 < values[i].n <= |params|);
      assert ValueShard(values[i], params, def, shards).None?;
    }
  }

  lemma FirstHit(values: seq<KeyVal>, hit: set<ShardId>, params: seq<ScalarValue>, def: TableDef, shards: seq<Shard>)
    requires Validated(shards) && def.Sharded? && values != [] && AllShards(values, params, def, shards)
    requires forall s :: s in hit <==> AnyShard(values, params, def, shards, s)
    ensures hit != {}
  {
    hide Validated, ValueShard;
    assert AnyShard(values, params, def, shards, ValueShard(values[0], params, def, shards).value);
  }

  // -------------------------------------------------------- reads of one table

  /** What a keyed read runs on, in terms of the operands that pin its key. */
  ghost predicate ReadIs(run: Plan, xs: iset<Expr>, params: seq<ScalarValue>, def: TableDef, shards: seq<Shard>)
    requires Validated(shards) && def.Sharded?
  {
    if Decides(xs, params, def, shards) then
      (run.SingleShard? || run.Scatter?) && forall s :: s in Targets(run) <==> Reaches(xs, params, def, shards, s)
    else if xs != iset{} && forall x | x in xs :: x.ParamRef? then run == Reject
    else run == Scatter(All(shards))
  }

  /** Values and operands say the same. */
  lemma CollectedShards(values: seq<KeyVal>, xs: iset<Expr>, params: seq<ScalarValue>, def: TableDef, shards: seq<Shard>)
    requires Validated(shards) && def.Sharded? && Collects(values, xs)
    ensures forall s :: AnyShard(values, params, def, shards, s) <==> Reaches(xs, params, def, shards, s)
    ensures AllShards(values, params, def, shards) <==> forall x | x in xs :: IsValue(x) && KeyShard(x, params, def, shards).Some?
  {
    hide Validated, ValueShard, KeyShard, KeyValOf, IsValue;
    hide Collects;
    forall x | x in xs
      ensures KeyValOf(x).Some? && IsValue(x) && KeyShard(x, params, def, shards) == ValueShard(KeyValOf(x).value, params, def, shards)
    {
      var i := CollectedSome(values, xs, x);
      ReadsValue(x);
      KeyShardIs(x, params, def, shards);
    }
    forall s ensures AnyShard(values, params, def, shards, s) <==> Reaches(xs, params, def, shards, s) {
      if i :| 0 <= i < |values| && ValueShard(values[i], params, def, shards) == Some(s) {
        var x := CollectedFrom(values, xs, i);
      }
      if x :| x in xs && IsValue(x) && KeyShard(x, params, def, shards) == Some(s) {
        var i := CollectedSome(values, xs, x);
      }
    }
    forall i | 0 <= i < |values| && (forall x | x in xs :: IsValue(x) && KeyShard(x, params, def, shards).Some?)
      ensures ValueShard(values[i], params, def, shards).Some?
    {
      var x := CollectedFrom(values, xs, i);
    }
    forall x | x in xs && AllShards(values, params, def, shards) ensures KeyShard(x, params, def, shards).Some? {
      var i := CollectedSome(values, xs, x);
    }
  }

  /** Every value is that of an operand, and the other way round. */
  lemma CollectedSome(values: seq<KeyVal>, xs: iset<Expr>, x: Expr) returns (i: nat)
    requires Collects(values, xs) && x in xs
    ensures KeyValOf(x).Some? && i < |values| && values[i] == KeyValOf(x).value
  {
    hide KeyValOf;
    assert Spelt(xs, KeyValOf(x).value);
    i :| 0 <= i < |values| && values[i] == KeyValOf(x).value;
  }

  lemma CollectedFrom(values: seq<KeyVal>, xs: iset<Expr>, i: nat) returns (x: Expr)
    requires Collects(values, xs) && i < |values|
    ensures x in xs && KeyValOf(x) == Some(values[i])
  {
    hide KeyValOf;
    assert Spelt(xs, values[i]);
    x :| x in xs && KeyValOf(x) == Some(values[i]);
  }

  lemma CollectedKinds(values: seq<KeyVal>, xs: iset<Expr>)
    requires Collects(values, xs)
    ensures values == [] <==> xs == iset{}
    ensures (forall i | 0 <= i < |values| :: values[i].ConstVal?) <==> forall x | x in xs :: x.Const?
    ensures (forall i | 0 <= i < |values| :: values[i].ParamVal?) <==> forall x | x in xs :: x.ParamRef?
  {
    hide Collects;
    if values != [] { var x := CollectedFrom(values, xs, 0); }
    if xs != iset{} {
      var x :| x in xs;
      var i := CollectedSome(values, xs, x);
    }
    forall i | 0 <= i < |values|
      ensures (forall x | x in xs :: x.Const?) ==> values[i].ConstVal?
      ensures (forall x | x in xs :: x.ParamRef?) ==> values[i].ParamVal?
    {
      var x := CollectedFrom(values, xs, i);
    }
    forall x | x in xs
      ensures (forall i | 0 <= i < |values| :: values[i].ConstVal?) ==> x.Const?
      ensures (forall i | 0 <= i < |values| :: values[i].ParamVal?) ==> x.ParamRef?
    {
      var i := CollectedSome(values, xs, x);
    }
  }

  lemma CollectedRead(values: seq<KeyVal>, xs: iset<Expr>, params: seq<ScalarValue>, def: TableDef, shards: seq<Shard>)
    requires Validated(shards) && def.Sharded? && Collects(values, xs)
    ensures ReadIs(ReadRun(values, params, def, shards), xs, params, def, shards)
  {
    hide Validated, Collects, AllShards, AnyShard, Reaches, KeyShard, IsValue, All;
    CollectedShards(values, xs, params, def, shards);
    CollectedKinds(values, xs);
    if values != [] && forall i | 0 <= i < |values| :: values[i].ConstVal? {
      hide ReadRun;
      assert xs != iset{};
      ConstReads(values, params, def, shards);
    } else if values != [] && forall i | 0 <= i < |values| :: values[i].ParamVal? {
      hide ReadRun;
      ParamReads(values, params, def, shards);
    } else {
      NoParams(values);
      NoConst(values);
    }
  }

  // ------------------------------------------------------------ inside statements

  /** `x` is `e` or an expression inside it. */
  ghost predicate Within(e: Expr, x: Expr)
    decreases e
  {
    x == e
    || match e
       case BoolExpr(_, args) => exists i :: 0 <= i < |args| && Within(args[i], x)
       case AExpr(_, _, lhs, rhs) => Within(lhs, x) || Within(rhs, x)
       case List(items) => exists i :: 0 <= i < |items| && Within(items[i], x)
       case Opaque(_, args) => exists i :: 0 <= i < |args| && Within(args[i], x)
       case _ => false
  }

  /** A subquery stands somewhere in the expression. */
  ghost predicate Nests(e: Expr) {
    exists x :: Within(e, x) && x.SubLink?
  }

  ghost predicate AnyNests(es: seq<Expr>) {
    exists i :: 0 <= i < |es| && Nests(es[i])
  }

  lemma NestsIn(e: Expr, part: Expr)
    requires Nests(part) && forall x | Within(part, x) :: Within(e, x)
    ensures Nests(e)
  {
    hide Within;
    var x :| Within(part, x) && x.SubLink?;
    assert Within(e, x);
  }

  lemma {:induction false} SubLinkIff(e: Expr)
    ensures HasSubLink(e) <==> Nests(e)
    decreases e, 1
  {
    match e
    case SubLink(_) => assert Within(e, e);
    case BoolExpr(_, args) =>
      AnySubLinkIff(args);
      if i :| 0 <= i < |args| && Nests(args[i]) { NestsIn(e, args[i]); }
    case List(items) =>
      AnySubLinkIff(items);
      if i :| 0 <= i < |items| && Nests(items[i]) { NestsIn(e, items[i]); }
    case Opaque(_, args) =>
      AnySubLinkIff(args);
      if i :| 0 <= i < |args| && Nests(args[i]) { NestsIn(e, args[i]); }
    case AExpr(_, _, lhs, rhs) =>
      SubLinkIff(lhs);
      SubLinkIff(rhs);
      if Nests(lhs) { NestsIn(e, lhs); }
      if Nests(rhs) { NestsIn(e, rhs); }
    case _ =>
  }

  lemma {:induction false} AnySubLinkIff(es: seq<Expr>)
    ensures AnySubLink(es) <==> AnyNests(es)
    decreases es, 0
  {
    hide Nests, HasSubLink;
    if es != [] {
      SubLinkIff(es[0]);
      AnySubLinkIff(es[1..]);
      if i :| 0 <= i < |es| && Nests(es[i]) {
        if i > 0 { assert Nests(es[1..][i - 1]); }
      }
      if i :| 0 <= i < |es| - 1 && Nests(es[1..][i]) { assert Nests(es[i + 1]); }
    }
  }

  /** A relation named in a FROM item. */
  ghost predicate Names(item: FromItem, r: FromItem) {
    match item
    case Relation(_, _, _) => r == item
    case Join(left, right) => Names(left, r) || Names(right, r)
    case Hidden => false
  }

  ghost predicate Hides(item: FromItem) {
    match item
    case Relation(_, _, _) => false
    case Join(left, right) => Hides(left) || Hides(right)
    case Hidden => true
  }

  ghost predicate FromNames(items: seq<FromItem>, r: FromItem) {
    exists i :: 0 <= i < |items| && Names(items[i], r)
  }

  ghost predicate FromHides(items: seq<FromItem>) {
    exists i :: 0 <= i < |items| && Hides(items[i])
  }

  /** The table a relation of a FROM clause is: an unqualified name is in `public`. */
  ghost function Fully(r: FromItem): RelName
    requires r.Relation?
  {
    RelName(if r.schema == "" then "public" else r.schema, r.name)
  }

  /** A relation the planner knows: of the schema, of the catalogs, or a CTE in scope. */
  ghost predicate Known(r: FromItem, vschema: VSchema, ctes: seq<string>)
    requires r.Relation?
  {
    || (r.schema == "" && exists i :: 0 <= i < |ctes| && ctes[i] == r.name)
    || Fully(r) in vschema
    || Fully(r).schema in {"pg_catalog", "information_schema"}
  }

  lemma {:induction false} NamedIsRelation(item: FromItem, r: FromItem)
    requires Names(item, r)
    ensures r.Relation?
  {
    if item.Join? {
      if Names(item.left, r) { NamedIsRelation(item.left, r); } else { NamedIsRelation(item.right, r); }
    }
  }

  ghost predicate TableOf(item: FromItem, t: RelName) {
    exists r :: Names(item, r) && r.Relation? && Fully(r) == t
  }

  lemma {:induction false} CollectedTables(item: FromItem, t: RelName)
    ensures CollectFrom(item).allPlain <==> !Hides(item)
    ensures t in CollectFrom(item).tables <==> TableOf(item, t)
  {
    if item.Join? {
      CollectedTables(item.left, t);
      CollectedTables(item.right, t);
      if TableOf(item.left, t) {
        var r :| Names(item.left, r) && r.Relation? && Fully(r) == t;
        assert Names(item, r);
      }
      if TableOf(item.right, t) {
        var r :| Names(item.right, r) && r.Relation? && Fully(r) == t;
        assert Names(item, r);
      }
    } else if item.Relation? {
      assert Names(item, item);
    }
  }

  ghost predicate FromTable(items: seq<FromItem>, t: RelName) {
    exists r :: FromNames(items, r) && r.Relation? && Fully(r) == t
  }

  lemma FromMore(init: seq<FromItem>, last: FromItem, t: RelName)
    ensures FromTable(init + [last], t) <==> FromTable(init, t) || TableOf(last, t)
    ensures FromHides(init + [last]) <==> FromHides(init) || Hides(last)
  {
    hide Names, Hides, Fully;
    var items := init + [last];
    assert items[|init|] == last;
    assert forall i | 0 <= i < |init| :: items[i] == init[i];
    forall r ensures FromNames(items, r) <==> FromNames(init, r) || Names(last, r) {
      if i :| 0 <= i < |init| && Names(init[i], r) { assert Names(items[i], r); }
    }
    if i :| 0 <= i < |init| && Hides(init[i]) { assert Hides(items[i]); }
    if TableOf(last, t) {
      var r :| Names(last, r) && r.Relation? && Fully(r) == t;
      assert FromNames(items, r);
    }
    if FromTable(init, t) {
      var r :| FromNames(init, r) && r.Relation? && Fully(r) == t;
      assert FromNames(items, r);
    }
  }

  /** The relations of a FROM clause are exactly those its items name, and it is plain exactly if none is hidden. */
  lemma {:induction false} FromIs(items: seq<FromItem>, t: RelName)
    ensures t in AnalyzeFrom(items).tables <==> FromTable(items, t)
    ensures AnalyzeFrom(items).allPlain <==> !FromHides(items)
  {
    hide CollectFrom;
    if items != [] {
      var init, last := items[..|items| - 1], items[|items| - 1];
      FromIs(init, t);
      CollectedTables(last, t);
      hide FromTable, FromHides, TableOf, Hides;
      FromMore(init, last, t);
      assert items == init + [last];
    }
  }

  // ------------------------------------------------------------------- SELECT

  /** Some relation of the FROM clause is a sharded table. */
  ghost predicate FromSharded(items: seq<FromItem>, vschema: VSchema) {
    exists t :: FromTable(items, t) && IsSharded(vschema, t)
  }

  ghost predicate FromKnown(items: seq<FromItem>, vschema: VSchema, ctes: seq<string>) {
    forall r | FromNames(items, r) && r.Relation? :: Known(r, vschema, ctes)
  }

  lemma {:induction false} ItemKnownIff(item: FromItem, vschema: VSchema, ctes: seq<string>)
    ensures ItemKnown(item, vschema, ctes) <==> forall r | Names(item, r) && r.Relation? :: Known(r, vschema, ctes)
  {
    if item.Join? {
      ItemKnownIff(item.left, vschema, ctes);
      ItemKnownIff(item.right, vschema, ctes);
      hide ItemKnown, Known;
      assert forall r :: Names(item, r) <==> Names(item.left, r) || Names(item.right, r);
    } else if item.Relation? {
      assert Names(item, item);
    }
  }

  lemma AllKnownIff(items: seq<FromItem>, vschema: VSchema, ctes: seq<string>)
    ensures AllKnown(items, vschema, ctes) <==> FromKnown(items, vschema, ctes)
  {
    hide ItemKnown, Known, Names;
    forall i | 0 <= i < |items|
      ensures ItemKnown(items[i], vschema, ctes) <==> forall r | Names(items[i], r) && r.Relation? :: Known(r, vschema, ctes)
    {
      ItemKnownIff(items[i], vschema, ctes);
    }
    if AllKnown(items, vschema, ctes) {
      forall r | FromNames(items, r) && r.Relation? ensures Known(r, vschema, ctes) {
        var i :| 0 <= i < |items| && Names(items[i], r);
      }
    }
    if FromKnown(items, vschema, ctes) {
      forall i | 0 <= i < |items| ensures ItemKnown(items[i], vschema, ctes) {
        forall r | Names(items[i], r) && r.Relation? ensures Known(r, vschema, ctes) { assert FromNames(items, r); }
      }
    }
  }

  lemma {:induction false} ShardedInIff(tables: seq<RelName>, vschema: VSchema)
    ensures ShardedIn(tables, vschema) != [] <==> exists t :: t in tables && IsSharded(vschema, t)
  {
    hide IsSharded;
    if tables != [] {
      var init, last := tables[..|tables| - 1], tables[|tables| - 1];
      ShardedInIff(init, vschema);
      assert tables == init + [last];
      assert forall t :: t in tables <==> t in init || t == last;
    }
  }

  lemma FromShardedIff(items: seq<FromItem>, vschema: VSchema)
    ensures ShardedIn(AnalyzeFrom(items).tables, vschema) != [] <==> FromSharded(items, vschema)
  {
    hide AnalyzeFrom, ShardedIn, FromTable, IsSharded;
    ShardedInIff(AnalyzeFrom(items).tables, vschema);
    forall t ensures t in AnalyzeFrom(items).tables <==> FromTable(items, t) { FromIs(items, t); }
  }

  lemma NoTables(items: seq<FromItem>)
    ensures AnalyzeFrom(items).tables == [] <==> forall t :: !FromTable(items, t)
    ensures AnalyzeFrom(items).allPlain <==> !FromHides(items)
  {
    hide AnalyzeFrom, FromTable, FromHides;
    var tables := AnalyzeFrom(items).tables;
    forall t ensures t in tables <==> FromTable(items, t) { FromIs(items, t); }
    FromIs(items, RelName("", ""));
    if tables != [] { assert tables[0] in tables; }
  }

  /** A subquery stands somewhere in the statement. */
  ghost predicate SelectNests(s: Select)
    requires s.Simple?
  {
    (s.where_.Some? && Nests(s.where_.value)) || AnyNests(s.exprs)
  }

  lemma SelectNestsIff(s: Select)
    requires s.Simple?
    ensures SelectHasSubLink(s) <==> SelectNests(s)
  {
    hide HasSubLink, Nests;
    if s.where_.Some? { SubLinkIff(s.where_.value); }
    AnySubLinkIff(s.exprs);
  }

  /** The statement reads one relation of its FROM clause and has neither a CTE nor a subquery. */
  ghost predicate ReadsOnly(s: Select)
    requires s.Simple?
  {
    |s.from| == 1 && s.from[0].Relation? && s.ctes == [] && !SelectNests(s)
  }

  lemma OnlyItem(items: seq<FromItem>, vschema: VSchema)
    requires FromSharded(items, vschema)
    ensures |AnalyzeFrom(items).tables| <= 1 && AnalyzeFrom(items).allPlain <==> |items| == 1 && items[0].Relation?
    ensures |items| == 1 && items[0].Relation? ==>
      var t := Fully(items[0]);
      AnalyzeFrom(items) == FromClause([t], true) && IsSharded(vschema, t) && ShardedIn([t], vschema) == [t]
  {
    hide IsSharded;
    var t :| FromTable(items, t) && IsSharded(vschema, t);
    FromIs(items, t);
    assert t in AnalyzeFrom(items).tables;
    if |AnalyzeFrom(items).tables| <= 1 && AnalyzeFrom(items).allPlain {
      OnePlainRelation(items);
    }
    if |items| == 1 && items[0].Relation? {
      assert items[..0] == [] && AnalyzeFrom([]) == FromClause([], true);
      var u := Fully(items[0]);
      assert AnalyzeFrom(items).tables == [u];
      assert t == u;
      assert [u][..0] == [] && [] + [u] == [u];
    }
  }

  /**
  What a SELECT without set operations becomes, whatever is bound. A relation nobody knows is
  refused. One that reads a sharded table runs, if that is the one relation it reads and it has
  no CTE and no subquery, on exactly the shards the operands of its WHERE pin the key to, and on
  all of them if they decide nothing; anything else over a sharded table is refused. The rest
  goes to the unsharded database, or stays in the router if it reads nothing at all.
  */
  lemma SelectIs(s: Select, vschema: VSchema, shards: seq<Shard>, params: seq<ScalarValue>)
    requires Validated(shards) && s.Simple?
    ensures var run := Completed(PlanSelect(s, vschema, shards), params, shards);
      if !FromKnown(s.from, vschema, s.ctes) then run == Reject
      else if FromSharded(s.from, vschema) then
        if !ReadsOnly(s) then run == Reject
        else
          var t := Fully(s.from[0]);
          IsSharded(vschema, t) && ReadIs(run, Pinned(s.where_, vschema[t].key), params, vschema[t], shards)
      else if (forall t :: !FromTable(s.from, t)) && !FromHides(s.from) && !SelectNests(s) && s.ctes == [] then run == RouterLocal
      else run == Unsharded
  {
    hide Validated, AllKnown, FromKnown, FromSharded, AnalyzeFrom, ShardedIn, FromTable, FromHides, SelectNests, SelectHasSubLink, ReadIs, PlanKeyedRead;
    assert [] + s.ctes == s.ctes;
    AllKnownIff(s.from, vschema, s.ctes);
    FromShardedIff(s.from, vschema);
    NoTables(s.from);
    SelectNestsIff(s);
    if FromSharded(s.from, vschema) {
      OnlyItem(s.from, vschema);
      if ReadsOnly(s) {
        var t := Fully(s.from[0]);
        KeyedReadIs(s.where_, vschema[t], shards, params);
      }
    }
  }

  lemma KeyedReadIs(where_: Option<Expr>, def: TableDef, shards: seq<Shard>, params: seq<ScalarValue>)
    requires Validated(shards) && def.Sharded?
    ensures ReadIs(Completed(PlanKeyedRead(where_, def, shards), params, shards), Pinned(where_, def.key), params, def, shards)
  {
    hide Validated, ReadIs, RouteValues, WhereValues, ResolveBound;
    WhereCollects(where_, def.key);
    CollectedRead(WhereValues(where_, def.key), Pinned(where_, def.key), params, def, shards);
  }

  // ------------------------------------------------------------ set operations

  /** A SELECT at the bottom of the set operations. */
  ghost predicate Branch(s: Select, b: Select) {
    if s.Simple? then b == s else Branch(s.left, b) || Branch(s.right, b)
  }

  ghost predicate AnyCte(s: Select) {
    s.ctes != [] || (s.SetOp? && (AnyCte(s.left) || AnyCte(s.right)))
  }

  /** A branch the unsharded database cannot be given. */
  ghost predicate Bars(b: Select, vschema: VSchema)
    requires b.Simple?
  {
    SelectNests(b) || FromHides(b.from) || FromSharded(b.from, vschema) || !FromKnown(b.from, vschema, [])
  }

  ghost predicate AnyBars(s: Select, vschema: VSchema) {
    exists b: Select :: Branch(s, b) && b.Simple? && Bars(b, vschema)
  }

  ghost predicate ReadsNothing(s: Select) {
    forall b: Select, t | Branch(s, b) && b.Simple? :: !FromTable(b.from, t)
  }

  lemma {:induction false} BranchesBar(s: Select, vschema: VSchema)
    requires !AnyCte(s)
    ensures SelectHasCte(s) == false
    ensures AnyBars(s, vschema) <==>
      SelectHasSubLink(s) || !SetOpFrom(s).allPlain || ShardedIn(SetOpFrom(s).tables, vschema) != [] || !SelectKnown(s, vschema, [])
    ensures SetOpFrom(s).tables == [] <==> ReadsNothing(s)
  {
    hide FromTable, FromHides, FromSharded, FromKnown, SelectNests, AllKnown, AnalyzeFrom, ShardedIn;
    if s.Simple? {
      assert [] + s.ctes == [];
      AllKnownIff(s.from, vschema, []);
      FromShardedIff(s.from, vschema);
      NoTables(s.from);
      SelectNestsIff(s);
      assert Branch(s, s);
    } else {
      assert [] + s.ctes == [];
      BranchesBar(s.left, vschema);
      BranchesBar(s.right, vschema);
      ShardedInBoth(SetOpFrom(s.left).tables, SetOpFrom(s.right).tables, vschema);
      if AnyBars(s.left, vschema) {
        var b: Select :| Branch(s.left, b) && b.Simple? && Bars(b, vschema);
        assert Branch(s, b);
      }
      if AnyBars(s.right, vschema) {
        var b: Select :| Branch(s.right, b) && b.Simple? && Bars(b, vschema);
        assert Branch(s, b);
      }
    }
  }

  lemma ShardedInBoth(a: seq<RelName>, b: seq<RelName>, vschema: VSchema)
    ensures ShardedIn(a + b, vschema) != [] <==> ShardedIn(a, vschema) != [] || ShardedIn(b, vschema) != []
  {
    hide ShardedIn, IsSharded;
    ShardedInIff(a, vschema);
    ShardedInIff(b, vschema);
    ShardedInIff(a + b, vschema);
    assert forall t :: t in a + b <==> t in a || t in b;
  }

  lemma {:induction false} CteIff(s: Select)
    ensures SelectHasCte(s) <==> AnyCte(s)
  {
    if s.SetOp? {
      CteIff(s.left);
      CteIff(s.right);
    }
  }

  /**
  A set operation is never sent to shards: it is refused if it has a CTE anywhere, or a branch
  with a subquery, a hidden relation, a sharded table or an unknown relation, and otherwise goes
  to the unsharded database, or stays in the router if no branch reads anything.
  */
  lemma SetOpIs(s: Select, vschema: VSchema, shards: seq<Shard>)
    requires Validated(shards) && s.SetOp?
    ensures var p := PlanSelect(s, vschema, shards);
      if AnyCte(s) || AnyBars(s, vschema) then p == Reject
      else if ReadsNothing(s) then p == RouterLocal
      else p == Unsharded
  {
    hide SelectKnown, SelectHasSubLink, SetOpFrom, ShardedIn, AnyBars, ReadsNothing, AnyCte;
    CteIff(s);
    if !AnyCte(s) { BranchesBar(s, vschema); }
  }

  // ------------------------------------------------------------------- writes

  /** Every operand pins the key to `s`. */
  ghost predicate AllReach(xs: iset<Expr>, params: seq<ScalarValue>, def: TableDef, shards: seq<Shard>, s: ShardId)
    requires Validated(shards) && def.Sharded?
  {
    Decides(xs, params, def, shards) && forall x | x in xs :: IsValue(x) && KeyShard(x, params, def, shards) == Some(s)
  }

  lemma CollectedOn(values: seq<KeyVal>, xs: iset<Expr>, params: seq<ScalarValue>, def: TableDef, shards: seq<Shard>, s: ShardId)
    requires Validated(shards) && def.Sharded? && Collects(values, xs)
    ensures AllOn(values, params, def, shards, s) <==> AllReach(xs, params, def, shards, s)
  {
    hide Validated, Collects, ValueShard, KeyShard, KeyValOf, IsValue, ParamsIn, HasConst;
    CollectedKinds(values, xs);
    NoParams(values);
    NoConst(values);
    forall x | x in xs
      ensures KeyValOf(x).Some? && IsValue(x) && KeyShard(x, params, def, shards) == ValueShard(KeyValOf(x).value, params, def, shards)
    {
      var i := CollectedSome(values, xs, x);
      ReadsValue(x);
      KeyShardIs(x, params, def, shards);
    }
    if AllOn(values, params, def, shards, s) {
      forall x | x in xs ensures KeyShard(x, params, def, shards) == Some(s) {
        var i := CollectedSome(values, xs, x);
      }
    }
    if AllReach(xs, params, def, shards, s) {
      forall i | 0 <= i < |values| ensures ValueShard(values[i], params, def, shards) == Some(s) {
        var x := CollectedFrom(values, xs, i);
      }
    }
  }

  /** A subquery stands somewhere in the write. */
  ghost predicate WriteNests(w: Write) {
    || AnyNests(w.exprs)
    || match w
       case Insert(_, _, rows, _, _, _) => rows.Some? && exists i :: 0 <= i < |rows.value| && AnyNests(rows.value[i])
       case Update(_, _, _, where_, _, _) => where_.Some? && Nests(where_.value)
       case Delete(_, _, where_, _, _) => where_.Some? && Nests(where_.value)
  }

  lemma NestsBoth(a: seq<Expr>, b: seq<Expr>)
    ensures AnyNests(a + b) <==> AnyNests(a) || AnyNests(b)
  {
    hide Nests;
    if i :| 0 <= i < |a| && Nests(a[i]) { assert Nests((a + b)[i]); }
    if i :| 0 <= i < |b| && Nests(b[i]) { assert Nests((a + b)[|a| + i]); }
  }

  lemma {:induction false} FlattenNests(rows: seq<seq<Expr>>)
    ensures AnyNests(Flatten(rows)) <==> exists i :: 0 <= i < |rows| && AnyNests(rows[i])
  {
    hide AnyNests;
    if rows == [] {
      NoneNests();
    } else {
      FlattenNests(rows[1..]);
      NestsBoth(rows[0], Flatten(rows[1..]));
      if i :| 0 <= i < |rows| && AnyNests(rows[i]) {
        if i > 0 { assert AnyNests(rows[1..][i - 1]); }
      }
      if i :| 0 <= i < |rows| - 1 && AnyNests(rows[1..][i]) { assert AnyNests(rows[i + 1]); }
    }
  }

  lemma NoneNests()
    ensures !AnyNests([])
  {
  }

  lemma OneNests(e: Expr)
    ensures AnyNests([e]) <==> Nests(e)
  {
    hide Nests;
    if Nests(e) { assert Nests([e][0]); }
  }

  lemma WriteNestsIff(w: Write)
    ensures AnySubLink(ExprsOf(w)) <==> WriteNests(w)
  {
    hide AnyNests, Nests, AnySubLink, Flatten;
    AnySubLinkIff(ExprsOf(w));
    NoneNests();
    match w
    case Insert(_, _, rows, exprs, _, _) =>
      NestsBoth(exprs, if rows.Some? then Flatten(rows.value) else []);
      if rows.Some? { FlattenNests(rows.value); }
    case Update(_, _, _, where_, exprs, _) =>
      NestsBoth(exprs, if where_.Some? then [where_.value] else []);
      if where_.Some? { OneNests(where_.value); }
    case Delete(_, _, where_, exprs, _) =>
      NestsBoth(exprs, if where_.Some? then [where_.value] else []);
      if where_.Some? { OneNests(where_.value); }
  }

  /** Conflicts may only be ignored, and only under an arbiter inferred from columns with the key among them. */
  ghost predicate ConflictAllowed(c: Option<OnConflict>, key: string) {
    c.Some? ==> !c.value.doUpdate && c.value.constraint == "" && exists i :: 0 <= i < |c.value.elems| && c.value.elems[i] == key
  }

  /** A write to a sharded table that is planned by its key at all. */
  ghost predicate Planned(w: Write, key: string) {
    && !w.hasWith && !WriteNests(w)
    && match w
       case Insert(_, _, _, _, _, conflict) => ConflictAllowed(conflict, key)
       case Update(_, targets, hasFrom, _, _, _) => !hasFrom && forall i | 0 <= i < |targets| :: targets[i] != key
       case Delete(_, hasUsing, _, _, _) => !hasUsing
  }

  /** Every key the write names, in VALUES rows or in its WHERE, is a key of shard `s`. */
  ghost predicate KeysOn(w: Write, params: seq<ScalarValue>, def: TableDef, shards: seq<Shard>, s: ShardId)
    requires Validated(shards) && def.Sharded?
  {
    match w
    case Insert(_, cols, rows, _, _, _) =>
      rows.Some? && rows.value != []
      && exists k :: IsColumn(cols, def.key, k) && CellsRead(rows.value, k) && AllReach(Cells(rows.value, k), params, def, shards, s)
    case Update(_, _, _, where_, _, _) => AllReach(Pinned(where_, def.key), params, def, shards, s)
    case Delete(_, _, where_, _, _) => AllReach(Pinned(where_, def.key), params, def, shards, s)
  }

  lemma InsertKeysOn(w: Write, params: seq<ScalarValue>, def: TableDef, shards: seq<Shard>, s: ShardId)
    requires Validated(shards) && def.Sharded? && w.Insert?
    ensures KeysOn(w, params, def, shards, s)
       <==> InsertKeyValues(w, def.key).Some? && AllOn(InsertKeyValues(w, def.key).value, params, def, shards, s)
  {
    hide Validated, AllReach, AllOn, CellsRead, Cells, CellValues, Collects;
    var k := Resolve(w.cols, def.key);
    if w.rows.Some? && k < |w.cols| {
      assert IsColumn(w.cols, def.key, k);
      CellsCollect(w.rows.value, k);
      if CellValues(w.rows.value, k).Some? {
        CollectedOn(CellValues(w.rows.value, k).value, Cells(w.rows.value, k), params, def, shards, s);
      }
    }
  }

  lemma WriteKeysOn(w: Write, params: seq<ScalarValue>, def: TableDef, shards: seq<Shard>, s: ShardId)
    requires Validated(shards) && def.Sharded?
    ensures KeysOn(w, params, def, shards, s)
       <==> WriteValues(w, def.key).Some? && AllOn(WriteValues(w, def.key).value, params, def, shards, s)
  {
    hide Validated, AllReach, AllOn, WhereValues, InsertKeyValues;
    if w.Insert? {
      InsertKeysOn(w, params, def, shards, s);
    } else {
      WhereCollects(w.where_, def.key);
      CollectedOn(WhereValues(w.where_, def.key), Pinned(w.where_, def.key), params, def, shards, s);
    }
  }

  /**
  What a write becomes, whatever is bound. To an unknown table it is refused. To an unsharded one
  it goes to the unsharded database, except an INSERT with a WITH or a subquery. To a sharded one
  it runs on one shard or is refused, and it runs on shard `s` exactly if it may be planned by its
  key and every key it names is a key of `s`.
  */
  lemma WriteIs(w: Write, vschema: VSchema, shards: seq<Shard>, params: seq<ScalarValue>, s: ShardId)
    requires Validated(shards)
    ensures var run := Completed(PlanWrite(w, vschema, shards), params, shards);
      if w.table !in vschema then run == Reject
      else if vschema[w.table].Global? then run == if w.Insert? && (w.hasWith || WriteNests(w)) then Reject else Unsharded
      else
        && (run.SingleShard? || run.Reject?)
        && (run == SingleShard(s) <==> Planned(w, vschema[w.table].key) && KeysOn(w, params, vschema[w.table], shards, s))
  {
    hide Validated, WriteNests, AnySubLink, ExprsOf, KeysOn, AllOn, WriteValues, PlanKeyedWrite, InsertKeyValues, WhereValues, ResolveBound;
    WriteNestsIff(w);
    if IsSharded(vschema, w.table) {
      WriteRunsIff(w, vschema, shards, params, s);
      WriteKeysOn(w, params, vschema[w.table], shards, s);
    }
  }
}
