/**
The part of the SQL tree the planner reads, and its meaning in three-valued logic.

Only comparisons of a typed column with a literal or parameter have a fixed meaning;
the truth of every other expression on a row is a parameter.
*/
module Sql {
  import opened Wrappers
  import opened Bytes
  import opened Scalar

  datatype Literal = NullLit | IntLit(i: int) | NumLit(asInteger: Option<int>) | StrLit(s: seq<Byte>) | OtherLit

  datatype BoolOp = AndOp | OrOp | NotOp

  datatype AKind = OpKind | InKind | OtherKind

  datatype Expr =
    | ColumnRef(fields: seq<string>, star: bool)
    | Const(lit: Literal)
    | ParamRef(number: int)
    | BoolExpr(op: BoolOp, args: seq<Expr>)
    | AExpr(kind: AKind, name: seq<string>, lhs: Expr, rhs: Expr)
    | List(items: seq<Expr>)
    | SubLink(id: nat)
    | Opaque(id: nat, args: seq<Expr>)
    | Absent

  /** The value of a literal the planner hashes: integers and strings only. */
  function ScalarOf(lit: Literal): Option<ScalarValue> {
    match lit
    case IntLit(i) => Some(Int64(i))
    case NumLit(n) => if n.Some? then Some(Int64(n.value)) else None
    case StrLit(s) => Some(Text(s))
    case _ => None
  }

  /** The last identifier of a column reference. */
  function ColumnName(e: Expr): Option<string> {
    if e.ColumnRef? && !e.star && e.fields != [] then Some(e.fields[|e.fields| - 1]) else None
  }

  // ------------------------------------------------------------------ rows

  datatype Tri = True | False | Unknown

  /** The columns of the one table in scope, under the names the statement sees. */
  datatype Scope = Scope(names: seq<string>, types: seq<Option<ScalarType>>, keyIndex: nat) {
    ghost predicate Valid() {
      |names| == |types| && keyIndex < |names| && types[keyIndex].Some?
    }

    function KeyType(): ScalarType
      requires keyIndex < |types| && types[keyIndex].Some?
    {
      types[keyIndex].value
    }
  }

  datatype Row = Row(cells: seq<Option<ScalarValue>>)

  /** A row the table can hold: its shard key is a canonical value of the key's type. */
  ghost predicate Fits(sc: Scope, row: Row)
    requires sc.Valid()
  {
    && |row.cells| == |sc.names|
    && row.cells[sc.keyIndex].Some?
    && Coerce(sc.KeyType(), row.cells[sc.keyIndex].value) == row.cells[sc.keyIndex]
  }

  function KeyOf(sc: Scope, row: Row): ScalarValue
    requires sc.Valid() && Fits(sc, row)
  {
    row.cells[sc.keyIndex].value
  }

  /** The first column with this name, or the number of columns. */
  function Resolve(names: seq<string>, name: string): (i: nat)
    ensures i <= |names|
    ensures i < |names| ==> names[i] == name
    ensures forall j | 0 <= j < i :: names[j] != name
  {
    if names == [] || names[0] == name then 0 else 1 + Resolve(names[1..], name)
  }

  // ------------------------------------------------------------- semantics

  /** Bound parameters, and the truth of everything the model does not interpret. */
  datatype Meaning = Meaning(params: seq<ScalarValue>, other: (Expr, Row) -> Tri)

  datatype Operand = Col(i: nat) | Val(v: Option<ScalarValue>) | Computed

  function OperandOf(m: Meaning, sc: Scope, e: Expr): Operand {
    match e
    case Const(lit) => if lit.OtherLit? then Computed else if lit.NumLit? && lit.asInteger.None? then Computed else Val(ScalarOf(lit))
    case ParamRef(n) => if 0 < n <= |m.params| then Val(Some(m.params[n - 1])) else Computed
    case ColumnRef(_, _) =>
      var name := ColumnName(e);
      if name.None? then Computed
      else
        var i := Resolve(sc.names, name.value);
        if i < |sc.names| && i < |sc.types| && sc.types[i].Some? then Col(i) else Computed
    case _ => Computed
  }

  /** A typed column against a constant: the constant is read as a value of the column's type. */
  function CompareTyped(sc: Scope, i: nat, v: Option<ScalarValue>, row: Row): Tri
    requires i < |sc.types| && sc.types[i].Some?
  {
    if i >= |row.cells| || row.cells[i].None? || v.None? then Unknown
    else
      var canonical := Coerce(sc.types[i].value, v.value);
      if canonical.None? then Unknown
      else if row.cells[i].value == canonical.value then True else False
  }

  function Equal(m: Meaning, sc: Scope, lhs: Expr, rhs: Expr, row: Row): Tri {
    match (OperandOf(m, sc, lhs), OperandOf(m, sc, rhs))
    case (Col(i), Val(v)) => CompareTyped(sc, i, v, row)
    case (Val(v), Col(i)) => CompareTyped(sc, i, v, row)
    case _ => m.other(AExpr(OpKind, ["="], lhs, rhs), row)
  }

  function TriNot(a: Tri): Tri {
    match a
    case True => False
    case False => True
    case Unknown => Unknown
  }

  function TriAnd(a: Tri, b: Tri): Tri {
    if a.False? || b.False? then False else if a.Unknown? || b.Unknown? then Unknown else True
  }

  function TriOr(a: Tri, b: Tri): Tri {
    TriNot(TriAnd(TriNot(a), TriNot(b)))
  }

  function AnyEqual(m: Meaning, sc: Scope, lhs: Expr, items: seq<Expr>, row: Row): Tri {
    if items == [] then False else TriOr(Equal(m, sc, lhs, items[0], row), AnyEqual(m, sc, lhs, items[1..], row))
  }

  function Eval(m: Meaning, sc: Scope, e: Expr, row: Row): Tri
    decreases e, 1
  {
    match e
    case BoolExpr(AndOp, args) => EvalAll(m, sc, args, row)
    case BoolExpr(OrOp, args) => EvalAny(m, sc, args, row)
    case BoolExpr(NotOp, args) => if |args| == 1 then TriNot(Eval(m, sc, args[0], row)) else m.other(e, row)
    case AExpr(OpKind, name, lhs, rhs) => if name == ["="] then Equal(m, sc, lhs, rhs, row) else m.other(e, row)
    case AExpr(InKind, name, lhs, rhs) =>
      if name == ["="] && rhs.List? then AnyEqual(m, sc, lhs, rhs.items, row) else m.other(e, row)
    case _ => m.other(e, row)
  }

  function EvalAll(m: Meaning, sc: Scope, args: seq<Expr>, row: Row): Tri
    decreases args, 0
  {
    if args == [] then True else TriAnd(Eval(m, sc, args[0], row), EvalAll(m, sc, args[1..], row))
  }

  function EvalAny(m: Meaning, sc: Scope, args: seq<Expr>, row: Row): Tri
    decreases args, 0
  {
    if args == [] then False else TriOr(Eval(m, sc, args[0], row), EvalAny(m, sc, args[1..], row))
  }

  /** A missing WHERE matches every row. */
  predicate Matches(m: Meaning, sc: Scope, where_: Option<Expr>, row: Row) {
    where_.None? || Eval(m, sc, where_.value, row) == True
  }

  lemma {:induction false} AllTrue(m: Meaning, sc: Scope, args: seq<Expr>, row: Row, i: nat)
    requires i < |args| && EvalAll(m, sc, args, row) == True
    ensures Eval(m, sc, args[i], row) == True
  {
    if i > 0 { AllTrue(m, sc, args[1..], row, i - 1); }
  }

  lemma {:induction false} AnyEqualTrue(m: Meaning, sc: Scope, lhs: Expr, items: seq<Expr>, row: Row) returns (i: nat)
    requires AnyEqual(m, sc, lhs, items, row) == True
    ensures i < |items| && Equal(m, sc, lhs, items[i], row) == True
  {
    if Equal(m, sc, lhs, items[0], row) == True {
      i := 0;
    } else {
      var k := AnyEqualTrue(m, sc, lhs, items[1..], row);
      i := k + 1;
    }
  }

  // ------------------------------------------------------------ subqueries

  predicate HasSubLink(e: Expr)
    decreases e, 1
  {
    match e
    case BoolExpr(_, args) => AnySubLink(args)
    case AExpr(_, _, lhs, rhs) => HasSubLink(lhs) || HasSubLink(rhs)
    case List(items) => AnySubLink(items)
    case SubLink(_) => true
    case Opaque(_, args) => AnySubLink(args)
    case _ => false
  }

  predicate AnySubLink(args: seq<Expr>)
    decreases args, 0
  {
    args != [] && (HasSubLink(args[0]) || AnySubLink(args[1..]))
  }
}
