/** Expressions on rows and the context in which names are looked up
  (core/src/executor/evaluate.rs, core/src/executor/context/row_context.rs, core/src/executor/filter.rs). */
module Expressions {
  import opened Data
  import opened Literals

  /** The operators that planning looks into, and all others by name.  Subqueries are not modelled. */
  datatype Expr =
    | Identifier(name: string)
    | CompoundIdentifier(alias: string, column: string)
    | Constant(literal: Literal)
    | ValueOf(value: Value)
    | Nested(inner: Expr)
    | And(left: Expr, right: Expr)
    | Eq(left: Expr, right: Expr)
    | Operation(op: string, args: seq<Expr>)

  /** A literal stays one until it meets a type; `Slice` is what trimming functions make of text. */
  datatype Evaluated = Raw(literal: Literal) | Slice(text: seq<u8>) | Val(value: Value)

  /** What the model leaves to foreign arithmetic and parsing: comparing floats and an integer with
    what is none, rounding numbers and reading text, and all other operators.  An operator is given the
    outcomes of all its operands, so that CASE or IN may ignore the failure of one. */
  datatype Semantics = Semantics(
    approx: (Value, Value) -> bool,
    parsing: Parsing,
    operate: (string, seq<Result<Evaluated>>) -> Result<Evaluated>)

  // ----- contexts -----

  /** Rows in scope: the innermost first, then the rows it was joined with; `Bridge` adds the rows of
    an enclosing query. */
  datatype Context =
    | Data(alias: string, columns: seq<string>, values: Row, next: Option<Context>)
    | Bridge(left: Context, right: Context)

  function Position(columns: seq<string>, name: string): (r: Option<nat>)
    ensures r.Some? ==> r.value < |columns| && columns[r.value] == name
    ensures r.Some? ==> forall i | 0 <= i < r.value :: columns[i] != name
    ensures r.Some? <==> name in columns
  {
    if columns == [] then Option.None
    else if columns[0] == name then Some(0)
    else match Position(columns[1..], name)
      case Some(i) => Some(i + 1)
      case None => Option.None
  }

  function RowValue(columns: seq<string>, values: Row, name: string): Option<Value> {
    match Position(columns, name)
    case Some(i) => if i < |values| then Some(values[i]) else Option.None
    case None => Option.None
  }

  function OrElse(a: Option<Value>, b: Option<Value>): Option<Value> { if a.Some? then a else b }

  /** `RowContext::get_value`. */
  function Lookup(c: Context, name: string): Option<Value> {
    match c
    case Data(_, columns, values, None) => RowValue(columns, values, name)
    case Data(_, columns, values, Some(next)) => OrElse(RowValue(columns, values, name), Lookup(next, name))
    case Bridge(left, right) => OrElse(Lookup(left, name), Lookup(right, name))
  }

  /** `RowContext::get_alias_value`. */
  function LookupAlias(c: Context, alias: string, name: string): Option<Value> {
    match c
    case Data(a, columns, values, next) =>
      var rest := match next case Some(n) => LookupAlias(n, alias, name) case None => Option.None;
      if a == alias then OrElse(RowValue(columns, values, name), rest) else rest
    case Bridge(left, right) => OrElse(LookupAlias(left, alias, name), LookupAlias(right, alias, name))
  }

  // ----- evaluation -----

  predicate IsNull(v: Evaluated) { v == Val(Value.Null) }

  /** A slice compares as the text literal. */
  function Unsliced(v: Evaluated): (r: Evaluated)
    ensures !r.Slice?
  {
    if v.Slice? then Raw(Literal.Text(v.text)) else v
  }

  /** `Evaluated::evaluate_eq`. */
  function EvaluatedEq(sem: Semantics, a: Evaluated, b: Evaluated): Tribool {
    var x, y := Unsliced(a), Unsliced(b);
    if x.Val? then
      if y.Val? then EvaluateEq(sem.approx, x.value, y.value) else ValueEqLiteral(sem.parsing, x.value, y.literal)
    else
      if y.Val? then ValueEqLiteral(sem.parsing, y.value, x.literal) else ToTribool(SameLiteral(x.literal, y.literal))
  }

  function FromTribool(t: Tribool): Evaluated {
    match t
    case True => Val(Value.Bool(true))
    case False => Val(Value.Bool(false))
    case Null => Val(Value.Null)
  }

  function ToBool(v: Evaluated): Result<bool> {
    if v.Val? && v.value.Bool? then Ok(v.value.b) else Err(Error("boolean type required"))
  }

  /** AND is NULL as soon as one side is NULL, even if the other is false. */
  function EvalAnd(l: Evaluated, r: Evaluated): Result<Evaluated> {
    if IsNull(l) || IsNull(r) then Ok(Val(Value.Null))
    else
      var lb :- ToBool(l);
      var rb :- ToBool(r);
      Ok(Val(Value.Bool(lb && rb)))
  }

  function EvalEq(sem: Semantics, l: Evaluated, r: Evaluated): Evaluated {
    if IsNull(l) || IsNull(r) then Val(Value.Null) else FromTribool(EvaluatedEq(sem, l, r))
  }

  function Eval(sem: Semantics, c: Context, e: Expr): Result<Evaluated>
    decreases e, 1
  {
    match e
    case Identifier(name) =>
      (match Lookup(c, name) case Some(v) => Ok(Val(v)) case None => Err(Error("identifier not found")))
    case CompoundIdentifier(alias, name) =>
      (match LookupAlias(c, alias, name) case Some(v) => Ok(Val(v)) case None => Err(Error("identifier not found")))
    case Constant(l) => Ok(Raw(l))
    case ValueOf(v) => Ok(Val(v))
    case Nested(inner) => Eval(sem, c, inner)
    case And(left, right) =>
      var l :- Eval(sem, c, left);
      var r :- Eval(sem, c, right);
      EvalAnd(l, r)
    case Eq(left, right) =>
      var l :- Eval(sem, c, left);
      var r :- Eval(sem, c, right);
      Ok(EvalEq(sem, l, r))
    case Operation(op, args) => (sem.operate)(op, EvalEach(sem, c, args))
  }

  function EvalEach(sem: Semantics, c: Context, es: seq<Expr>): seq<Result<Evaluated>>
    decreases es, 0
  {
    if es == [] then [] else [Eval(sem, c, es[0])] + EvalEach(sem, c, es[1..])
  }

  /** `check_expr`: NULL counts as false, anything but a boolean is an error. */
  function CheckExpr(sem: Semantics, c: Context, e: Expr): Result<bool> {
    var v :- Eval(sem, c, e);
    if IsNull(v) then Ok(false) else ToBool(v)
  }

  /** `Value::try_from(Evaluated)`. */
  function AsValue(p: Parsing, v: Evaluated): Result<Value> {
    match v
    case Raw(l) => LiteralValue(p, l)
    case Slice(text) => Ok(Value.Str(text))
    case Val(value) => Ok(value)
  }

  /** `Key::try_from(Evaluated)`. */
  function AsKey(sem: Semantics, v: Evaluated): Result<Key> {
    var value :- AsValue(sem.parsing, v);
    ToKey(value)
  }

  // ----- values for columns -----

  const NOTHING := Context.Data("", [], [], Option.None)

  /** Literals, and bytes for a UUID, are converted; a value or a slice is taken as it is. */
  function Converted(p: Parsing, ev: Evaluated, dataType: DataType): Result<Value> {
    match ev
    case Raw(l) => OrFail(LiteralOfType(p, dataType, l))
    case Slice(text) => Ok(Value.Str(text))
    case Val(v) =>
      if v.Bytea? && dataType == UuidType then
        OrFail(if p.uuidOfBytes(v.bytea).Some? then Some(Value.Uuid(p.uuidOfBytes(v.bytea).value)) else Option.None)
      else Ok(v)
  }

  /** `Evaluated::try_into_value`. */
  function TryIntoValue(p: Parsing, ev: Evaluated, dataType: DataType, nullable: bool): Result<Value> {
    Fitting(Converted(p, ev, dataType), dataType, nullable)
  }

  // ----- names -----

  predicate IsName(e: Expr) { e.Identifier? || e.CompoundIdentifier? }

  function Named(c: Context, e: Expr): Option<Value>
    requires IsName(e)
  {
    match e
    case Identifier(name) => Lookup(c, name)
    case CompoundIdentifier(alias, name) => LookupAlias(c, alias, name)
  }

  lemma NamedEvaluates(sem: Semantics, c: Context, e: Expr)
    requires IsName(e)
    ensures Eval(sem, c, e).Ok? <==> Named(c, e).Some?
    ensures Named(c, e).Some? ==> Eval(sem, c, e) == Ok(Val(Named(c, e).value))
    ensures Named(c, e).None? ==> Eval(sem, c, e) == Err(Error("identifier not found"))
  {
  }

  // ----- evaluation depends only on the names it looks up -----

  /** Every name in the expression means the same in both contexts. */
  predicate Agree(c: Context, d: Context, e: Expr)
    decreases e
  {
    match e
    case Identifier(name) => Lookup(c, name) == Lookup(d, name)
    case CompoundIdentifier(alias, name) => LookupAlias(c, alias, name) == LookupAlias(d, alias, name)
    case Constant(_) => true
    case ValueOf(_) => true
    case Nested(inner) => Agree(c, d, inner)
    case And(left, right) => Agree(c, d, left) && Agree(c, d, right)
    case Eq(left, right) => Agree(c, d, left) && Agree(c, d, right)
    case Operation(_, args) => forall i | 0 <= i < |args| :: Agree(c, d, args[i])
  }

  lemma {:induction false} AgreeingContextsEvaluateAlike(sem: Semantics, c: Context, d: Context, e: Expr)
    requires Agree(c, d, e)
    ensures Eval(sem, c, e) == Eval(sem, d, e)
    decreases e, 1
  {
    match e
    case Identifier(_) =>
    case CompoundIdentifier(_, _) =>
    case Constant(_) =>
    case ValueOf(_) =>
    case Nested(inner) => AgreeingContextsEvaluateAlike(sem, c, d, inner);
    case And(left, right) =>
      AgreeingContextsEvaluateAlike(sem, c, d, left);
      AgreeingContextsEvaluateAlike(sem, c, d, right);
    case Eq(left, right) =>
      AgreeingContextsEvaluateAlike(sem, c, d, left);
      AgreeingContextsEvaluateAlike(sem, c, d, right);
    case Operation(_, args) => AgreeingContextsEvaluateEachAlike(sem, c, d, args);
  }

  lemma {:induction false} AgreeingContextsEvaluateEachAlike(sem: Semantics, c: Context, d: Context, es: seq<Expr>)
    requires forall i | 0 <= i < |es| :: Agree(c, d, es[i])
    ensures EvalEach(sem, c, es) == EvalEach(sem, d, es)
    decreases es, 0
  {
    if es != [] {
      AgreeingContextsEvaluateAlike(sem, c, d, es[0]);
      AgreeingContextsEvaluateEachAlike(sem, c, d, es[1..]);
    }
  }

  // ----- conjunctions -----

  /** The expression evaluates to a boolean or NULL. */
  predicate IsBoolean(sem: Semantics, c: Context, e: Expr) { CheckExpr(sem, c, e).Ok? }

  predicate Holds(sem: Semantics, c: Context, e: Expr) { CheckExpr(sem, c, e) == Ok(true) }

  predicate AllHold(sem: Semantics, c: Context, es: seq<Expr>) {
    forall i | 0 <= i < |es| :: Holds(sem, c, es[i])
  }

  predicate AllBoolean(sem: Semantics, c: Context, es: seq<Expr>) {
    forall i | 0 <= i < |es| :: IsBoolean(sem, c, es[i])
  }

  /** `split_conjuncts`: through AND and parentheses. */
  function SplitConjuncts(e: Expr): seq<Expr> {
    match e
    case And(left, right) => SplitConjuncts(left) + SplitConjuncts(right)
    case Nested(inner) => SplitConjuncts(inner)
    case _ => [e]
  }

  /** `merge_conjuncts`: a left-leaning AND of all of them. */
  function MergeConjuncts(es: seq<Expr>): Option<Expr> {
    if es == [] then Option.None
    else if |es| == 1 then Some(es[0])
    else
      var n := |es| - 1;
      Some(And(MergeConjuncts(es[..n]).value, es[n]))
  }

  lemma AndHolds(sem: Semantics, c: Context, left: Expr, right: Expr)
    requires IsBoolean(sem, c, left) && IsBoolean(sem, c, right)
    ensures IsBoolean(sem, c, And(left, right))
    ensures Holds(sem, c, And(left, right)) <==> Holds(sem, c, left) && Holds(sem, c, right)
  {
  }

  /** A condition holds exactly when all its conjuncts hold. */
  lemma {:induction false} SplitPreservesMeaning(sem: Semantics, c: Context, e: Expr)
    requires AllBoolean(sem, c, SplitConjuncts(e))
    ensures IsBoolean(sem, c, e)
    ensures Holds(sem, c, e) <==> AllHold(sem, c, SplitConjuncts(e))
  {
    match e
    case And(left, right) =>
      var l, r := SplitConjuncts(left), SplitConjuncts(right);
      AllBooleanConcat(sem, c, l, r);
      AllHoldConcat(sem, c, l, r);
      SplitPreservesMeaning(sem, c, left);
      SplitPreservesMeaning(sem, c, right);
      AndHolds(sem, c, left, right);
    case Nested(inner) => SplitPreservesMeaning(sem, c, inner);
    case _ => assert SplitConjuncts(e)[0] == e;
  }

  lemma AllBooleanConcat(sem: Semantics, c: Context, l: seq<Expr>, r: seq<Expr>)
    ensures AllBoolean(sem, c, l + r) <==> AllBoolean(sem, c, l) && AllBoolean(sem, c, r)
  {
    if AllBoolean(sem, c, l + r) {
      forall i | 0 <= i < |l| ensures IsBoolean(sem, c, l[i]) { assert (l + r)[i] == l[i]; }
      forall i | 0 <= i < |r| ensures IsBoolean(sem, c, r[i]) { assert (l + r)[|l| + i] == r[i]; }
    }
  }

  lemma AllHoldConcat(sem: Semantics, c: Context, l: seq<Expr>, r: seq<Expr>)
    ensures AllHold(sem, c, l + r) <==> AllHold(sem, c, l) && AllHold(sem, c, r)
  {
    if AllHold(sem, c, l + r) {
      forall i | 0 <= i < |l| ensures Holds(sem, c, l[i]) { assert (l + r)[i] == l[i]; }
      forall i | 0 <= i < |r| ensures Holds(sem, c, r[i]) { assert (l + r)[|l| + i] == r[i]; }
    }
  }

  predicate HoldsIfAny(sem: Semantics, c: Context, e: Option<Expr>) { e.Some? ==> Holds(sem, c, e.value) }

  predicate BooleanIfAny(sem: Semantics, c: Context, e: Option<Expr>) { e.Some? ==> IsBoolean(sem, c, e.value) }

  lemma {:induction false} MergePreservesMeaning(sem: Semantics, c: Context, es: seq<Expr>)
    requires AllBoolean(sem, c, es)
    ensures BooleanIfAny(sem, c, MergeConjuncts(es))
    ensures HoldsIfAny(sem, c, MergeConjuncts(es)) <==> AllHold(sem, c, es)
  {
    if |es| > 1 {
      var n := |es| - 1;
      MergePreservesMeaning(sem, c, es[..n]);
      AndHolds(sem, c, MergeConjuncts(es[..n]).value, es[n]);
      assert es == es[..n] + [es[n]];
      AllHoldConcat(sem, c, es[..n], [es[n]]);
    }
  }
}
