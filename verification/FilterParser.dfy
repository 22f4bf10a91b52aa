/** Translation of a checked CEL expression to a condition tree. */
module FilterParser {
  import opened Wrappers
  import opened FilterSchema
  import opened Cel

  datatype FilterError =
    | WrongArity
    | UnknownIdentifier
    | NotBoolean
    | NotALiteral
    | OperatorNotAllowed
    | InvalidIn
    | ContainsNotSupported
    | UnsupportedComprehension
    | UnsupportedExpression

  /** Two's-complement wrap-around of 64-bit arithmetic. */
  function Wrap64(n: int): (r: int)
    ensures -0x8000_0000_0000_0000 <= r <= 0x7fff_ffff_ffff_ffff
    ensures -0x8000_0000_0000_0000 <= n <= 0x7fff_ffff_ffff_ffff ==> r == n
  {
    (n + 0x8000_0000_0000_0000) % 0x1_0000_0000_0000_0000 - 0x8000_0000_0000_0000
  }

  function GetConstValue(e: Expr): Option<Literal>
  {
    match e
    case Const(CInt(i)) => Some(LInt(i))
    case Const(CUint(n)) => Some(LInt(Wrap64(n)))
    case Const(CString(s)) => Some(LStr(s))
    case Const(CBool(b)) => Some(LBool(b))
    case Const(CNull) => Some(LNull)
    case _ => None
  }

  /** `now` is the clock reading of the compilation. */
  function EvaluateNumeric(e: Expr, now: int): Result<Option<int>, FilterError>
  {
    match GetConstValue(e)
    case Some(LInt(i)) => Ok(Some(i))
    case Some(_) => Ok(None)
    case None =>
      match e
      case Call(fn, _, args) =>
        if fn == "now" then Ok(Some(now))
        else if fn == "_+_" || fn == "_-_" || fn == "_*_" then
          if |args| != 2 then Err(WrongArity)
          else
            match EvaluateNumeric(args[0], now)
            case Err(x) => Err(x)
            case Ok(None) => Ok(None)
            case Ok(Some(left)) =>
              match EvaluateNumeric(args[1], now)
              case Err(x) => Err(x)
              case Ok(None) => Ok(None)
              case Ok(Some(right)) =>
                Ok(Some(Wrap64(if fn == "_+_" then left + right else if fn == "_-_" then left - right
                    else left * right)))
        else Ok(None)
      case _ => Ok(None)
  }

  function EvaluateBool(e: Expr): Result<Option<bool>, FilterError>
  {
    match GetConstValue(e)
    case Some(LBool(b)) => Ok(Some(b))
    case Some(_) => Ok(None)
    case None =>
      match e
      case Call("!_", _, args) =>
        if |args| != 1 then Err(WrongArity)
        else
          (match EvaluateBool(args[0])
           case Ok(Some(b)) => Ok(Some(!b))
           case other => other)
      case _ => Ok(None)
  }

  function BuildValue(e: Expr, schema: Schema, now: int): Result<ValueExpr, FilterError>
  {
    if e.Ident? then
      if e.name in schema then Ok(FieldRef(e.name)) else Err(UnknownIdentifier)
    else if GetConstValue(e).Some? then Ok(LiteralValue(GetConstValue(e).value))
    else
      match EvaluateNumeric(e, now)
      case Err(x) => Err(x)
      case Ok(Some(i)) => Ok(LiteralValue(LInt(i)))
      case Ok(None) =>
        match EvaluateBool(e)
        case Err(x) => Err(x)
        case Ok(Some(b)) => Ok(LiteralValue(LBool(b)))
        case Ok(None) =>
          if e.Call? && e.fn == "size" then
            if |e.args| != 1 then Err(WrongArity)
            else
              match BuildValue(e.args[0], schema, now)
              case Err(x) => Err(x)
              case Ok(arg) => Ok(FunctionValue("size", arg))
          else Err(UnsupportedExpression)
  }

  function BuildValues(es: seq<Expr>, schema: Schema, now: int): (r: Result<seq<ValueExpr>, FilterError>)
    ensures r.Ok? ==> |r.value| == |es| && forall k :: 0 <= k < |es| ==>
              BuildValue(es[k], schema, now) == Ok(r.value[k])
  {
    if es == [] then Ok([])
    else
      match BuildValue(es[0], schema, now)
      case Err(x) => Err(x)
      case Ok(v) =>
        match BuildValues(es[1..], schema, now)
        case Err(x) => Err(x)
        case Ok(vs) => Ok([v] + vs)
  }

  /** The values read so far, in front of what is still to be read. */
  function InFront(values: seq<ValueExpr>, rest: Result<seq<ValueExpr>, FilterError>)
    : Result<seq<ValueExpr>, FilterError>
  {
    match rest case Ok(more) => Ok(values + more) case Err(x) => Err(x)
  }

  lemma NextValue(values: seq<ValueExpr>, es: seq<Expr>, schema: Schema, now: int)
    ensures es == [] ==> InFront(values, BuildValues(es, schema, now)) == Ok(values)
    ensures es != [] ==>
              InFront(values, BuildValues(es, schema, now)) ==
              match BuildValue(es[0], schema, now)
              case Err(x) => Err(x)
              case Ok(v) => InFront(values + [v], BuildValues(es[1..], schema, now))
  {
    hide BuildValue;
    assert values + [] == values;
    if es != [] && BuildValue(es[0], schema, now).Ok? && BuildValues(es[1..], schema, now).Ok? {
      var v, more := BuildValue(es[0], schema, now).value, BuildValues(es[1..], schema, now).value;
      assert values + ([v] + more) == (values + [v]) + more;
    }
  }

  /** The loop over the elements of a list literal; the first that is no value decides the error. */
  method CollectValues(elements: seq<Expr>, schema: Schema, now: int) returns (res: Result<seq<ValueExpr>, FilterError>)
    ensures res == BuildValues(elements, schema, now)
  {
    hide BuildValue, BuildValues, InFront;
    var values: seq<ValueExpr> := [];
    ghost var all := InFront([], BuildValues(elements, schema, now));
    NothingInFront(BuildValues(elements, schema, now));
    assert elements[0..] == elements;
    for i := 0 to |elements|
      invariant InFront(values, BuildValues(elements[i..], schema, now)) == all
    {
      NextValue(values, elements[i..], schema, now);
      assert elements[i..][0] == elements[i] && elements[i..][1..] == elements[i + 1..];
      var value := BuildValue(elements[i], schema, now);
      if value.Err? { return Err(value.error); }
      values := values + [value.value];
    }
    assert elements[|elements|..] == [];
    NextValue(values, [], schema, now);
    return Ok(values);
  }

  lemma NothingInFront(r: Result<seq<ValueExpr>, FilterError>)
    ensures InFront([], r) == r
  {
    if r.Ok? { assert [] + r.value == r.value; }
  }

  function BuildComparison(op: CompareOp, args: seq<Expr>, schema: Schema, now: int): Result<Condition, FilterError>
  {
    if |args| != 2 then Err(WrongArity)
    else
      match BuildValue(args[0], schema, now)
      case Err(x) => Err(x)
      case Ok(left) =>
        match BuildValue(args[1], schema, now)
        case Err(x) => Err(x)
        case Ok(right) =>
          if left.FieldRef? && ResolveAlias(schema, left.name).None? then Err(UnknownIdentifier)
          else if left.FieldRef? && ResolveAlias(schema, left.name).value.allowed.Some?
            && op !in ResolveAlias(schema, left.name).value.allowed.value then
            Err(OperatorNotAllowed)
          else Ok(Comparison(left, op, right))
  }

  function BuildIn(args: seq<Expr>, schema: Schema, now: int): Result<Condition, FilterError>
  {
    if |args| != 2 then Err(WrongArity)
    else if args[0].Ident? && args[0].name !in schema then Err(UnknownIdentifier)
    else if args[0].Ident? && ResolveAlias(schema, args[0].name).None? then Err(UnknownIdentifier)
    else if args[0].Ident? && args[1].ListExpr? then
      match BuildValues(args[1].elements, schema, now)
      case Err(x) => Err(x)
      case Ok(values) => Ok(In(FieldRef(args[0].name), values))
    else if args[1].Ident? then
      if args[1].name !in schema then Err(UnknownIdentifier)
      else
        match BuildValue(args[0], schema, now)
        case Err(x) => Err(x)
        case Ok(element) => Ok(ElementIn(element, args[1].name))
    else Err(InvalidIn)
  }

  function BuildContains(target: Option<Expr>, args: seq<Expr>, schema: Schema): Result<Condition, FilterError>
  {
    if target.None? || !target.value.Ident? then Err(UnsupportedExpression)
    else if target.value.name !in schema then Err(UnknownIdentifier)
    else if !schema[target.value.name].supportsContains then Err(ContainsNotSupported)
    else if |args| != 1 then Err(WrongArity)
    else
      match GetConstValue(args[0])
      case Some(LStr(s)) => Ok(Contains(target.value.name, s))
      case _ => Err(NotALiteral)
  }

  /** Only the shape of `exists` passes: an accumulator that does not start true, extended by `||`. */
  predicate DetectExists(comp: Expr)
    requires comp.Comprehension?
  {
    comp.accuInit.Const? && comp.accuInit.c != CBool(true) && comp.loopStep.Call? && comp.loopStep.fn == "_||_"
  }

  function ExtractPredicate(comp: Expr): Result<PredicateExpr, FilterError>
    requires comp.Comprehension?
  {
    if !comp.loopStep.Call? || |comp.loopStep.args| != 2 then Err(WrongArity)
    else
      match comp.loopStep.args[1]
      case Call(fn, target, args) =>
        if fn != "startsWith" && fn != "endsWith" && fn != "contains" then Err(UnsupportedExpression)
        else if target != Some(Ident(comp.iterVar)) then Err(UnsupportedExpression)
        else if |args| != 1 then Err(WrongArity)
        else
          (match GetConstValue(args[0])
           case Some(LStr(s)) =>
             Ok(if fn == "startsWith" then StartsWithP(s) else if fn == "endsWith" then EndsWithP(s) else ContainsP(s))
           case _ => Err(NotALiteral))
      case _ => Err(UnsupportedExpression)
  }

  function BuildComprehension(comp: Expr, schema: Schema): Result<Condition, FilterError>
    requires comp.Comprehension?
  {
    if !DetectExists(comp) then Err(UnsupportedComprehension)
    else if !comp.range.Ident? then Err(UnsupportedExpression)
    else if comp.range.name !in schema then Err(UnknownIdentifier)
    else if schema[comp.range.name].kind != JSONList then Err(UnsupportedExpression)
    else
      match ExtractPredicate(comp)
      case Err(x) => Err(x)
      case Ok(p) => Ok(Exists(comp.range.name, p))
  }

  function BuildCondition(e: Expr, schema: Schema, now: int): Result<Condition, FilterError>
  {
    match e
    case Call(fn, target, args) =>
      if fn == "_&&_" || fn == "_||_" then
        if |args| != 2 then Err(WrongArity)
        else
          match BuildCondition(args[0], schema, now)
          case Err(x) => Err(x)
          case Ok(left) =>
            match BuildCondition(args[1], schema, now)
            case Err(x) => Err(x)
            case Ok(right) => Ok(if fn == "_&&_" then And(left, right) else Or(left, right))
      else if fn == "!_" then
        if |args| != 1 then Err(WrongArity)
        else
          match BuildCondition(args[0], schema, now)
          case Err(x) => Err(x)
          case Ok(child) => Ok(Not(child))
      else if CompareOpOf(fn).Some? then BuildComparison(CompareOpOf(fn).value, args, schema, now)
      else if fn == "@in" then BuildIn(args, schema, now)
      else if fn == "contains" then BuildContains(target, args, schema)
      else Err(UnsupportedExpression)
    case Const(CBool(b)) => Ok(Constant(b))
    case Const(CInt(i)) => Ok(Constant(i != 0))
    case Const(CUint(n)) => Ok(Constant(Wrap64(n) != 0))
    case Const(_) => Err(NotBoolean)
    case Ident(n) =>
      if n !in schema then Err(UnknownIdentifier)
      else if schema[n].typ != BoolType then Err(NotBoolean)
      else Ok(FieldPredicate(n))
    case Comprehension(_, _, _, _, _, _) => BuildComprehension(e, schema)
    case _ => Err(UnsupportedExpression)
  }

  /** Of the comprehension macros, only `exists` is accepted, and only over a list field with a test
      of the loop variable against a literal; each such use is accepted. */
  lemma OnlyExistsIsAccepted(m: Macro, x: string, range: Expr, p: Expr, schema: Schema)
    ensures BuildComprehension(Expand(m, x, range, p), schema).Ok? <==>
            && m == ExistsMacro
            && range.Ident? && range.name in schema && schema[range.name].kind == JSONList
            && p.Call? && p.fn in {"startsWith", "endsWith", "contains"}
            && p.target == Some(Ident(x))
            && |p.args| == 1 && p.args[0].Const? && p.args[0].c.CString?
  {
    var e := Expand(m, x, range, p);
    if m == ExistsMacro { assert e.loopStep.args == [Ident(ACCU), p]; }
  }

  /** Constant arithmetic is exact as long as no step leaves the 64-bit range. */
  predicate NoOverflow(e: Expr, now: int)
  {
    match e
    case Const(CUint(n)) => n <= 0x7fff_ffff_ffff_ffff
    case Call(fn, target, args) =>
      && (forall k :: 0 <= k < |args| ==> NoOverflow(args[k], now))
      && (match EvalVal(e, map[], Cel.FilterRows.Row(map[], map[]), now)
          case VInt(i) => -0x8000_0000_0000_0000 <= i <= 0x7fff_ffff_ffff_ffff
          case _ => true)
    case ListExpr(es) => forall k :: 0 <= k < |es| ==> NoOverflow(es[k], now)
    case _ => true
  }
}
