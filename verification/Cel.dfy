/** The checked CEL expressions a filter starts from, their macros, and their meaning on a row. */
module Cel {
  import opened Wrappers
  import opened FilterSchema
  import opened FilterRows
  import Like

  datatype Constant = CInt(i: int) | CUint(n: nat) | CString(s: string) | CBool(b: bool) | CNull | CBytes

  datatype Expr =
    | Const(c: Constant)
    | Ident(name: string)
    | Call(fn: string, target: Option<Expr>, args: seq<Expr>)
    | ListExpr(elements: seq<Expr>)
    | Comprehension(iterVar: string, range: Expr, accuVar: string, accuInit: Expr, loopStep: Expr, result: Expr)
    | Other

  // ----- The comprehension macros, as CEL expands them

  datatype Macro = All | ExistsMacro | ExistsOne | MapMacro | FilterMacro

  const ACCU := "@result"

  function Expand(m: Macro, x: string, range: Expr, p: Expr): Expr
  {
    var acc := Ident(ACCU);
    match m
    case All => Comprehension(x, range, ACCU, Const(CBool(true)), Call("_&&_", None, [acc, p]), acc)
    case ExistsMacro => Comprehension(x, range, ACCU, Const(CBool(false)), Call("_||_", None, [acc, p]), acc)
    case ExistsOne =>
      Comprehension(x, range, ACCU, Const(CInt(0)),
                    Call("_?_:_", None, [p, Call("_+_", None, [acc, Const(CInt(1))]), acc]),
                    Call("_==_", None, [acc, Const(CInt(1))]))
    case MapMacro =>
      Comprehension(x, range, ACCU, ListExpr([]), Call("_+_", None, [acc, ListExpr([p])]), acc)
    case FilterMacro =>
      Comprehension(x, range, ACCU, ListExpr([]),
                    Call("_?_:_", None, [p, Call("_+_", None, [acc, ListExpr([Ident(x)])]), acc]), acc)
  }

  // ----- Values

  /** Literals as values; unsigned literals are their number. */
  function ConstVal(c: Constant): Val
  {
    match c
    case CInt(i) => VInt(i)
    case CUint(n) => VInt(n)
    case CString(s) => VStr(s)
    case CBool(b) => VBool(b)
    case CNull => VNull
    case CBytes => VNull
  }

  /** The value of an operand: exact integers, stored values, and the size of a list. */
  function EvalVal(e: Expr, schema: Schema, row: Row, now: int): Val
  {
    match e
    case Const(c) => ConstVal(c)
    case Ident(n) => if n in schema then Stored(row, schema[n]) else VNull
    case Call(fn, _, args) =>
      if fn == "now" then VInt(now)
      else if (fn == "_+_" || fn == "_-_" || fn == "_*_") && |args| == 2 then
        match (EvalVal(args[0], schema, row, now), EvalVal(args[1], schema, row, now))
        case (VInt(a), VInt(b)) => VInt(if fn == "_+_" then a + b else if fn == "_-_" then a - b else a * b)
        case _ => VNull
      else if fn == "!_" && |args| == 1 then
        match EvalVal(args[0], schema, row, now)
        case VBool(b) => VBool(!b)
        case _ => VNull
      else if fn == "size" && |args| == 1 then
        match EvalVal(args[0], schema, row, now)
        case VList(l) => VInt(|l|)
        case _ => VInt(0)
      else VNull
    case _ => VNull
  }

  function Values(es: seq<Expr>, schema: Schema, row: Row, now: int): seq<Val>
  {
    seq(|es|, k requires 0 <= k < |es| => EvalVal(es[k], schema, row, now))
  }

  // ----- Truth

  /** The loop variables of a comprehension: the truth accumulated so far and the element at hand. */
  datatype Scope = NoScope | Scope(accuVar: string, accu: Truth, iterVar: string, elem: string)

  function CompareOpOf(fn: string): Option<CompareOp>
  {
    if fn == "_==_" then Some(Eq) else if fn == "_!=_" then Some(Neq)
    else if fn == "_<_" then Some(Lt) else if fn == "_>_" then Some(Gt)
    else if fn == "_<=_" then Some(Lte) else if fn == "_>=_" then Some(Gte)
    else None
  }

  /** Comparing with the literal null asks whether a value is missing; any other comparison with a
      missing value is unknown. */
  function CompareCel(op: CompareOp, a: Val, b: Val): Truth
  {
    if b == VNull && op == Eq then Of(a == VNull)
    else if b == VNull && op == Neq then Of(a != VNull)
    else Compare3(op, a, b)
  }

  /** `field in [values]`. For the tag alias, every listed tag counts with the tags under it. */
  function EvalIn(f: Field, values: seq<Val>, schema: Schema, row: Row, coll: Collation, d: Dialect): Truth
  {
    if f.kind == VirtualAlias then
      match ResolveAlias(schema, f.name)
      case None => Unknown
      case Some(target) =>
        match Stored(row, target)
        case VList(tags) =>
            Of(exists k :: 0 <= k < |values| && values[k].VStr? && TagListed(tags, values[k].s, coll, d))
        case _ => Unknown
    else Among3(Stored(row, f), values)
  }

  /** Membership of one listed tag: the exact tag up to the letter case of the dialect's exact test,
      or a tag under it up to the letter case of LIKE. */
  predicate TagListed(tags: seq<string>, s: string, coll: Collation, d: Dialect)
  {
    (if d == SQLite then Like.SomeTagIs(tags, s, coll.json) else s in tags)
      || Like.SomeTagStartsWith(tags, s + "/", coll.json)
  }

  /** The truth of a filter on a row. A bare boolean field counts as false when it is missing; a
      comprehension over a missing list runs over the empty one. */
  function EvalBool(e: Expr, schema: Schema, row: Row, now: int, coll: Collation, d: Dialect, scope: Scope): Truth
    decreases e, 1
  {
    match e
    case Const(CBool(b)) => Of(b)
    case Const(CInt(i)) => Of(i != 0)
    case Const(CUint(i)) => Of(i != 0)
    case Const(_) => Unknown
    case Ident(n) =>
      if scope.Scope? && n == scope.accuVar then scope.accu
      else if n in schema then Of(Stored(row, schema[n]) == VBool(true))
      else Unknown
    case Call(fn, target, args) =>
      if fn == "_&&_" && |args| == 2 then
        And3(EvalBool(args[0], schema, row, now, coll, d, scope), EvalBool(args[1], schema, row, now, coll, d, scope))
      else if fn == "_||_" && |args| == 2 then
        Or3(EvalBool(args[0], schema, row, now, coll, d, scope), EvalBool(args[1], schema, row, now, coll, d, scope))
      else if fn == "!_" && |args| == 1 then Not3(EvalBool(args[0], schema, row, now, coll, d, scope))
      else if CompareOpOf(fn).Some? && |args| == 2 then
        CompareCel(CompareOpOf(fn).value, EvalVal(args[0], schema, row, now), EvalVal(args[1], schema, row, now))
      else if fn == "@in" && |args| == 2 then
        if args[1].ListExpr? && args[0].Ident? && args[0].name in schema then
          EvalIn(schema[args[0].name], Values(args[1].elements, schema, row, now), schema, row, coll, d)
        else if args[1].Ident? then
          match (EvalVal(args[0], schema, row, now), EvalVal(args[1], schema, row, now))
          case (VStr(s), VList(tags)) => Of(if d == SQLite then Like.SomeTagIs(tags, s, coll.json) else s in tags)
          case _ => Unknown
        else Unknown
      else if (fn == "contains" || fn == "startsWith" || fn == "endsWith")
              && target.Some? && target.value.Ident? && |args| == 1 then
        match EvalVal(args[0], schema, row, now)
        case VStr(s) =>
          if scope.Scope? && target.value.name == scope.iterVar then Of(TagTest(fn, scope.elem, s, coll.json))
          else if fn == "contains" then
            (match EvalVal(target.value, schema, row, now)
             case VStr(text) => Of(Like.Has(text, s, coll.text))
             case _ => Unknown)
          else Unknown
        case _ => Unknown
      else Unknown
    case Comprehension(x, range, acc, init, step, result) =>
      var tags := match EvalVal(range, schema, row, now) case VList(l) => l case _ => [];
      var r := EvalLoop(e, tags, EvalBool(init, schema, row, now, coll, d, scope), schema, row, now, coll, d);
      EvalBool(result, schema, row, now, coll, d, Scope(acc, r, x, ""))
    case _ => Unknown
  }

  predicate TagTest(fn: string, t: string, s: string, fold: Like.Fold)
  {
    if fn == "startsWith" then Like.StartsWith(t, s, fold)
    else if fn == "endsWith" then Like.EndsWith(t, s, fold)
    else Like.Has(t, s, fold)
  }

  /** The loop of a comprehension: each element updates the accumulator. */
  function EvalLoop(comp: Expr, tags: seq<string>, accu: Truth, schema: Schema, row: Row, now: int, coll: Collation,
          d: Dialect): Truth
    requires comp.Comprehension?
    decreases comp, 0, |tags|
  {
    if tags == [] then accu
    else
      var next := EvalBool(comp.loopStep, schema, row, now, coll, d, Scope(comp.accuVar, accu, comp.iterVar, tags[0]));
      EvalLoop(comp, tags[1..], next, schema, row, now, coll, d)
  }
}
