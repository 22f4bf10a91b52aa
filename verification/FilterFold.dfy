/** What rendering a condition means: the constant-folded SQL tree, with every argument it collects. */
module FilterFold {
  import opened Wrappers
  import opened FilterSchema
  import opened FilterRows
  import opened Sql
  import Like

  datatype RenderError =
    | UnknownField
    | NotAPredicate
    | NotComparable
    | NotALiteral
    | WrongType
    | OperatorNotSupported
    | NotAList

  function LitVal(l: Literal): Val
  {
    match l
    case LInt(i) => VInt(i)
    case LStr(s) => VStr(s)
    case LBool(b) => VBool(b)
    case LNull => VNull
  }

  function ColumnExpr(f: Field): Operand { ColumnOp(f.column, f.epoch) }

  function JsonExpr(f: Field): Operand { JsonOp(f.column, f.path) }

  function BoolArg(b: bool, d: Dialect): Val { if d == SQLite then VInt(if b then 1 else 0) else VBool(b) }

  // ----- Conditions without connectives

  function PredicateTree(name: string, schema: Schema): Result<Tree<Val>, RenderError>
  {
    if name !in schema then Err(UnknownField)
    else
      match schema[name].kind
      case BoolColumn => Ok(TLeaf(IsTrue(ColumnOp(schema[name].column, false))))
      case JSONBool => Ok(TLeaf(IsTrue(JsonExpr(schema[name]))))
      case _ => Err(NotAPredicate)
  }

  function JsonBoolTree(f: Field, op: CompareOp, b: bool, d: Dialect): Result<Tree<Val>, RenderError>
  {
    match d
    case Postgres => Ok(TLeaf(Compare(JsonExpr(f), op, VBool(b))))
    case MySQL => Ok(TLeaf(JsonCompare(JsonExpr(f), op, b)))
    case SQLite =>
      if op != Eq && op != Neq then Err(OperatorNotSupported)
      else if f.name == "has_task_list" then Ok(TLeaf(JsonCompare(JsonExpr(f), op, b)))
      else if b == (op == Eq) then Ok(TLeaf(IsTrue(JsonExpr(f))))
      else Ok(TNot(TLeaf(IsTrue(JsonExpr(f)))))
  }

  function ScalarTree(f: Field, op: CompareOp, lit: Literal): Result<Tree<Val>, RenderError>
  {
    match lit
    case LNull =>
      if op == Eq then Ok(TLeaf(IsNull(ColumnExpr(f))))
      else if op == Neq then Ok(TLeaf(IsNotNull(ColumnExpr(f))))
      else Err(OperatorNotSupported)
    case LStr(s) => if f.typ == StringType then Ok(TLeaf(Compare(ColumnExpr(f), op, VStr(s)))) else Err(WrongType)
    case LInt(i) =>
      if f.typ == IntType || f.typ == TimestampType then Ok(TLeaf(Compare(ColumnExpr(f), op, VInt(i))))
        else Err(WrongType)
    case LBool(_) => Err(WrongType)
  }

  function ComparisonTree(lhs: ValueExpr, op: CompareOp, rhs: ValueExpr, schema: Schema, d: Dialect)
    : Result<Tree<Val>, RenderError>
  {
    match lhs
    case FieldRef(n) =>
      if n !in schema then Err(UnknownField)
      else
        var f := schema[n];
        if f.kind != BoolColumn && f.kind != JSONBool && f.kind != Scalar then Err(NotComparable)
        else if !rhs.LiteralValue? then Err(NotALiteral)
        else if f.kind == Scalar then ScalarTree(f, op, rhs.lit)
        else if !rhs.lit.LBool? then Err(WrongType)
        else if f.kind == BoolColumn then Ok(TLeaf(Compare(ColumnOp(f.column, false), op, BoolArg(rhs.lit.b, d))))
        else JsonBoolTree(f, op, rhs.lit.b, d)
    case FunctionValue(fn, arg) =>
      if fn != "size" then Err(NotComparable)
      else if !arg.FieldRef? then Err(NotComparable)
      else if arg.name !in schema then Err(UnknownField)
      else if schema[arg.name].kind != JSONList then Err(NotAList)
      else if !rhs.LiteralValue? then Err(NotALiteral)
      else if !rhs.lit.LInt? then Err(WrongType)
      else Ok(TLeaf(Compare(JsonLength(schema[arg.name].column, schema[arg.name].path), op, VInt(rhs.lit.i))))
    case LiteralValue(_) => Err(NotComparable)
  }

  /** The literals of a list, all strings or all numbers as the field wants. */
  function ListedValues(values: seq<ValueExpr>, strings: bool): Result<seq<Val>, RenderError>
  {
    if values == [] then Ok([])
    else if !values[0].LiteralValue? then Err(NotALiteral)
    else if (if strings then !values[0].lit.LStr? else !values[0].lit.LInt?) then Err(WrongType)
    else
      match ListedValues(values[1..], strings)
      case Err(e) => Err(e)
      case Ok(rest) => Ok([LitVal(values[0].lit)] + rest)
  }

  /** One listed tag: the tag itself, or a tag under it. */
  function ListedTagTree(x: Operand, s: string, d: Dialect): Tree<Val>
  {
    var exact := if d == SQLite then LikePattern(x, VStr("%\"" + s + "\"%"), false)
      else HasElement(x, VStr("\"" + s + "\""));
    TOr([TLeaf(exact), TLeaf(LikePattern(x, VStr("%\"" + s + "/%"), false))])
  }

  function ListedTagTrees(x: Operand, values: seq<Val>, d: Dialect): seq<Tree<Val>>
    requires forall v :: v in values ==> v.VStr?
  {
    seq(|values|, k requires 0 <= k < |values| => ListedTagTree(x, values[k].s, d))
  }

  lemma ListedStrings(values: seq<ValueExpr>)
    ensures ListedValues(values, true).Ok? ==> forall v :: v in ListedValues(values, true).value ==> v.VStr?
  {
  }

  function TagInTree(values: seq<ValueExpr>, schema: Schema, d: Dialect): Result<Tree<Val>, RenderError>
  {
    match ResolveAlias(schema, "tag")
    case None => Err(UnknownField)
    case Some(f) =>
      match ListedValues(values, true)
      case Err(e) => Err(e)
      case Ok(vs) =>
        ListedStrings(values);
        var trees := ListedTagTrees(JsonExpr(f), vs, d);
        Ok(if |trees| == 1 then trees[0] else TOr(trees))
  }

  function ScalarInTree(f: Field, values: seq<ValueExpr>): Result<Tree<Val>, RenderError>
  {
    if values != [] && f.typ != StringType && f.typ != IntType then
      Err(if values[0].LiteralValue? then WrongType else NotALiteral)
    else
      match ListedValues(values, f.typ == StringType)
      case Err(e) => Err(e)
      case Ok(vs) => Ok(TLeaf(InList(ColumnExpr(f), vs)))
  }

  function InTree(lhs: ValueExpr, values: seq<ValueExpr>, schema: Schema, d: Dialect): Result<Tree<Val>, RenderError>
  {
    if !lhs.FieldRef? then Err(NotComparable)
    else if lhs.name == "tag" then TagInTree(values, schema, d)
    else if lhs.name !in schema then Err(UnknownField)
    else
      if schema[lhs.name].kind != Scalar then Err(NotComparable)
      else ScalarInTree(schema[lhs.name], values)
  }

  function ElementTree(element: ValueExpr, name: string, schema: Schema, d: Dialect): Result<Tree<Val>, RenderError>
  {
    if name !in schema then Err(UnknownField)
    else if schema[name].kind != JSONList then Err(NotAList)
    else if !element.LiteralValue? then Err(NotALiteral)
    else if !element.lit.LStr? then Err(WrongType)
    else
      var x, s := JsonExpr(schema[name]), element.lit.s;
      Ok(TLeaf(if d == SQLite then LikePattern(x, VStr("%\"" + s + "\"%"), false)
          else HasElement(x, VStr("\"" + s + "\""))))
  }

  function ContainsTree(name: string, text: string, schema: Schema, d: Dialect): Result<Tree<Val>, RenderError>
  {
    if name !in schema then Err(UnknownField)
    else Ok(TLeaf(LikePattern(ColumnExpr(schema[name]), VStr("%" + text + "%"), d != MySQL)))
  }

  /** A list test holds only of lists that are there and not empty. */
  function NullChecked(x: Operand, t: Tree<Val>): Tree<Val>
  {
    TAnd([t, TLeaf(IsNotNull(x)), TLeaf(NonEmpty(x))])
  }

  function PrefixTree(x: Operand, s: string, d: Dialect): Tree<Val>
  {
    var exact := if d == Postgres then HasElement(x, VStr("\"" + s + "\""))
      else LikePattern(x, VStr("%\"" + s + "\"%"), false);
    TOr([TLeaf(exact), TLeaf(LikePattern(x, VStr("%\"" + s + "%"), false))])
  }

  function ExistsTree(name: string, p: PredicateExpr, schema: Schema, d: Dialect): Result<Tree<Val>, RenderError>
  {
    if name !in schema then Err(UnknownField)
    else if schema[name].kind != JSONList then Err(NotAList)
    else
      var x := JsonExpr(schema[name]);
      var test := match p
        case StartsWithP(s) => PrefixTree(x, s, d)
        case EndsWithP(s) => TLeaf(LikePattern(x, VStr("%" + s + "\"%"), false))
        case ContainsP(s) => TLeaf(LikePattern(x, VStr("%" + s + "%"), false));
      Ok(NullChecked(x, test))
  }

  predicate IsBasic(c: Condition) { !c.And? && !c.Or? && !c.Not? && !c.Constant? }

  /** The tree of a condition without connectives. */
  function BasicTree(c: Condition, schema: Schema, d: Dialect): Result<Tree<Val>, RenderError>
    requires IsBasic(c)
  {
    match c
    case FieldPredicate(n) => PredicateTree(n, schema)
    case Comparison(lhs, op, rhs) => ComparisonTree(lhs, op, rhs, schema, d)
    case In(lhs, values) => InTree(lhs, values, schema, d)
    case ElementIn(element, n) => ElementTree(element, n, schema, d)
    case Contains(n, text) => ContainsTree(n, text, schema, d)
    case Exists(n, p) => ExistsTree(n, p, schema, d)
  }

  // ----- Arguments and their places

  /** An argument and the place it was given in the argument list. */
  datatype Slot = Slot(value: Val, index: nat)

  function LeafArgs<A>(l: Leaf<A>): seq<A>
  {
    match l
    case Compare(_, _, arg) => [arg]
    case InList(_, args) => args
    case HasElement(_, arg) => [arg]
    case LikePattern(_, arg, _) => [arg]
    case _ => []
  }

  /** The arguments of a tree from left to right. */
  function TreeArgs<A>(t: Tree<A>): seq<A>
  {
    match t
    case TLeaf(l) => LeafArgs(l)
    case TAnd(kids) => KidArgs(kids)
    case TOr(kids) => KidArgs(kids)
    case TNot(kid) => TreeArgs(kid)
  }

  function KidArgs<A>(kids: seq<Tree<A>>): seq<A>
  {
    if kids == [] then [] else TreeArgs(kids[0]) + KidArgs(kids[1..])
  }

  function MapLeaf<A, B>(l: Leaf<A>, f: A -> B): Leaf<B>
  {
    match l
    case AlwaysTrue => AlwaysTrue
    case AlwaysFalse => AlwaysFalse
    case IsNull(x) => IsNull(x)
    case IsNotNull(x) => IsNotNull(x)
    case IsTrue(x) => IsTrue(x)
    case Compare(x, op, arg) => Compare(x, op, f(arg))
    case JsonCompare(x, op, b) => JsonCompare(x, op, b)
    case InList(x, args) => InList(x, seq(|args|, k requires 0 <= k < |args| => f(args[k])))
    case HasElement(x, arg) => HasElement(x, f(arg))
    case LikePattern(x, arg, anyCase) => LikePattern(x, f(arg), anyCase)
    case NonEmpty(x) => NonEmpty(x)
  }

  function MapTree<A, B>(t: Tree<A>, f: A -> B): Tree<B>
  {
    match t
    case TLeaf(l) => TLeaf(MapLeaf(l, f))
    case TAnd(kids) => TAnd(MapKids(kids, f))
    case TOr(kids) => TOr(MapKids(kids, f))
    case TNot(kid) => TNot(MapTree(kid, f))
  }

  function MapKids<A, B>(kids: seq<Tree<A>>, f: A -> B): (r: seq<Tree<B>>)
    ensures |r| == |kids| && forall k :: 0 <= k < |kids| ==> r[k] == MapTree(kids[k], f)
  {
    if kids == [] then [] else [MapTree(kids[0], f)] + MapKids(kids[1..], f)
  }

  /** `t` with its arguments numbered from `n` on, left to right. */
  function NumberLeaf(l: Leaf<Val>, n: nat): Leaf<Slot>
  {
    match l
    case AlwaysTrue => AlwaysTrue
    case AlwaysFalse => AlwaysFalse
    case IsNull(x) => IsNull(x)
    case IsNotNull(x) => IsNotNull(x)
    case IsTrue(x) => IsTrue(x)
    case Compare(x, op, arg) => Compare(x, op, Slot(arg, n))
    case JsonCompare(x, op, b) => JsonCompare(x, op, b)
    case InList(x, args) => InList(x, seq(|args|, k requires 0 <= k < |args| => Slot(args[k], n + k)))
    case HasElement(x, arg) => HasElement(x, Slot(arg, n))
    case LikePattern(x, arg, anyCase) => LikePattern(x, Slot(arg, n), anyCase)
    case NonEmpty(x) => NonEmpty(x)
  }

  function Number(t: Tree<Val>, n: nat): Tree<Slot>
  {
    match t
    case TLeaf(l) => TLeaf(NumberLeaf(l, n))
    case TAnd(kids) => TAnd(NumberKids(kids, n))
    case TOr(kids) => TOr(NumberKids(kids, n))
    case TNot(kid) => TNot(Number(kid, n))
  }

  function NumberKids(kids: seq<Tree<Val>>, n: nat): (r: seq<Tree<Slot>>)
    ensures |r| == |kids|
  {
    if kids == [] then [] else [Number(kids[0], n)] + NumberKids(kids[1..], n + |TreeArgs(kids[0])|)
  }

  // ----- Folding

  datatype Folded = AlwaysHolds | NeverHolds | Holds(tree: Tree<Slot>)

  function FoldAnd(l: Folded, r: Folded): Folded
  {
    if l.NeverHolds? || r.NeverHolds? then NeverHolds
    else if l.AlwaysHolds? then r
    else if r.AlwaysHolds? then l
    else Holds(TAnd([l.tree, r.tree]))
  }

  function FoldOr(l: Folded, r: Folded): Folded
  {
    if l.AlwaysHolds? || r.AlwaysHolds? then AlwaysHolds
    else if l.NeverHolds? then r
    else if r.NeverHolds? then l
    else Holds(TOr([l.tree, r.tree]))
  }

  function FoldNot(f: Folded): Folded
  {
    match f
    case AlwaysHolds => NeverHolds
    case NeverHolds => AlwaysHolds
    case Holds(t) => Holds(TNot(t))
  }

  /** All arguments collected for a condition, in order, whether or not folding keeps them. */
  function AllArgs(c: Condition, schema: Schema, d: Dialect): seq<Val>
  {
    match c
    case And(l, r) => AllArgs(l, schema, d) + AllArgs(r, schema, d)
    case Or(l, r) => AllArgs(l, schema, d) + AllArgs(r, schema, d)
    case Not(x) => AllArgs(x, schema, d)
    case Constant(_) => []
    case _ => match BasicTree(c, schema, d) case Ok(t) => TreeArgs(t) case Err(_) => []
  }

  /** The folded tree of a condition whose arguments are placed from `n` on. */
  function Fold(c: Condition, schema: Schema, d: Dialect, n: nat): Result<Folded, RenderError>
  {
    match c
    case And(l, r) =>
      (match Fold(l, schema, d, n)
       case Err(e) => Err(e)
       case Ok(fl) =>
         match Fold(r, schema, d, n + |AllArgs(l, schema, d)|)
         case Err(e) => Err(e)
         case Ok(fr) => Ok(FoldAnd(fl, fr)))
    case Or(l, r) =>
      (match Fold(l, schema, d, n)
       case Err(e) => Err(e)
       case Ok(fl) =>
         match Fold(r, schema, d, n + |AllArgs(l, schema, d)|)
         case Err(e) => Err(e)
         case Ok(fr) => Ok(FoldOr(fl, fr)))
    case Not(x) =>
      (match Fold(x, schema, d, n)
       case Err(e) => Err(e)
       case Ok(f) => Ok(FoldNot(f)))
    case Constant(b) => Ok(if b then AlwaysHolds else NeverHolds)
    case _ =>
      (match BasicTree(c, schema, d)
       case Err(e) => Err(e)
       case Ok(t) => Ok(Holds(Number(t, n))))
  }

  // ----- Placeholders

  datatype Placeholder = Dollar(n: nat) | Question

  /** The placeholder of the argument placed at `index` after `offset` earlier ones. */
  function Mark(d: Dialect, offset: nat, index: nat): Placeholder
  {
    if d == Postgres then Dollar(offset + index + 1) else Question
  }

  function Marks(d: Dialect, offset: nat): Slot -> Placeholder { (s: Slot) => Mark(d, offset, s.index) }

  /** The text of a tree whose arguments are placed after `offset` earlier ones. */
  function Text(t: Tree<Slot>, d: Dialect, offset: nat): seq<Token<Placeholder>>
  {
    Print(MapTree(t, Marks(d, offset)))
  }
}
