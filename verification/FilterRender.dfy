/** The renderer: it walks a condition, folds constants, and collects arguments as it writes. */
module FilterRender {
  import opened Wrappers
  import opened FilterSchema
  import opened FilterRows
  import opened Sql
  import opened FilterFold

  type SqlText = seq<Token<Placeholder>>

  datatype RenderResult = RenderResult(sql: SqlText, trivial: bool, unsatisfiable: bool)

  datatype Statement = Statement(sql: SqlText, args: seq<Val>)

  const NEVER := RenderResult([LeafT(AlwaysFalse)], false, true)
  const ALWAYS := RenderResult([], true, false)

  function Plainly(sql: SqlText): RenderResult { RenderResult(sql, false, false) }

  /** The result a folded condition is written as. */
  function Written(f: Folded, d: Dialect, offset: nat): RenderResult
  {
    match f
    case AlwaysHolds => ALWAYS
    case NeverHolds => NEVER
    case Holds(t) => Plainly(Text(t, d, offset))
  }

  function CombineAnd(left: RenderResult, right: RenderResult): RenderResult
  {
    if left.unsatisfiable || right.unsatisfiable then NEVER
    else if left.trivial then right
    else if right.trivial then left
    else Plainly([LParen] + left.sql + [AndT] + right.sql + [RParen])
  }

  function CombineOr(left: RenderResult, right: RenderResult): RenderResult
  {
    if left.trivial || right.trivial then ALWAYS
    else if left.unsatisfiable then right
    else if right.unsatisfiable then left
    else Plainly([LParen] + left.sql + [OrT] + right.sql + [RParen])
  }

  lemma PrintPair(a: Tree<Placeholder>, b: Tree<Placeholder>)
    ensures Print(TAnd([a, b])) == [LParen] + Print(a) + [AndT] + Print(b) + [RParen]
    ensures Print(TOr([a, b])) == [LParen] + Print(a) + [OrT] + Print(b) + [RParen]
  {
    var x, y := Print(a), Print(b);
    assert [a, b][1..] == [b];
    assert PrintAll([b], AndT) == y && PrintAll([b], OrT) == y;
    assert PrintAll([a, b], AndT) == x + [AndT] + y;
    assert PrintAll([a, b], OrT) == x + [OrT] + y;
    assert Print(TAnd([a, b])) == [LParen] + PrintAll([a, b], AndT) + [RParen];
    assert Print(TOr([a, b])) == [LParen] + PrintAll([a, b], OrT) + [RParen];
    hide Print, PrintAll;
    assert [LParen] + (x + [AndT] + y) == [LParen] + x + [AndT] + y;
    assert [LParen] + (x + [OrT] + y) == [LParen] + x + [OrT] + y;
  }

  lemma MapPair<A, B>(a: Tree<A>, b: Tree<A>, f: A -> B)
    ensures MapTree(TAnd([a, b]), f) == TAnd([MapTree(a, f), MapTree(b, f)])
    ensures MapTree(TOr([a, b]), f) == TOr([MapTree(a, f), MapTree(b, f)])
  {
    assert MapKids([a, b], f) == [MapTree(a, f), MapTree(b, f)];
  }

  lemma CombineIsFold(l: Folded, r: Folded, d: Dialect, offset: nat)
    ensures CombineAnd(Written(l, d, offset), Written(r, d, offset)) == Written(FoldAnd(l, r), d, offset)
    ensures CombineOr(Written(l, d, offset), Written(r, d, offset)) == Written(FoldOr(l, r), d, offset)
  {
    hide Print, MapTree;
    if l.Holds? && r.Holds? {
      var f := Marks(d, offset);
      MapPair(l.tree, r.tree, f);
      PrintPair(MapTree(l.tree, f), MapTree(r.tree, f));
    }
  }

  /** Texts joined by OR in parentheses. */
  function JoinOr(parts: seq<SqlText>): SqlText
  {
    if parts == [] then [] else if |parts| == 1 then parts[0] else parts[0] + [OrT] + JoinOr(parts[1..])
  }

  lemma {:induction false} JoinOrIsPrintAll(parts: seq<SqlText>, kids: seq<Tree<Placeholder>>)
    requires |parts| == |kids| && forall k :: 0 <= k < |kids| ==> parts[k] == Print(kids[k])
    ensures JoinOr(parts) == PrintAll(kids, OrT)
  {
    if |kids| > 1 { JoinOrIsPrintAll(parts[1..], kids[1..]); }
  }

  class Renderer {
    const schema: Schema
    const dialect: Dialect
    const placeholderOffset: nat
    var placeholderCounter: nat
    var args: seq<Val>

    constructor (schema: Schema, dialect: Dialect, offset: nat)
      ensures this.schema == schema && this.dialect == dialect && placeholderOffset == offset
      ensures Valid() && args == []
    {
      this.schema, this.dialect, this.placeholderOffset := schema, dialect, offset;
      placeholderCounter, args := 0, [];
    }

    ghost predicate Valid()
      reads this
    {
      placeholderCounter == |args|
    }

    /** The text of a tree without connectives, placed after the `n` arguments there were. */
    ghost function TextOf(t: Tree<Val>, n: nat): SqlText
    {
      Text(Number(t, n), dialect, placeholderOffset)
    }

    /** What a method for a condition without connectives does, when there were the arguments `was`:
        it fails as `spec` does, or writes `spec` and appends its arguments. */
    ghost predicate Writes(was: seq<Val>, res: Result<SqlText, RenderError>, spec: Result<Tree<Val>, RenderError>)
      reads this
    {
      && Valid()
      && (spec.Err? ==> res == Err(spec.error))
      && (spec.Ok? ==> res == Ok(TextOf(spec.value, |was|)) && args == was + TreeArgs(spec.value))
    }

    method AddArg(value: Val) returns (mark: Placeholder)
      requires Valid()
      modifies this
      ensures Valid() && args == old(args) + [value]
      ensures mark == Mark(dialect, placeholderOffset, |old(args)|)
    {
      placeholderCounter := placeholderCounter + 1;
      args := args + [value];
      mark := if dialect == Postgres then Dollar(placeholderOffset + placeholderCounter) else Question;
    }

    method AddBoolArg(b: bool) returns (mark: Placeholder)
      requires Valid()
      modifies this
      ensures Valid() && args == old(args) + [BoolArg(b, dialect)]
      ensures mark == Mark(dialect, placeholderOffset, |old(args)|)
    {
      var v := if dialect == SQLite then VInt(if b then 1 else 0) else VBool(b);
      mark := AddArg(v);
    }

    method Render(cond: Condition) returns (res: Result<Statement, RenderError>)
      requires Valid() && args == []
      modifies this
      ensures match Fold(cond, schema, dialect, 0)
              case Err(e) => res == Err(e)
              case Ok(AlwaysHolds) => res == Ok(Statement([], AllArgs(cond, schema, dialect)))
              case Ok(NeverHolds) => res == Ok(Statement([LeafT(AlwaysFalse)], AllArgs(cond, schema, dialect)))
              case Ok(Holds(t)) =>
                res == Ok(Statement(Text(t, dialect, placeholderOffset), AllArgs(cond, schema, dialect)))
    {
      var result := RenderCondition(cond);
      assert old(args) + AllArgs(cond, schema, dialect) == AllArgs(cond, schema, dialect);
      if result.Err? { return Err(result.error); }
      if result.value.unsatisfiable { return Ok(Statement([LeafT(AlwaysFalse)], args)); }
      if result.value.trivial { return Ok(Statement([], args)); }
      return Ok(Statement(result.value.sql, args));
    }

    method RenderCondition(cond: Condition) returns (res: Result<RenderResult, RenderError>)
      requires Valid()
      modifies this
      ensures Valid()
      ensures match Fold(cond, schema, dialect, |old(args)|)
              case Err(e) => res == Err(e)
              case Ok(f) =>
                && res == Ok(Written(f, dialect, placeholderOffset))
                && args == old(args) + AllArgs(cond, schema, dialect)
      decreases cond, 1
    {
      match cond {
        case And(_, _) => res := RenderLogicalCondition(cond);
        case Or(_, _) => res := RenderLogicalCondition(cond);
        case Not(_) => res := RenderNotCondition(cond);
        case Constant(value) =>
          assert args == old(args) + [];
          return Ok(if value then ALWAYS else NEVER);
        case _ =>
          var leaf := RenderBasic(cond);
          match leaf {
            case Err(e) => return Err(e);
            case Ok(sql) => return Ok(Plainly(sql));
          }
      }
    }

    method RenderLogicalCondition(cond: Condition) returns (res: Result<RenderResult, RenderError>)
      requires Valid() && (cond.And? || cond.Or?)
      modifies this
      ensures Valid()
      ensures match Fold(cond, schema, dialect, |old(args)|)
              case Err(e) => res == Err(e)
              case Ok(f) =>
                && res == Ok(Written(f, dialect, placeholderOffset))
                && args == old(args) + AllArgs(cond, schema, dialect)
      decreases cond, 0
    {
      var left := RenderCondition(cond.left);
      if left.Err? { return left; }
      ghost var middle := args;
      var right := RenderCondition(cond.right);
      if right.Err? { return right; }
      ghost var fl := Fold(cond.left, schema, dialect, |old(args)|).value;
      ghost var fr := Fold(cond.right, schema, dialect, |middle|).value;
      CombineIsFold(fl, fr, dialect, placeholderOffset);
      assert args == old(args) + AllArgs(cond, schema, dialect);
      if cond.And? { return Ok(CombineAnd(left.value, right.value)); }
      return Ok(CombineOr(left.value, right.value));
    }

    method RenderNotCondition(cond: Condition) returns (res: Result<RenderResult, RenderError>)
      requires Valid() && cond.Not?
      modifies this
      ensures Valid()
      ensures match Fold(cond, schema, dialect, |old(args)|)
              case Err(e) => res == Err(e)
              case Ok(f) =>
                && res == Ok(Written(f, dialect, placeholderOffset))
                && args == old(args) + AllArgs(cond, schema, dialect)
      decreases cond, 0
    {
      var child := RenderCondition(cond.expr);
      if child.Err? { return child; }
      if child.value.trivial { return Ok(NEVER); }
      if child.value.unsatisfiable { return Ok(ALWAYS); }
      return Ok(Plainly([NotT, LParen] + child.value.sql + [RParen]));
    }

    method RenderBasic(cond: Condition) returns (res: Result<SqlText, RenderError>)
      requires Valid() && IsBasic(cond)
      modifies this
      ensures Writes(old(args), res, BasicTree(cond, schema, dialect))
    {
      match cond {
        case FieldPredicate(name) => res := RenderFieldPredicate(name);
        case Comparison(lhs, op, rhs) => res := RenderComparison(lhs, op, rhs);
        case In(lhs, values) => res := RenderInCondition(lhs, values);
        case ElementIn(element, name) => res := RenderElementInCondition(element, name);
        case Contains(name, text) => res := RenderContainsCondition(name, text);
        case Exists(name, pred) => res := RenderListComprehension(name, pred);
      }
    }

    method RenderFieldPredicate(name: string) returns (res: Result<SqlText, RenderError>)
      requires Valid()
      modifies this
      ensures Writes(old(args), res, PredicateTree(name, schema))
    {
      if name !in schema { return Err(UnknownField); }
      var field := schema[name];
      match field.kind {
        case BoolColumn => return Ok([LeafT(IsTrue(ColumnOp(field.column, false)))]);
        case JSONBool => return Ok([LeafT(IsTrue(JsonExpr(field)))]);
        case _ => return Err(NotAPredicate);
      }
    }

    method RenderComparison(lhs: ValueExpr, op: CompareOp, rhs: ValueExpr) returns (res: Result<SqlText, RenderError>)
      requires Valid()
      modifies this
      ensures Writes(old(args), res, ComparisonTree(lhs, op, rhs, schema, dialect))
    {
      match lhs {
        case FieldRef(name) =>
          if name !in schema { return Err(UnknownField); }
          var field := schema[name];
          match field.kind {
            case BoolColumn => res := RenderBoolColumnComparison(field, op, rhs);
            case JSONBool => res := RenderJSONBoolComparison(field, op, rhs);
            case Scalar => res := RenderScalarComparison(field, op, rhs);
            case _ => return Err(NotComparable);
          }
        case FunctionValue(_, _) => res := RenderFunctionComparison(lhs, op, rhs);
        case LiteralValue(_) => return Err(NotComparable);
      }
    }

    method RenderFunctionComparison(lhs: ValueExpr, op: CompareOp, rhs: ValueExpr)
      returns (res: Result<SqlText, RenderError>)
      requires Valid() && lhs.FunctionValue?
      modifies this
      ensures Writes(old(args), res, ComparisonTree(lhs, op, rhs, schema, dialect))
    {
      if lhs.fn != "size" { return Err(NotComparable); }
      if !lhs.arg.FieldRef? { return Err(NotComparable); }
      if lhs.arg.name !in schema { return Err(UnknownField); }
      var field := schema[lhs.arg.name];
      if field.kind != JSONList { return Err(NotAList); }
      if !rhs.LiteralValue? { return Err(NotALiteral); }
      if !rhs.lit.LInt? { return Err(WrongType); }
      var mark := AddArg(VInt(rhs.lit.i));
      return Ok([LeafT(Compare(JsonLength(field.column, field.path), op, mark))]);
    }

    method RenderScalarComparison(field: Field, op: CompareOp, rhs: ValueExpr)
      returns (res: Result<SqlText, RenderError>)
      requires Valid()
      modifies this
      ensures Writes(old(args), res, if rhs.LiteralValue? then ScalarTree(field, op, rhs.lit) else Err(NotALiteral))
    {
      if !rhs.LiteralValue? { return Err(NotALiteral); }
      var column := ColumnExpr(field);
      var lit := rhs.lit;
      if lit.LNull? {
        if op == Eq { return Ok([LeafT(IsNull(column))]); }
        if op == Neq { return Ok([LeafT(IsNotNull(column))]); }
        return Err(OperatorNotSupported);
      }
      var mark;
      match field.typ {
        case StringType =>
          if !lit.LStr? { return Err(WrongType); }
          mark := AddArg(VStr(lit.s));
        case BoolType => return Err(WrongType);
        case _ =>
          if !lit.LInt? { return Err(WrongType); }
          mark := AddArg(VInt(lit.i));
      }
      return Ok([LeafT(Compare(column, op, mark))]);
    }

    method RenderBoolColumnComparison(field: Field, op: CompareOp, rhs: ValueExpr)
      returns (res: Result<SqlText, RenderError>)
      requires Valid()
      modifies this
      ensures Writes(old(args), res, if !rhs.LiteralValue? then Err(NotALiteral)
                else if !rhs.lit.LBool? then Err(WrongType)
                          else Ok(TLeaf(Compare(ColumnOp(field.column, false), op, BoolArg(rhs.lit.b, dialect)))))
    {
      if !rhs.LiteralValue? { return Err(NotALiteral); }
      if !rhs.lit.LBool? { return Err(WrongType); }
      var mark := AddBoolArg(rhs.lit.b);
      return Ok([LeafT(Compare(ColumnOp(field.column, false), op, mark))]);
    }

    method RenderJSONBoolComparison(field: Field, op: CompareOp, rhs: ValueExpr)
      returns (res: Result<SqlText, RenderError>)
      requires Valid()
      modifies this
      ensures Writes(old(args), res, if !rhs.LiteralValue? then Err(NotALiteral)
                else if !rhs.lit.LBool? then Err(WrongType)
                          else JsonBoolTree(field, op, rhs.lit.b, dialect))
    {
      if !rhs.LiteralValue? { return Err(NotALiteral); }
      if !rhs.lit.LBool? { return Err(WrongType); }
      var value, expr := rhs.lit.b, JsonExpr(field);
      NotText(TLeaf(IsTrue(expr)), |args|, dialect, placeholderOffset);
      var negated: SqlText := [NotT, LParen, LeafT(IsTrue(expr)), RParen];
      assert negated == [NotT, LParen] + [LeafT(IsTrue(expr))] + [RParen];
      match dialect {
        case SQLite =>
          match op {
            case Eq =>
              if field.name == "has_task_list" { return Ok([LeafT(JsonCompare(expr, Eq, value))]); }
              if value { return Ok([LeafT(IsTrue(expr))]); }
              return Ok(negated);
            case Neq =>
              if field.name == "has_task_list" { return Ok([LeafT(JsonCompare(expr, Neq, value))]); }
              if value { return Ok(negated); }
              return Ok([LeafT(IsTrue(expr))]);
            case _ => return Err(OperatorNotSupported);
          }
        case MySQL => return Ok([LeafT(JsonCompare(expr, op, value))]);
        case Postgres =>
          var mark := AddArg(VBool(value));
          return Ok([LeafT(Compare(expr, op, mark))]);
      }
    }

    method RenderInCondition(lhs: ValueExpr, values: seq<ValueExpr>) returns (res: Result<SqlText, RenderError>)
      requires Valid()
      modifies this
      ensures Writes(old(args), res, InTree(lhs, values, schema, dialect))
    {
      if !lhs.FieldRef? { return Err(NotComparable); }
      if lhs.name == "tag" { res := RenderTagInList(values); return; }
      if lhs.name !in schema { return Err(UnknownField); }
      if schema[lhs.name].kind != Scalar { return Err(NotComparable); }
      res := RenderScalarInCondition(schema[lhs.name], values);
    }

    method RenderTagInList(values: seq<ValueExpr>) returns (res: Result<SqlText, RenderError>)
      requires Valid()
      modifies this
      ensures Writes(old(args), res, TagInTree(values, schema, dialect))
    {
      PartsNone(|args|, dialect, placeholderOffset);
      hide KidArgs, TreeArgs, Number, Text, ListedValues, ListedTagTree, Parts, MapTree, Print, JoinOr;
      var alias := ResolveAlias(schema, "tag");
      if alias.None? { return Err(UnknownField); }
      var expr := JsonExpr(alias.value);
      ghost var n := |args|;
      var conditions: seq<SqlText> := [];
      ghost var trees: seq<Tree<Val>> := [];
      for i := 0 to |values|
        invariant Valid()
        invariant |trees| == i && AllListed(values, i, true)
        invariant forall k :: 0 <= k < i ==> trees[k] == ListedTagTree(expr, values[k].lit.s, dialect)
        invariant Parts(conditions, trees, n, dialect, placeholderOffset)
        invariant args == old(args) + KidArgs(trees)
      {
        NextListed(values, i, true);
        if !values[i].LiteralValue? { return Err(NotALiteral); }
        if !values[i].lit.LStr? { return Err(WrongType); }
        ghost var tree := ListedTagTree(expr, values[i].lit.s, dialect);
        KidArgsAppend(trees, tree);
        var condition := RenderListedTag(expr, values[i].lit.s);
        PartsAppend(conditions, trees, n, dialect, placeholderOffset, condition, tree);
        trees := trees + [tree];
        conditions := conditions + [condition];
      }
      TagTrees(values, trees, schema, dialect);
      if |conditions| == 1 {
        KidArgsOne(trees[0]);
        assert trees == [trees[0]] && trees[..0] == [];
        return Ok(conditions[0]);
      }
      OrText(trees, conditions, n, dialect, placeholderOffset);
      return Ok([LParen] + JoinOr(conditions) + [RParen]);
    }

    method RenderListedTag(expr: Operand, tag: string) returns (sql: SqlText)
      requires Valid()
      modifies this
      ensures Valid()
      ensures sql == TextOf(ListedTagTree(expr, tag, dialect), |old(args)|)
      ensures args == old(args) + TreeArgs(ListedTagTree(expr, tag, dialect))
    {
      ghost var n := |args|;
      if dialect == SQLite {
        var exact := AddArg(VStr("%\"" + tag + "\"%"));
        var prefix := AddArg(VStr("%\"" + tag + "/%"));
        sql := [LParen, LeafT(LikePattern(expr, exact, false)), OrT, LeafT(LikePattern(expr, prefix, false)), RParen];
      } else {
        var exact := AddArg(VStr("\"" + tag + "\""));
        var prefix := AddArg(VStr("%\"" + tag + "/%"));
        sql := [LParen, LeafT(HasElement(expr, exact)), OrT, LeafT(LikePattern(expr, prefix, false)), RParen];
      }
      ghost var tree := ListedTagTree(expr, tag, dialect);
      PairArgs(tree.kids[0], tree.kids[1]);
      PairText(tree.kids[0], tree.kids[1], n, dialect, placeholderOffset);
    }

    method RenderScalarInCondition(field: Field, values: seq<ValueExpr>) returns (res: Result<SqlText, RenderError>)
      requires Valid() && field.kind == Scalar
      modifies this
      ensures Writes(old(args), res, ScalarInTree(field, values))
    {
      ghost var n := |args|;
      var marks: seq<Placeholder> := [];
      ghost var vs: seq<Val> := [];
      for i := 0 to |values|
        invariant Valid()
        invariant |marks| == |vs| == i
        invariant i > 0 ==> field.typ == StringType || field.typ == IntType
        invariant AllListed(values, i, field.typ == StringType)
        invariant forall k :: 0 <= k < i ==> vs[k] == LitVal(values[k].lit)
        invariant forall k :: 0 <= k < i ==> marks[k] == Mark(dialect, placeholderOffset, n + k)
        invariant args == old(args) + vs
      {
        NextListed(values, i, field.typ == StringType);
        if !values[i].LiteralValue? { return Err(NotALiteral); }
        var lit := values[i].lit;
        var mark;
        match field.typ {
          case StringType =>
            if !lit.LStr? { return Err(WrongType); }
            mark := AddArg(VStr(lit.s));
          case IntType =>
            if !lit.LInt? { return Err(WrongType); }
            mark := AddArg(VInt(lit.i));
          case _ => return Err(WrongType);
        }
        marks := marks + [mark];
        vs := vs + [LitVal(lit)];
      }
      ListedAll(values, field.typ == StringType);
      ListText(ColumnExpr(field), vs, marks, n, dialect, placeholderOffset);
      assert vs == ListedValues(values, field.typ == StringType).value;
      return Ok([LeafT(InList(ColumnExpr(field), marks))]);
    }

    method RenderElementInCondition(element: ValueExpr, name: string) returns (res: Result<SqlText, RenderError>)
      requires Valid()
      modifies this
      ensures Writes(old(args), res, ElementTree(element, name, schema, dialect))
    {
      if name !in schema { return Err(UnknownField); }
      var field := schema[name];
      if field.kind != JSONList { return Err(NotAList); }
      if !element.LiteralValue? { return Err(NotALiteral); }
      if !element.lit.LStr? { return Err(WrongType); }
      var str := element.lit.s;
      if dialect == SQLite {
        var mark := AddArg(VStr("%\"" + str + "\"%"));
        return Ok([LeafT(LikePattern(JsonExpr(field), mark, false))]);
      }
      var mark := AddArg(VStr("\"" + str + "\""));
      return Ok([LeafT(HasElement(JsonExpr(field), mark))]);
    }

    method RenderContainsCondition(name: string, text: string) returns (res: Result<SqlText, RenderError>)
      requires Valid()
      modifies this
      ensures Writes(old(args), res, ContainsTree(name, text, schema, dialect))
    {
      if name !in schema { return Err(UnknownField); }
      var mark := AddArg(VStr("%" + text + "%"));
      match dialect {
        case SQLite => return Ok([LeafT(LikePattern(ColumnExpr(schema[name]), mark, true))]);
        case Postgres => return Ok([LeafT(LikePattern(ColumnExpr(schema[name]), mark, true))]);
        case MySQL => return Ok([LeafT(LikePattern(ColumnExpr(schema[name]), mark, false))]);
      }
    }

    method RenderListComprehension(name: string, pred: PredicateExpr) returns (res: Result<SqlText, RenderError>)
      requires Valid()
      modifies this
      ensures Writes(old(args), res, ExistsTree(name, pred, schema, dialect))
    {
      if name !in schema { return Err(UnknownField); }
      if schema[name].kind != JSONList { return Err(NotAList); }
      var expr := JsonExpr(schema[name]);
      ghost var n := |args|;
      var condition;
      match pred {
        case StartsWithP(prefix) =>
          condition := RenderTagStartsWith(expr, prefix);
        case EndsWithP(suffix) =>
          var mark := AddArg(VStr("%" + suffix + "\"%"));
          condition := [LeafT(LikePattern(expr, mark, false))];
        case ContainsP(substring) =>
          var mark := AddArg(VStr("%" + substring + "%"));
          condition := [LeafT(LikePattern(expr, mark, false))];
      }
      ghost var test := ExistsTree(name, pred, schema, dialect).value.kids[0];
      NullCheckedText(expr, test, n, dialect, placeholderOffset);
      return Ok([LParen] + condition + [AndT, LeafT(IsNotNull(expr)), AndT, LeafT(NonEmpty(expr)), RParen]);
    }

    method RenderTagStartsWith(expr: Operand, prefix: string) returns (sql: SqlText)
      requires Valid()
      modifies this
      ensures Valid()
      ensures sql == TextOf(PrefixTree(expr, prefix, dialect), |old(args)|)
      ensures args == old(args) + TreeArgs(PrefixTree(expr, prefix, dialect))
    {
      ghost var n := |args|;
      if dialect == Postgres {
        var exact := AddArg(VStr("\"" + prefix + "\""));
        var start := AddArg(VStr("%\"" + prefix + "%"));
        sql := [LParen, LeafT(HasElement(expr, exact)), OrT, LeafT(LikePattern(expr, start, false)), RParen];
      } else {
        var exact := AddArg(VStr("%\"" + prefix + "\"%"));
        var start := AddArg(VStr("%\"" + prefix + "%"));
        sql := [LParen, LeafT(LikePattern(expr, exact, false)), OrT, LeafT(LikePattern(expr, start, false)), RParen];
      }
      ghost var tree := PrefixTree(expr, prefix, dialect);
      PairArgs(tree.kids[0], tree.kids[1]);
      PairText(tree.kids[0], tree.kids[1], n, dialect, placeholderOffset);
    }
  }

  // ----- Lists of literals and lists of texts

  /** The first `i` values are literals of the wanted type. */
  predicate AllListed(values: seq<ValueExpr>, i: nat, strings: bool)
    requires i <= |values|
  {
    forall k :: 0 <= k < i ==> values[k].LiteralValue? && if strings then values[k].lit.LStr? else values[k].lit.LInt?
  }

  lemma {:induction false} ListedAll(values: seq<ValueExpr>, strings: bool)
    requires AllListed(values, |values|, strings)
    ensures var r := ListedValues(values, strings);
            r.Ok? && |r.value| == |values| && forall k :: 0 <= k < |values| ==> r.value[k] == LitVal(values[k].lit)
  {
    if values != [] { ListedAll(values[1..], strings); }
  }

  /** The first value that is not as wanted decides the error. */
  lemma {:induction false} NextListed(values: seq<ValueExpr>, i: nat, strings: bool)
    requires i < |values| && AllListed(values, i, strings)
    ensures !values[i].LiteralValue? ==> ListedValues(values, strings) == Err(NotALiteral)
    ensures values[i].LiteralValue? && (if strings then !values[i].lit.LStr? else !values[i].lit.LInt?) ==>
              ListedValues(values, strings) == Err(WrongType)
  {
    if i > 0 { NextListed(values[1..], i - 1, strings); }
  }

  lemma {:induction false} KidArgsAppend(trees: seq<Tree<Val>>, t: Tree<Val>)
    ensures KidArgs(trees + [t]) == KidArgs(trees) + TreeArgs(t)
  {
    if trees == [] {
      assert (trees + [t])[1..] == [];
    } else {
      assert (trees + [t])[1..] == trees[1..] + [t];
      KidArgsAppend(trees[1..], t);
    }
  }

  lemma KidArgsOne(t: Tree<Val>)
    ensures KidArgs([t]) == TreeArgs(t)
  {
    assert [t][1..] == [];
  }

  lemma PairArgs(a: Tree<Val>, b: Tree<Val>)
    ensures KidArgs([a, b]) == TreeArgs(a) + TreeArgs(b)
  {
    assert [a, b][1..] == [b];
    KidArgsOne(b);
  }

  lemma {:induction false} NumberedKid(trees: seq<Tree<Val>>, n: nat, k: nat)
    requires k < |trees|
    ensures NumberKids(trees, n)[k] == Number(trees[k], n + |KidArgs(trees[..k])|)
  {
    if k == 0 {
      assert trees[..0] == [];
    } else {
      assert trees[..k][1..] == trees[1..][..k - 1];
      NumberedKid(trees[1..], n + |TreeArgs(trees[0])|, k - 1);
    }
  }

  /** The texts of consecutive trees, each numbered after the arguments of those before it. */
  ghost predicate Parts(parts: seq<SqlText>, trees: seq<Tree<Val>>, n: nat, d: Dialect, offset: nat)
    ensures Parts(parts, trees, n, d, offset) ==> |parts| == |trees|
    ensures Parts(parts, trees, n, d, offset) && |trees| >= 1 ==> parts[0] == Text(Number(trees[0], n), d, offset)
  {
    assert |trees| >= 1 ==> KidArgs(trees[..0]) == [];
    |parts| == |trees| &&
    forall k :: 0 <= k < |trees| ==> parts[k] == Text(Number(trees[k], n + |KidArgs(trees[..k])|), d, offset)
  }

  lemma PartsNone(n: nat, d: Dialect, offset: nat)
    ensures Parts([], [], n, d, offset) && KidArgs<Val>([]) == []
  {
  }

  lemma PartsAppend(parts: seq<SqlText>, trees: seq<Tree<Val>>, n: nat, d: Dialect, offset: nat, part: SqlText,
          tree: Tree<Val>)
    requires Parts(parts, trees, n, d, offset)
    requires part == Text(Number(tree, n + |KidArgs(trees)|), d, offset)
    ensures Parts(parts + [part], trees + [tree], n, d, offset)
  {
    hide KidArgs, Number, Text;
    var more := trees + [tree];
    assert more[..|trees|] == trees;
    assert forall k :: 0 <= k < |trees| ==> more[..k] == trees[..k] && more[k] == trees[k];
  }

  lemma TagTrees(values: seq<ValueExpr>, trees: seq<Tree<Val>>, schema: Schema, d: Dialect)
    requires AllListed(values, |values|, true) && |trees| == |values| && ResolveAlias(schema, "tag").Some?
    requires forall k :: 0 <= k < |trees| ==>
               trees[k] == ListedTagTree(JsonExpr(ResolveAlias(schema, "tag").value), values[k].lit.s, d)
    ensures TagInTree(values, schema, d) == Ok(if |trees| == 1 then trees[0] else TOr(trees))
  {
    hide ListedTagTree;
    ListedAll(values, true);
    ListedStrings(values);
    assert trees == ListedTagTrees(JsonExpr(ResolveAlias(schema, "tag").value), ListedValues(values, true).value, d);
  }

  lemma OrText(trees: seq<Tree<Val>>, parts: seq<SqlText>, n: nat, d: Dialect, offset: nat)
    requires Parts(parts, trees, n, d, offset)
    ensures Text(Number(TOr(trees), n), d, offset) == [LParen] + JoinOr(parts) + [RParen]
    ensures TreeArgs(TOr(trees)) == KidArgs(trees)
  {
    var kids := MapKids(NumberKids(trees, n), Marks(d, offset));
    forall k | 0 <= k < |trees| ensures parts[k] == Print(kids[k]) { NumberedKid(trees, n, k); }
    JoinOrIsPrintAll(parts, kids);
  }

  lemma NotText(t: Tree<Val>, n: nat, d: Dialect, offset: nat)
    ensures Text(Number(TNot(t), n), d, offset) == [NotT, LParen] + Text(Number(t, n), d, offset) + [RParen]
  {
  }

  lemma ListText(x: Operand, vs: seq<Val>, marks: seq<Placeholder>, n: nat, d: Dialect, offset: nat)
    requires |vs| == |marks| && forall k :: 0 <= k < |vs| ==> marks[k] == Mark(d, offset, n + k)
    ensures Text(Number(TLeaf(InList(x, vs)), n), d, offset) == [LeafT(InList(x, marks))]
    ensures TreeArgs(TLeaf(InList(x, vs))) == vs
  {
    var l := NumberLeaf(InList(x, vs), n);
    assert MapLeaf(l, Marks(d, offset)).args == marks;
  }

  lemma PairText(a: Tree<Val>, b: Tree<Val>, n: nat, d: Dialect, offset: nat)
    ensures Text(Number(TOr([a, b]), n), d, offset) ==
            [LParen] + Text(Number(a, n), d, offset) + [OrT] + Text(Number(b, n + |TreeArgs(a)|), d, offset) + [RParen]
  {
    hide Text, Number;
    var parts := [Text(Number(a, n), d, offset), Text(Number(b, n + |TreeArgs(a)|), d, offset)];
    assert [a, b][..0] == [] && [a, b][..1] == [a];
    KidArgsOne(a);
    OrText([a, b], parts, n, d, offset);
    assert parts[1..] == [parts[1]];
  }

  lemma NullCheckedText(x: Operand, t: Tree<Val>, n: nat, d: Dialect, offset: nat)
    ensures Text(Number(NullChecked(x, t), n), d, offset) ==
            [LParen] + Text(Number(t, n), d, offset) + [AndT, LeafT(IsNotNull(x)), AndT, LeafT(NonEmpty(x)), RParen]
    ensures TreeArgs(NullChecked(x, t)) == TreeArgs(t)
  {
    var f := Marks(d, offset);
    var u: Tree<Placeholder>, v: Tree<Placeholder> := TLeaf(IsNotNull(x)), TLeaf(NonEmpty(x));
    CheckedNumber(x, t, n);
    CheckedPrint(MapTree(Number(t, n), f), u, v);
    var m: Tree<Slot> := TAnd([Number(t, n), TLeaf(IsNotNull(x)), TLeaf(NonEmpty(x))]);
    assert MapTree(m, f) == TAnd([MapTree(Number(t, n), f), u, v]);
  }

  lemma CheckedNumber(x: Operand, t: Tree<Val>, n: nat)
    ensures Number(NullChecked(x, t), n) == TAnd([Number(t, n), TLeaf(IsNotNull(x)), TLeaf(NonEmpty(x))])
    ensures TreeArgs(NullChecked(x, t)) == TreeArgs(t)
  {
    var a, b: Tree<Val> := TLeaf(IsNotNull(x)), TLeaf(NonEmpty(x));
    var m := n + |TreeArgs(t)|;
    assert [t, a, b][1..] == [a, b] && [a, b][1..] == [b];
    assert NumberKids([a, b], m) == [Number(a, m), Number(b, m)];
    assert NumberKids([t, a, b], n) == [Number(t, n), Number(a, m), Number(b, m)];
    PairArgs(a, b);
  }

  lemma CheckedPrint(k: Tree<Placeholder>, u: Tree<Placeholder>, v: Tree<Placeholder>)
    requires u.TLeaf? && v.TLeaf?
    ensures Print(TAnd([k, u, v])) == [LParen] + Print(k) + [AndT, LeafT(u.leaf), AndT, LeafT(v.leaf), RParen]
  {
    var kids := [k, u, v];
    assert kids[1..] == [u, v] && [u, v][1..] == [v];
    var p, tail: SqlText := Print(k), [LeafT(u.leaf), AndT, LeafT(v.leaf)];
    assert PrintAll([v], AndT) == [LeafT(v.leaf)];
    assert PrintAll([u, v], AndT) == tail;
    assert PrintAll(kids, AndT) == p + [AndT] + tail;
    hide Print, PrintAll;
    assert [LParen] + (p + [AndT] + tail) + [RParen] == [LParen] + p + ([AndT] + tail + [RParen]);
  }
}
