/** Compiling filters into statements, and WHERE clauses built from filters and plain conditions. */
module FilterBuild {
  import opened Wrappers
  import opened FilterSchema
  import opened FilterRows
  import opened Cel
  import opened FilterParser
  import opened Sql
  import opened FilterFold
  import opened FilterArgs
  import opened FilterRender
  import opened FilterMeaning
  import Like

  datatype CompileError = InFilter(f: FilterError) | InRendering(r: RenderError)

  /** The condition of a filter, when both phases accept it. */
  ghost predicate Compiles(e: Expr, schema: Schema, now: int, d: Dialect)
  {
    BuildCondition(e, schema, now).Ok? && Fold(BuildCondition(e, schema, now).value, schema, d, 0).Ok?
  }

  ghost function ConditionOf(e: Expr, schema: Schema, now: int, d: Dialect): Condition
    requires Compiles(e, schema, now, d)
  {
    BuildCondition(e, schema, now).value
  }

  ghost function FoldedOf(e: Expr, schema: Schema, now: int, d: Dialect): Folded
    requires Compiles(e, schema, now, d)
  {
    Fold(ConditionOf(e, schema, now, d), schema, d, 0).value
  }

  ghost function ArgsOf(e: Expr, schema: Schema, now: int, d: Dialect): seq<Val>
    requires Compiles(e, schema, now, d)
  {
    AllArgs(ConditionOf(e, schema, now, d), schema, d)
  }

  /** The statement of a filter rendered after `offset` arguments. */
  ghost function StatementOf(e: Expr, schema: Schema, now: int, d: Dialect, offset: nat): Statement
    requires Compiles(e, schema, now, d)
  {
    Statement(match FoldedOf(e, schema, now, d)
              case AlwaysHolds => []
              case NeverHolds => [LeafT(AlwaysFalse)]
              case Holds(t) => Text(t, d, offset),
              ArgsOf(e, schema, now, d))
  }

  method CompileToStatement(e: Expr, schema: Schema, now: int, d: Dialect, offset: nat)
    returns (res: Result<Statement, CompileError>)
    ensures res.Ok? <==> Compiles(e, schema, now, d)
    ensures res.Ok? ==> res.value == StatementOf(e, schema, now, d, offset)
  {
    var condition := BuildCondition(e, schema, now);
    if condition.Err? { return Err(InFilter(condition.error)); }
    var renderer := new Renderer(schema, d, offset);
    var statement := renderer.Render(condition.value);
    if statement.Err? { return Err(InRendering(statement.error)); }
    return Ok(statement.value);
  }

  /** What the prepass makes of a number `n` after a logical operator: `(n != 0)`. */
  function RewrittenTest(n: int): Expr { Call("_!=_", None, [Const(CInt(n)), Const(CInt(0))]) }

  /** Such a test stands somewhere under the connectives of the filter. */
  predicate HasRewrittenTest(e: Expr)
  {
    e.Call? &&
    if e.fn == "_&&_" || e.fn == "_||_" || e.fn == "!_" then
      exists k :: 0 <= k < |e.args| && HasRewrittenTest(e.args[k])
    else e.fn == "_!=_" && |e.args| == 2 && e.args[0].Const? && e.args[0].c.CInt? && e.args[1] == Const(CInt(0))
  }

  lemma RewrittenTestIsOne(n: int)
    ensures HasRewrittenTest(RewrittenTest(n))
  {
  }

  /** A comparison that starts with a literal is never rendered, so a filter with such a test anywhere
      under its connectives is always refused. */
  lemma RewrittenOperandNeverCompiles(e: Expr, schema: Schema, now: int, d: Dialect)
    requires HasRewrittenTest(e)
    ensures !Compiles(e, schema, now, d)
  {
    hide Fold, BuildCondition;
    if BuildCondition(e, schema, now).Ok? { TestNeverFolds(e, schema, now, d, 0); }
  }

  lemma {:induction false} TestNeverFolds(e: Expr, schema: Schema, now: int, d: Dialect, n: nat)
    requires HasRewrittenTest(e) && BuildCondition(e, schema, now).Ok?
    ensures Fold(BuildCondition(e, schema, now).value, schema, d, n).Err?
  {
    hide BuildCondition, Fold, AllArgs;
    var c := BuildCondition(e, schema, now).value;
    if e.fn == "_&&_" || e.fn == "_||_" || e.fn == "!_" {
      PartsBuild(e, schema, now);
      PartsFold(c, schema, d, n);
      var k :| 0 <= k < |e.args| && HasRewrittenTest(e.args[k]);
      hide HasRewrittenTest;
      TestNeverFolds(e.args[k], schema, now, d, if k == 0 then n else n + |AllArgs(c.left, schema, d)|);
    } else {
      BareTest(e, schema, now, d, n);
    }
  }

  lemma PartsBuild(e: Expr, schema: Schema, now: int)
    requires e.Call? && (e.fn == "_&&_" || e.fn == "_||_" || e.fn == "!_") && BuildCondition(e, schema, now).Ok?
    ensures var c := BuildCondition(e, schema, now).value;
            && (e.fn == "!_" ==> c.Not? && |e.args| == 1 && BuildCondition(e.args[0], schema, now) == Ok(c.expr))
            && (e.fn != "!_" ==>
                (c.And? || c.Or?) && |e.args| == 2 && BuildCondition(e.args[0], schema, now) == Ok(c.left) &&
                                 BuildCondition(e.args[1], schema, now) == Ok(c.right))
  {
  }

  lemma PartsFold(c: Condition, schema: Schema, d: Dialect, n: nat)
    ensures c.Not? && Fold(c.expr, schema, d, n).Err? ==> Fold(c, schema, d, n).Err?
    ensures c.And? || c.Or? ==>
              var m := n + |AllArgs(c.left, schema, d)|;
              Fold(c.left, schema, d, n).Err? || Fold(c.right, schema, d, m).Err? ==> Fold(c, schema, d, n).Err?
  {
    hide AllArgs, BasicTree;
  }

  lemma BareTest(e: Expr, schema: Schema, now: int, d: Dialect, n: nat)
    requires e.Call? && e.fn == "_!=_" && |e.args| == 2 && e.args[0].Const? && e.args[0].c.CInt?
             && e.args[1] == Const(CInt(0))
    requires BuildCondition(e, schema, now).Ok?
    ensures Fold(BuildCondition(e, schema, now).value, schema, d, n).Err?
  {
    hide AllArgs;
    var c := BuildCondition(e, schema, now).value;
    assert c == Comparison(LiteralValue(LInt(e.args[0].c.i)), Neq, LiteralValue(LInt(0)));
  }

  // ----- One filter

  /** Reading a text together with the arguments passed: `k` of its `?` were read before it. */
  function Reading(sql: SqlText, k: nat, all: seq<Val>, d: Dialect): Option<Tree<Val>>
  {
    match Read(Resolve(sql, k), d)
    case None => None
    case Some(t) => Some(MapTree(t, Look(all)))
  }

  /** A rendered filter, read with its arguments among others, has the truth of its source on every
      row; a statement left out holds of every row. */
  lemma StatementMeansFilter(e: Expr, schema: Schema, now: int, d: Dialect, offset: nat, all: seq<Val>, row: Row,
          coll: Collation)
    requires Compiles(e, schema, now, d) && ListsFilled(ConditionOf(e, schema, now, d), d)
    requires Bindable(ConditionOf(e, schema, now, d), schema, d)
    requires PassedAt(all, offset, ArgsOf(e, schema, now, d))
    requires Faithful(e, schema, row, now, d) && Fits(row, schema, coll)
    ensures var s, truth := StatementOf(e, schema, now, d, offset), EvalBool(e, schema, row, now, coll, d, NoScope);
            if s.sql == [] then truth == True
            else
              && Reading(s.sql, offset, all, d).Some?
              && Eval(Reading(s.sql, offset, all, d).value, row, d, coll) == truth
  {
    hide Fold, BuildCondition, AllArgs, Eval, EvalBool, Faithful, Fits;
    var c := ConditionOf(e, schema, now, d);
    FilterKeepsMeaning(e, schema, row, now, d, coll, 0);
    match FoldedOf(e, schema, now, d) {
      case AlwaysHolds =>
      case NeverHolds => NeverMeaning(offset, all, row, d, coll);
      case Holds(t) =>
        PlaceholdersRead(c, schema, d, offset, all);
        FoldedShape(c, schema, d, 0);
        MapShape(t, Marks(Postgres, offset), d);
        ReadIsPrintInverse(MapTree(t, Marks(Postgres, offset)), d);
        TextNotEmpty(t, d, offset);
    }
  }

  lemma NeverMeaning(k: nat, all: seq<Val>, row: Row, d: Dialect, coll: Collation)
    ensures var sql := [LeafT(AlwaysFalse)];
            Reading(sql, k, all, d) == Some(TLeaf(AlwaysFalse)) && Eval(TLeaf(AlwaysFalse), row, d, coll) == False
  {
    ResolveLeafToken(AlwaysFalse, k);
    var t: Tree<Placeholder> := TLeaf(AlwaysFalse);
    ReadIsPrintInverse(t, d);
  }

  lemma TextNotEmpty(t: Tree<Slot>, d: Dialect, offset: nat)
    ensures Text(t, d, offset) != []
  {
  }

  /** Numbered placeholders need no more than that: in PostgreSQL every compiled filter whose lists
      are filled keeps its meaning, at every offset and whatever was folded away. */
  lemma PostgresFilterMeaning(e: Expr, schema: Schema, now: int, before: seq<Val>, after: seq<Val>, row: Row,
          coll: Collation)
    requires Compiles(e, schema, now, Postgres) && ListsFilled(ConditionOf(e, schema, now, Postgres), Postgres)
    requires Faithful(e, schema, row, now, Postgres) && Fits(row, schema, coll)
    ensures var s, truth := StatementOf(e, schema, now, Postgres, |before|),
            EvalBool(e, schema, row, now, coll, Postgres, NoScope);
            if s.sql == [] then truth == True
            else Reading(s.sql, 0, before + s.args + after, Postgres).Some? &&
                 Eval(Reading(s.sql, 0, before + s.args + after, Postgres).value, row, Postgres, coll) == truth
  {
    hide Fold, BuildCondition, AllArgs, Eval, EvalBool, Faithful, Fits;
    var args := ArgsOf(e, schema, now, Postgres);
    var all := before + args + after;
    assert all[|before|..|before| + |args|] == args;
    StatementMeansFilter(e, schema, now, Postgres, |before|, all, row, coll);
    var f := FoldedOf(e, schema, now, Postgres);
    if f.Holds? {
      ResolveTree(f.tree, Postgres, |before|, 0);
      ResolveTree(f.tree, Postgres, |before|, |before|);
    } else {
      ResolveLeafToken(AlwaysFalse, 0);
      ResolveLeafToken(AlwaysFalse, |before|);
    }
  }

  /** The text can be read exactly when folding kept no empty list that the dialect refuses. */
  lemma ReadableExactlyWhenFilled(e: Expr, schema: Schema, now: int, d: Dialect, offset: nat, all: seq<Val>)
    requires Compiles(e, schema, now, d) && Bindable(ConditionOf(e, schema, now, d), schema, d)
    requires StatementOf(e, schema, now, d, offset).sql != []
    ensures Reading(StatementOf(e, schema, now, d, offset).sql, offset, all, d).Some? <==>
              ListsFilled(ConditionOf(e, schema, now, d), d)
  {
    hide Fold, BuildCondition, AllArgs;
    var c := ConditionOf(e, schema, now, d);
    FoldIsStatic(c, schema, d, 0);
    match FoldedOf(e, schema, now, d) {
      case AlwaysHolds =>
      case NeverHolds =>
        ResolveLeafToken(AlwaysFalse, offset);
        var t: Tree<Placeholder> := TLeaf(AlwaysFalse);
        ReadIsPrintInverse(t, d);
      case Holds(t) =>
        ArgumentPlaces(c, schema, d, 0);
        ResolveTree(t, d, offset, offset);
        FoldedShape(c, schema, d, 0);
        MapShape(t, Marks(Postgres, offset), d);
        ReadIsPrintInverse(MapTree(t, Marks(Postgres, offset)), d);
    }
  }

  /** The filter `field in []`. */
  function InNothing(field: string): Expr { Call("@in", None, [Ident(field), ListExpr([])]) }

  /** `creator_id in []` is read only by SQLite, where it holds of no row and its negation of every row;
      `tag in []` is written as empty parentheses, which no dialect reads. */
  lemma EmptyListsByDialect(now: int, d: Dialect, offset: nat, all: seq<Val>, row: Row, coll: Collation)
    ensures var e := InNothing("creator_id");
            && Compiles(e, MEMO_SCHEMA, now, d)
            && (var read := Reading(StatementOf(e, MEMO_SCHEMA, now, d, offset).sql, offset, all, d);
                && (read.Some? <==> d == SQLite)
                && (read.Some? ==>
                    Eval(read.value, row, d, coll) == False && Eval(TNot(read.value), row, d, coll) == True))
    ensures var e := InNothing("tag");
            && Compiles(e, MEMO_SCHEMA, now, d)
            && Reading(StatementOf(e, MEMO_SCHEMA, now, d, offset).sql, offset, all, d).None?
  {
    hide Compiles, StatementOf, Reading, Eval;
    EmptyScalarList(now, d, offset, all);
    EmptyTagList(now, d, offset, all);
    NothingMeaning(ColumnExpr(MEMO_SCHEMA["creator_id"]), row, d, coll);
  }

  lemma NothingMeaning(x: Operand, row: Row, d: Dialect, coll: Collation)
    ensures var t := TLeaf(InList(x, [])); Eval(t, row, d, coll) == False && Eval(TNot(t), row, d, coll) == True
  {
  }

  lemma EmptyScalarList(now: int, d: Dialect, offset: nat, all: seq<Val>)
    ensures var e := InNothing("creator_id");
            && Compiles(e, MEMO_SCHEMA, now, d)
            && Reading(StatementOf(e, MEMO_SCHEMA, now, d, offset).sql, offset, all, d) ==
               if d == SQLite then Some(TLeaf(InList(ColumnExpr(MEMO_SCHEMA["creator_id"]), []))) else None
  {
    var e, x := InNothing("creator_id"), ColumnExpr(MEMO_SCHEMA["creator_id"]);
    NothingBuilds("creator_id", now);
    NothingFolds(d);
    hide BuildCondition, Fold;
    NothingReads(x, d, offset, all);
  }

  lemma NothingBuilds(field: string, now: int)
    requires field in MEMO_SCHEMA && ResolveAlias(MEMO_SCHEMA, field).Some?
    ensures BuildCondition(InNothing(field), MEMO_SCHEMA, now) == Ok(In(FieldRef(field), []))
  {
    var args := InNothing(field).args;
    assert args[0] == Ident(field) && args[1] == ListExpr([]);
  }

  lemma NothingFolds(d: Dialect)
    ensures var x := ColumnExpr(MEMO_SCHEMA["creator_id"]);
            Fold(In(FieldRef("creator_id"), []), MEMO_SCHEMA, d, 0) == Ok(Holds(TLeaf(InList(x, []))))
  {
    var x := ColumnExpr(MEMO_SCHEMA["creator_id"]);
    var c := In(FieldRef("creator_id"), []);
    assert ScalarInTree(MEMO_SCHEMA["creator_id"], []) == Ok(TLeaf(InList(x, [])));
    assert BasicTree(c, MEMO_SCHEMA, d) == Ok(TLeaf(InList(x, [])));
    assert NumberLeaf(InList(x, []), 0) == InList(x, []);
  }

  lemma NothingReads(x: Operand, d: Dialect, offset: nat, all: seq<Val>)
    ensures Reading(Text(TLeaf(InList(x, [])), d, offset), offset, all, d) ==
            if d == SQLite then Some(TLeaf(InList(x, []))) else None
  {
    var l: Leaf<Placeholder> := InList(x, []);
    var t: Tree<Placeholder> := TLeaf(l);
    var u: Tree<Slot> := TLeaf(InList(x, []));
    assert MapTree(u, Marks(d, offset)) == t;
    ResolveLeafToken(l, offset);
    assert ResolveLeaf(l, offset) == l;
    ReadIsPrintInverse(t, d);
    assert MapTree(t, Look(all)) == TLeaf(InList(x, []));
  }

  lemma EmptyTagList(now: int, d: Dialect, offset: nat, all: seq<Val>)
    ensures var e := InNothing("tag");
            && Compiles(e, MEMO_SCHEMA, now, d)
            && Reading(StatementOf(e, MEMO_SCHEMA, now, d, offset).sql, offset, all, d).None?
  {
    var e := InNothing("tag");
    MemoSchemaIsValid();
    NothingBuilds("tag", now);
    assert TagInTree([], MEMO_SCHEMA, d) == Ok(TOr([]));
    hide BuildCondition;
    ReadableExactlyWhenFilled(e, MEMO_SCHEMA, now, d, offset, all);
  }

  /** In a positional dialect the `?` of a statement are as many as its arguments exactly when no
      argument-bearing subtree was folded away. */
  lemma PositionalCounts(e: Expr, schema: Schema, now: int, d: Dialect, offset: nat)
    requires d != Postgres && Compiles(e, schema, now, d)
    ensures var s := StatementOf(e, schema, now, d, offset);
            Questions(s.sql) <= |s.args|
              && (Questions(s.sql) == |s.args| <==> NothingDropped(ConditionOf(e, schema, now, d), schema, d))
  {
    hide Fold, BuildCondition, AllArgs;
    var c := ConditionOf(e, schema, now, d);
    ArgumentPlaces(c, schema, d, 0);
    match FoldedOf(e, schema, now, d) {
      case AlwaysHolds =>
      case NeverHolds => ResolveLeafToken(AlwaysFalse, 0);
      case Holds(t) => ResolveTree(t, d, offset, 0);
    }
  }

  /** `false && content.contains("x")` becomes `1 = 0` and still carries `%x%`: in SQLite the next `?`
      of the query reads that argument instead of its own. */
  lemma DroppedArgumentShiftsPositions(now: int, column: Column, v: Val)
    ensures var e :=
              Call("_&&_", None,
                [Const(CBool(false)), Call("contains", Some(Ident("content")), [Const(CString("x"))])]);
            && Compiles(e, MEMO_SCHEMA, now, SQLite)
            && StatementOf(e, MEMO_SCHEMA, now, SQLite, 0) == Statement([LeafT(AlwaysFalse)], [VStr("%x%")])
            && (var next: SqlText := [LeafT(Compare(ColumnOp(column, false), Eq, Question))];
                Reading(next, Questions(StatementOf(e, MEMO_SCHEMA, now, SQLite, 0).sql), [VStr("%x%"), v], SQLite) ==
                Some(TLeaf(Compare(ColumnOp(column, false), Eq, VStr("%x%")))))
  {
    var contains := Call("contains", Some(Ident("content")), [Const(CString("x"))]);
    var args := [Const(CBool(false)), contains];
    var e := Call("_&&_", None, args);
    DroppedCondition(now);
    var c := And(Constant(false), Contains("content", "x"));
    DroppedFold();
    hide BuildCondition, Fold, AllArgs;
    assert ConditionOf(e, MEMO_SCHEMA, now, SQLite) == c;
    QuestionReads(Compare(ColumnOp(column, false), Eq, Question), column, v);
    ResolveLeafToken(AlwaysFalse, 0);
  }

  lemma DroppedCondition(now: int)
    ensures BuildCondition(Call("_&&_", None,
              [Const(CBool(false)), Call("contains", Some(Ident("content")), [Const(CString("x"))])]), MEMO_SCHEMA, now)
            == Ok(And(Constant(false), Contains("content", "x")))
  {
    var contains := Call("contains", Some(Ident("content")), [Const(CString("x"))]);
    assert BuildCondition(contains, MEMO_SCHEMA, now) == Ok(Contains("content", "x"));
    assert BuildCondition(Const(CBool(false)), MEMO_SCHEMA, now) == Ok(Constant(false));
    var args := [Const(CBool(false)), contains];
    assert args[0] == Const(CBool(false)) && args[1] == contains;
  }

  lemma DroppedFold()
    ensures var c := And(Constant(false), Contains("content", "x"));
            Fold(c, MEMO_SCHEMA, SQLite, 0) == Ok(NeverHolds) && AllArgs(c, MEMO_SCHEMA, SQLite) == [VStr("%x%")]
  {
    assert "%" + "x" + "%" == "%x%";
    assert ContainsTree("content", "x", MEMO_SCHEMA, SQLite).Ok?;
    assert AllArgs(Contains("content", "x"), MEMO_SCHEMA, SQLite) == [VStr("%x%")];
    assert Fold(Contains("content", "x"), MEMO_SCHEMA, SQLite, 0).Ok?;
  }

  lemma QuestionReads(asked: Leaf<Placeholder>, column: Column, v: Val)
    requires asked == Compare(ColumnOp(column, false), Eq, Question)
    ensures Reading([LeafT(asked)], 0, [VStr("%x%"), v], SQLite) ==
              Some(TLeaf(Compare(ColumnOp(column, false), Eq, VStr("%x%"))))
  {
    ResolveLeafToken(asked, 0);
    var t: Tree<Placeholder> := TLeaf(Compare(ColumnOp(column, false), Eq, Dollar(1)));
    ReadIsPrintInverse(t, SQLite);
  }

  // ----- WHERE clauses

  /** What one piece of a WHERE clause means: a filter, or a condition on columns with its values. */
  datatype Clause = FilterClause(e: Expr) | ColumnClause(leaf: Leaf<Val>)

  function ClauseTruth(c: Clause, schema: Schema, row: Row, now: int, d: Dialect, coll: Collation): Truth
  {
    match c
    case FilterClause(e) => EvalBool(e, schema, row, now, coll, d, NoScope)
    case ColumnClause(l) => EvalLeaf(l, row, d, coll)
  }

  function ClausesTruth(cs: seq<Clause>, schema: Schema, row: Row, now: int, d: Dialect, coll: Collation): Truth
  {
    if cs == [] then True
    else And3(ClauseTruth(cs[0], schema, row, now, d, coll), ClausesTruth(cs[1..], schema, row, now, d, coll))
  }

  lemma {:induction false} ClausesAppend(cs: seq<Clause>, c: Clause, schema: Schema, row: Row, now: int, d: Dialect,
          coll: Collation)
    ensures ClausesTruth(cs + [c], schema, row, now, d, coll) ==
            And3(ClausesTruth(cs, schema, row, now, d, coll), ClauseTruth(c, schema, row, now, d, coll))
  {
    hide ClauseTruth;
    if cs == [] {
      assert (cs + [c])[1..] == [];
    } else {
      assert (cs + [c])[1..] == cs[1..] + [c];
      ClausesAppend(cs[1..], c, schema, row, now, d, coll);
    }
  }

  /** The filter folds to true, and is left out with its arguments, or its placeholders can be bound. */
  ghost predicate Harmless(e: Expr, schema: Schema, now: int, d: Dialect)
  {
    Compiles(e, schema, now, d) ==>
      FoldedOf(e, schema, now, d).AlwaysHolds? || Bindable(ConditionOf(e, schema, now, d), schema, d)
  }

  /** Every compiled filter that is harmless and whose lists are filled. */
  ghost predicate Sound(e: Expr, schema: Schema, now: int, d: Dialect)
  {
    && (Compiles(e, schema, now, d) ==> ListsFilled(ConditionOf(e, schema, now, d), d))
    && Harmless(e, schema, now, d)
  }

  ghost predicate RowSuits(cs: seq<Clause>, schema: Schema, row: Row, now: int, d: Dialect, coll: Collation)
  {
    Fits(row, schema, coll) && forall k :: 0 <= k < |cs| && cs[k].FilterClause? ==>
        Faithful(cs[k].e, schema, row, now, d)
  }

  /** The truth of all trees together. */
  function Conjunction(trees: seq<Tree<Slot>>, row: Row, d: Dialect, coll: Collation): Truth
  {
    if trees == [] then True else And3(TruthOf(Holds(trees[0]), row, d, coll), Conjunction(trees[1..], row, d, coll))
  }

  lemma {:induction false} ConjunctionAppend(trees: seq<Tree<Slot>>, t: Tree<Slot>, row: Row, d: Dialect,
          coll: Collation)
    ensures Conjunction(trees + [t], row, d, coll) ==
              And3(Conjunction(trees, row, d, coll), TruthOf(Holds(t), row, d, coll))
  {
    hide TruthOf;
    if trees == [] {
      assert (trees + [t])[1..] == [];
    } else {
      assert (trees + [t])[1..] == trees[1..] + [t];
      ConjunctionAppend(trees[1..], t, row, d, coll);
    }
  }

  /** Each piece is the text of its tree, bare or in parentheses; the arguments stand at their places,
      and in a positional dialect they are all read, in order. */
  ghost predicate Pieces(pieces: seq<SqlText>, trees: seq<Tree<Slot>>, args: seq<Val>, d: Dialect)
  {
    && |pieces| == |trees| > 0
    && (forall k :: 0 <= k < |trees| ==> WellShaped(trees[k]) && Readable(trees[k], d))
    && (forall k :: 0 <= k < |trees| ==> pieces[k] == Text(trees[k], d, 0) || pieces[k] == Parens(Text(trees[k], d, 0)))
    && InPlace(KidArgs(trees), args, 0)
    && (d != Postgres ==> InOrder(KidArgs(trees), args, 0))
  }

  lemma StartIsValid(pieces: seq<SqlText>, trees: seq<Tree<Slot>>, args: seq<Val>, d: Dialect)
    requires pieces == [[LeafT(AlwaysTrue)]] && trees == [TLeaf(AlwaysTrue)] && args == []
    ensures Pieces(pieces, trees, args, d)
    ensures forall row, coll :: Conjunction(trees, row, d, coll) == True
    ensures Questions(JoinAnd(pieces)) == 0
  {
    ResolveLeafToken(AlwaysTrue, 0);
    assert trees[1..] == [];
    assert KidArgs(trees) == [];
    assert Print(MapTree(trees[0], Marks(d, 0))) == pieces[0];
    forall row, coll ensures Conjunction(trees, row, d, coll) == True {
      assert Conjunction(trees, row, d, coll) ==
               And3(TruthOf(Holds(trees[0]), row, d, coll), Conjunction(trees[1..], row, d, coll));
    }
  }

  lemma {:induction false} KidArgsLast<A>(trees: seq<Tree<A>>, t: Tree<A>)
    ensures KidArgs(trees + [t]) == KidArgs(trees) + TreeArgs(t)
  {
    hide TreeArgs;
    if trees == [] {
      assert (trees + [t])[1..] == [];
    } else {
      assert (trees + [t])[1..] == trees[1..] + [t];
      KidArgsLast(trees[1..], t);
    }
  }

  /** The piece is the text of its tree, bare or in parentheses, with its arguments after `offset` others. */
  ghost predicate IsPiece(piece: SqlText, t: Tree<Slot>, more: seq<Val>, offset: nat, d: Dialect)
  {
    && (piece == Text(t, d, 0) || piece == Parens(Text(t, d, 0)))
    && WellShaped(t) && Readable(t, d)
    && InPlace(TreeArgs(t), more, offset)
    && (d != Postgres ==> InOrder(TreeArgs(t), more, offset))
  }

  /** One more piece, with its arguments appended. */
  lemma OneMorePiece(pieces: seq<SqlText>, trees: seq<Tree<Slot>>, args: seq<Val>, d: Dialect, piece: SqlText,
          t: Tree<Slot>, more: seq<Val>)
    requires Pieces(pieces, trees, args, d) && IsPiece(piece, t, more, |args|, d)
    ensures Pieces(pieces + [piece], trees + [t], args + more, d)
  {
    hide WellShaped, Readable, Text, TreeArgs, KidArgs;
    KidArgsLast(trees, t);
    PlacesAppend(KidArgs(trees), args, TreeArgs(t), more);
    hide InPlace, InOrder;
  }

  lemma PlacesAppend(kept: seq<Slot>, args: seq<Val>, moreKept: seq<Slot>, more: seq<Val>)
    ensures InPlace(kept, args, 0) && InPlace(moreKept, more, |args|) ==> InPlace(kept + moreKept, args + more, 0)
    ensures InOrder(kept, args, 0) && InOrder(moreKept, more, |args|) ==> InOrder(kept + moreKept, args + more, 0)
  {
    if InPlace(kept, args, 0) && InPlace(moreKept, more, |args|) { InPlaceAppend(kept, args, moreKept, more); }
    if InOrder(kept, args, 0) && InOrder(moreKept, more, |args|) { InOrderAppend(kept, args, moreKept, more); }
  }

  lemma InPlaceAppend(kept: seq<Slot>, args: seq<Val>, moreKept: seq<Slot>, more: seq<Val>)
    requires InPlace(kept, args, 0) && InPlace(moreKept, more, |args|)
    ensures InPlace(kept + moreKept, args + more, 0)
  {
    var all := kept + moreKept;
    forall i | 0 <= i < |all| ensures 0 <= all[i].index < |args + more| && (args + more)[all[i].index] == all[i].value {
      if i < |kept| {
        assert all[i] == kept[i];
      } else {
        assert all[i] == moreKept[i - |kept|];
      }
    }
  }

  lemma InOrderAppend(kept: seq<Slot>, args: seq<Val>, moreKept: seq<Slot>, more: seq<Val>)
    requires InOrder(kept, args, 0) && InOrder(moreKept, more, |args|)
    ensures InOrder(kept + moreKept, args + more, 0)
  {
    var all := kept + moreKept;
    forall i | 0 <= i < |all| ensures all[i] == Slot((args + more)[i], 0 + i) {
      if i < |kept| {
        assert all[i] == kept[i];
      } else {
        assert all[i] == moreKept[i - |kept|];
      }
    }
  }

  function Moved(offset: nat): Slot -> Slot { (s: Slot) => Slot(s.value, s.index + offset) }

  lemma {:induction false} MappedArgs<A, B>(t: Tree<A>, f: A -> B)
    ensures |TreeArgs(MapTree(t, f))| == |TreeArgs(t)|
    ensures forall i :: 0 <= i < |TreeArgs(t)| ==> TreeArgs(MapTree(t, f))[i] == f(TreeArgs(t)[i])
    decreases t, 1
  {
    match t {
      case TLeaf(l) =>
      case TAnd(kids) => MappedKidArgs(t, kids, f);
      case TOr(kids) => MappedKidArgs(t, kids, f);
      case TNot(kid) => MappedArgs(kid, f);
    }
  }

  lemma {:induction false} MappedKidArgs<A, B>(context: Tree<A>, kids: seq<Tree<A>>, f: A -> B)
    requires forall k :: 0 <= k < |kids| ==> kids[k] < context
    ensures |KidArgs(MapKids(kids, f))| == |KidArgs(kids)|
    ensures forall i :: 0 <= i < |KidArgs(kids)| ==> KidArgs(MapKids(kids, f))[i] == f(KidArgs(kids)[i])
    decreases context, 0, |kids|
  {
    hide TreeArgs, MapTree;
    if kids != [] {
      MappedArgs(kids[0], f);
      MappedKidArgs(context, kids[1..], f);
      assert MapKids(kids, f)[1..] == MapKids(kids[1..], f);
    }
  }

  /** A statement rendered after `offset` arguments is the text of its tree with the arguments moved
      there. */
  lemma MovedText(t: Tree<Slot>, d: Dialect, offset: nat, all: seq<Val>)
    ensures var u := MapTree(t, Moved(offset));
            && Text(u, d, 0) == Text(t, d, offset)
            && (WellShaped(u) <==> WellShaped(t)) && (Readable(u, d) <==> Readable(t, d))
            && (InPlace(TreeArgs(t), all, 0) ==> InPlace(TreeArgs(u), all, offset))
            && (InOrder(TreeArgs(t), all, 0) ==> InOrder(TreeArgs(u), all, offset))
  {
    hide WellShaped, Readable, Print, TreeArgs, MapTree, InPlace, InOrder;
    MovedMarks(t, d, offset);
    MapShape(t, Moved(offset), d);
    MappedArgs(t, Moved(offset));
    MovedPlaces(TreeArgs(t), TreeArgs(MapTree(t, Moved(offset))), all, offset);
  }

  lemma MovedTruth(t: Tree<Slot>, offset: nat, row: Row, d: Dialect, coll: Collation)
    ensures TruthOf(Holds(MapTree(t, Moved(offset))), row, d, coll) == TruthOf(Holds(t), row, d, coll)
  {
    hide Eval, TreeArgs, MapTree;
    MapCompose(t, Moved(offset), ValueOf, ValueOf);
  }

  lemma MovedMarks(t: Tree<Slot>, d: Dialect, offset: nat)
    ensures MapTree(MapTree(t, Moved(offset)), Marks(d, 0)) == MapTree(t, Marks(d, offset))
  {
    hide TreeArgs, MapTree;
    MapCompose(t, Moved(offset), Marks(d, 0), Marks(d, offset));
  }

  lemma MovedPlaces(a: seq<Slot>, b: seq<Slot>, all: seq<Val>, offset: nat)
    requires |a| == |b| && forall i :: 0 <= i < |a| ==> b[i] == Moved(offset)(a[i])
    ensures InPlace(a, all, 0) ==> InPlace(b, all, offset)
    ensures InOrder(a, all, 0) ==> InOrder(b, all, offset)
  {
  }

  // ----- Reading the whole clause

  /** The pieces with every `?` resolved. */
  function Numbered(pieces: seq<SqlText>, k: nat): seq<SqlText>
  {
    if pieces == [] then [] else [Resolve(pieces[0], k)] + Numbered(pieces[1..], k + Questions(pieces[0]))
  }

  lemma {:induction false} ResolveJoined(pieces: seq<SqlText>, k: nat)
    ensures |Numbered(pieces, k)| == |pieces|
    ensures Resolve(JoinAnd(pieces), k) == JoinAnd(Numbered(pieces, k))
  {
    hide Resolve, Questions;
    if pieces == [] {
      ResolveNone([], k);
    } else if |pieces| > 1 {
      JoinResolved(pieces[0], AndT, JoinAnd(pieces[1..]), k);
      ResolveJoined(pieces[1..], k + Questions(pieces[0]));
      assert Numbered(pieces, k)[1..] == Numbered(pieces[1..], k + Questions(pieces[0]));
    }
  }

  /** Resolved, each piece stands for its tree with numbered placeholders. */
  lemma {:induction false} NumberedStand(pieces: seq<SqlText>, trees: seq<Tree<Slot>>, d: Dialect, k: nat)
    requires |pieces| == |trees|
    requires forall i :: 0 <= i < |trees| ==> WellShaped(trees[i]) && Readable(trees[i], d)
    requires forall i :: 0 <= i < |trees| ==>
               pieces[i] == Text(trees[i], d, 0) || pieces[i] == Parens(Text(trees[i], d, 0))
    requires Ready(KidArgs(trees), d, 0, k)
    ensures |Numbered(pieces, k)| == |trees|
    ensures forall i :: 0 <= i < |trees| ==> StandsFor(Numbered(pieces, k)[i], MapTree(trees[i], Marks(Postgres, 0)), d)
    decreases |trees|
  {
    hide Resolve, Questions, WellShaped, Readable, StandsFor, Print, MapTree, TreeArgs;
    if trees != [] {
      var a, b := TreeArgs(trees[0]), KidArgs(trees[1..]);
      FollowsBoth(a, b, 0, k);
      ResolveTree(trees[0], d, 0, k);
      var text := Text(trees[0], d, 0);
      ResolveBetween([LParen], text, [RParen], k);
      assert Parens(text) == [LParen] + text + [RParen];
      MapShape(trees[0], Marks(Postgres, 0), d);
      ParensStandFor(MapTree(trees[0], Marks(Postgres, 0)), d);
      NumberedStand(pieces[1..], trees[1..], d, k + Questions(pieces[0]));
      assert Numbered(pieces, k)[1..] == Numbered(pieces[1..], k + Questions(pieces[0]));
      forall i | 0 < i < |trees| ensures StandsFor(Numbered(pieces, k)[i], MapTree(trees[i], Marks(Postgres, 0)), d) {
        assert Numbered(pieces, k)[i] == Numbered(pieces, k)[1..][i - 1] && trees[i] == trees[1..][i - 1];
      }
    }
  }

  lemma {:induction false} LookUpAll(trees: seq<Tree<Slot>>, args: seq<Val>)
    requires InPlace(KidArgs(trees), args, 0)
    ensures MapKids(MapKids(trees, Marks(Postgres, 0)), Look(args)) == MapKids(trees, ValueOf)
  {
    hide MapTree, TreeArgs;
    if trees != [] {
      var a, b := TreeArgs(trees[0]), KidArgs(trees[1..]);
      forall s | s in a ensures Look(args)(Marks(Postgres, 0)(s)) == ValueOf(s) {
        var i :| 0 <= i < |a| && a[i] == s;
        assert (a + b)[i] == s;
      }
      MapCompose(trees[0], Marks(Postgres, 0), Look(args), ValueOf);
      assert forall i :: 0 <= i < |b| ==> (a + b)[|a| + i] == b[i];
      LookUpAll(trees[1..], args);
      assert MapKids(trees, Marks(Postgres, 0))[1..] == MapKids(trees[1..], Marks(Postgres, 0));
    }
  }

  lemma {:induction false} ConjunctionIsEval(trees: seq<Tree<Slot>>, row: Row, d: Dialect, coll: Collation)
    ensures And3All(EvalAll(MapKids(trees, ValueOf), row, d, coll)) == Conjunction(trees, row, d, coll)
  {
    hide Eval, MapTree;
    if trees != [] { ConjunctionIsEval(trees[1..], row, d, coll); }
  }

  /** A joined WHERE clause, read with the collected arguments, has the truth of its trees together. */
  lemma WhereReads(pieces: seq<SqlText>, trees: seq<Tree<Slot>>, args: seq<Val>, d: Dialect, row: Row, coll: Collation)
    requires Pieces(pieces, trees, args, d)
    ensures Reading(JoinAnd(pieces), 0, args, d).Some?
    ensures Eval(Reading(JoinAnd(pieces), 0, args, d).value, row, d, coll) == Conjunction(trees, row, d, coll)
  {
    hide WellShaped, Readable, Text, Resolve, StandsFor, MapTree, TreeArgs;
    var marked := MapKids(trees, Marks(Postgres, 0));
    ResolveJoined(pieces, 0);
    NumberedStand(pieces, trees, d, 0);
    ReadJoined(Numbered(pieces, 0), marked, d);
    LookUpAll(trees, args);
    ConjunctionIsEval(trees, row, d, coll);
    ReadWhole(marked, args, row, d, coll);
  }

  lemma ReadWhole(marked: seq<Tree<Placeholder>>, args: seq<Val>, row: Row, d: Dialect, coll: Collation)
    requires marked != []
    ensures var t := if |marked| == 1 then marked[0] else TAnd(marked);
            Eval(MapTree(t, Look(args)), row, d, coll) == And3All(EvalAll(MapKids(marked, Look(args)), row, d, coll))
  {
    if |marked| == 1 {
      var kids := MapKids(marked, Look(args));
      assert kids == [MapTree(marked[0], Look(args))];
      var ts := EvalAll(kids, row, d, coll);
      assert ts[1..] == [];
    }
  }

  // ----- Counting marks and arguments

  lemma {:induction false} JoinedCount(pieces: seq<SqlText>, piece: SqlText)
    requires pieces != []
    ensures Questions(JoinAnd(pieces + [piece])) == Questions(JoinAnd(pieces)) + Questions(piece)
  {
    hide Questions;
    var all := pieces + [piece];
    var rest := pieces[1..] + [piece];
    assert all[1..] == rest;
    ResolveNone([AndT], 0);
    ResolveThree(pieces[0], [AndT], JoinAnd(rest), 0);
    if |pieces| == 1 {
      assert rest == [piece];
    } else {
      JoinedCount(pieces[1..], piece);
      ResolveThree(pieces[0], [AndT], JoinAnd(pieces[1..]), 0);
    }
  }

  /** A filter in parentheses adds as many marks as arguments exactly when nothing was dropped. */
  lemma FilterCount(e: Expr, schema: Schema, now: int, d: Dialect, offset: nat)
    requires d != Postgres && Compiles(e, schema, now, d) && StatementOf(e, schema, now, d, offset).sql != []
    ensures var s := StatementOf(e, schema, now, d, offset);
            && Questions(Parens(s.sql)) <= |s.args|
            && (Questions(Parens(s.sql)) == |s.args| <==> Harmless(e, schema, now, d))
  {
    hide Compiles, Questions, Fold, NothingDropped;
    var s := StatementOf(e, schema, now, d, offset);
    PositionalCounts(e, schema, now, d, offset);
    ParensCount(s.sql);
  }

  lemma ParensCount(sql: SqlText)
    ensures Questions(Parens(sql)) == Questions(sql)
  {
    ResolveBetween([LParen], sql, [RParen], 0);
  }

  // ----- Building the clause

  /** What memos are looked for: filters, and conditions on columns. */
  datatype FindMemo = FindMemo(filters: seq<Expr>,
                               id: Option<int>, idList: seq<int>, uid: Option<string>, uidList: seq<string>,
                               creatorID: Option<int>, rowStatus: Option<string>, visibilityList: seq<string>,
                               excludeComments: bool)

  const MEMO := "memo"

  function MemoColumn(name: string): Operand { ColumnOp(Column(MEMO, name), false) }

  function Ints(xs: seq<int>): seq<Val> { seq(|xs|, k requires 0 <= k < |xs| => VInt(xs[k])) }

  function Strs(xs: seq<string>): seq<Val> { seq(|xs|, k requires 0 <= k < |xs| => VStr(xs[k])) }

  function EqualClause(x: Operand, v: Option<Val>): seq<Clause>
  {
    match v case Some(value) => [ColumnClause(Compare(x, Eq, value))] case None => []
  }

  function ListClause(x: Operand, vs: seq<Val>): seq<Clause>
  {
    if vs == [] then [] else [ColumnClause(InList(x, vs))]
  }

  function IntOf(v: Option<int>): Option<Val> { match v case Some(i) => Some(VInt(i)) case None => None }

  function StrOf(v: Option<string>): Option<Val> { match v case Some(s) => Some(VStr(s)) case None => None }

  function FilterClauses(filters: seq<Expr>): seq<Clause>
  {
    seq(|filters|, k requires 0 <= k < |filters| => FilterClause(filters[k]))
  }

  /** The column that tells a comment from a memo. */
  function CommentColumn(d: Dialect): Operand
  {
    if d == Postgres then ColumnOp(Column("memo_relation", "related_memo_id"), false)
      else ColumnOp(Column("", "parent_uid"), false)
  }

  /** What a query for memos asks of the columns, after `before`. */
  function WantedColumns(before: seq<Clause>, find: FindMemo, d: Dialect): seq<Clause>
  {
    before
    + EqualClause(MemoColumn("id"), IntOf(find.id))
    + ListClause(MemoColumn("id"), Ints(find.idList))
    + EqualClause(MemoColumn("uid"), StrOf(find.uid))
    + ListClause(MemoColumn("uid"), Strs(find.uidList))
    + EqualClause(MemoColumn("creator_id"), IntOf(find.creatorID))
    + EqualClause(MemoColumn("row_status"), StrOf(find.rowStatus))
    + ListClause(MemoColumn("visibility"), Strs(find.visibilityList))
    + (if find.excludeComments then [ColumnClause(IsNull(CommentColumn(d)))] else [])
  }

  /** Everything a query for memos asks for. */
  function Wanted(find: FindMemo, d: Dialect): seq<Clause>
  {
    WantedColumns(FilterClauses(find.filters), find, d)
  }

  /** The WHERE pieces and arguments of a query under construction. `trees` holds, for each piece, the
      tree it was printed from, with every argument at its place in `args`; `clauses` what was asked. */
  class QueryBuilder {
    const schema: Schema
    const now: int
    const dialect: Dialect
    var pieces: seq<SqlText>
    var args: seq<Val>
    ghost var trees: seq<Tree<Slot>>
    ghost var clauses: seq<Clause>

    constructor (schema: Schema, now: int, d: Dialect)
      ensures this.schema == schema && this.now == now && dialect == d
      ensures Valid() && clauses == [] && Surplus() == 0
    {
      this.schema, this.now, dialect := schema, now, d;
      pieces, args := [[LeafT(AlwaysTrue)]], [];
      trees, clauses := [TLeaf(AlwaysTrue)], [];
      new;
      hide Pieces, Questions, JoinAnd, Conjunction;
      StartIsValid(pieces, trees, args, dialect);
    }

    /** The pieces can be read, and mean what was asked. */
    ghost predicate Valid()
      reads this
    {
      Pieces(pieces, trees, args, dialect) && Means(clauses, trees, schema, now, dialect)
    }

    /** How many more arguments than `?` there are. */
    ghost function Surplus(): int
      reads this
    {
      |args| - Questions(JoinAnd(pieces))
    }

    /** A piece with its arguments, for a clause. */
    ghost method Record(t: Tree<Slot>, c: Clause, more: seq<Val>, wasPieces: seq<SqlText>, wasArgs: seq<Val>,
            piece: SqlText)
      requires pieces == wasPieces + [piece] && args == wasArgs + more
      modifies this`trees, this`clauses
      ensures clauses == old(clauses) + [c]
      ensures Pieces(wasPieces, old(trees), wasArgs, dialect) && IsPiece(piece, t, more, |wasArgs|, dialect) ==>
                Pieces(pieces, trees, args, dialect)
      ensures Means(old(clauses), old(trees), schema, now, dialect) && MeansClause(c, t, schema, now, dialect) ==>
                Means(clauses, trees, schema, now, dialect)
    {
      hide Pieces, Means, MeansClause, IsPiece;
      if Pieces(wasPieces, trees, wasArgs, dialect) && IsPiece(piece, t, more, |wasArgs|, dialect) {
        OneMorePiece(wasPieces, trees, wasArgs, dialect, piece, t, more);
      }
      if Means(clauses, trees, schema, now, dialect) && MeansClause(c, t, schema, now, dialect) {
        MeansMore(clauses, trees, c, t, schema, now, dialect);
      }
      trees, clauses := trees + [t], clauses + [c];
    }

    /** One filter: nothing is added when it folds to true. The clause stays right when the filter is
        sound; in a positional dialect the arguments stay as many as the marks exactly when it is harmless. */
    method AppendFilter(e: Expr) returns (err: Option<CompileError>)
      requires pieces != []
      modifies this
      ensures pieces != [] && (old(Valid()) && Sound(e, schema, now, dialect) ==> Valid())
      ensures err.None? <==> Compiles(e, schema, now, dialect)
      ensures clauses == if err.None? then old(clauses) + [FilterClause(e)] else old(clauses)
      ensures dialect != Postgres && err.None? ==>
                Surplus() >= old(Surplus()) && (Surplus() == old(Surplus()) <==> Harmless(e, schema, now, dialect))
    {
      hide Pieces, Means, Compiles, Harmless, MeansClause, IsPiece, Questions, JoinAnd;
      var stmt := CompileToStatement(e, schema, now, dialect, |args|);
      if stmt.Err? { return Some(stmt.error); }
      if stmt.value.sql == [] {
        EmptyIsHarmless(e, schema, now, dialect, |args|);
        if Valid() && Sound(e, schema, now, dialect) {
          TrivialMeans(e, schema, now, dialect, |args|);
          MeansTrue(clauses, trees, FilterClause(e), schema, now, dialect);
        }
        clauses := clauses + [FilterClause(e)];
        return None;
      }
      ghost var wasPieces, wasArgs := pieces, args;
      var piece := Parens(stmt.value.sql);
      pieces := pieces + [piece];
      args := args + stmt.value.args;
      ghost var t := FilterTree(e, schema, now, dialect, |wasArgs|);
      if Sound(e, schema, now, dialect) {
        FilterPiece(e, schema, now, dialect, |wasArgs|);
        FilterMeans(e, schema, now, dialect, |wasArgs|);
      }
      Record(t, FilterClause(e), stmt.value.args, wasPieces, wasArgs, piece);
      JoinedCount(wasPieces, piece);
      if dialect != Postgres { FilterCount(e, schema, now, dialect, |wasArgs|); }
      return None;
    }

    /** All filters, up to the first that does not compile. */
    method AppendConditions(filters: seq<Expr>) returns (err: Option<CompileError>)
      requires pieces != []
      modifies this
      ensures pieces != []
      ensures old(Valid()) && (forall k :: 0 <= k < |filters| ==> Sound(filters[k], schema, now, dialect)) ==> Valid()
      ensures err.None? <==> forall k :: 0 <= k < |filters| ==> Compiles(filters[k], schema, now, dialect)
      ensures err.None? ==> clauses == old(clauses) + FilterClauses(filters)
      ensures dialect != Postgres && err.None? ==>
                && Surplus() >= old(Surplus())
                && (Surplus() == old(Surplus()) <==>
                    forall k :: 0 <= k < |filters| ==> Harmless(filters[k], schema, now, dialect))
    {
      hide Pieces, Means, Compiles, Harmless, Sound, Questions, JoinAnd;
      for i := 0 to |filters|
        invariant pieces != []
        invariant old(Valid()) && (forall k :: 0 <= k < i ==> Sound(filters[k], schema, now, dialect)) ==> Valid()
        invariant forall k :: 0 <= k < i ==> Compiles(filters[k], schema, now, dialect)
        invariant clauses == old(clauses) + FilterClauses(filters[..i])
        invariant dialect != Postgres ==>
                    && Surplus() >= old(Surplus())
                    && (Surplus() == old(Surplus()) <==>
                        forall k :: 0 <= k < i ==> Harmless(filters[k], schema, now, dialect))
      {
        var e := AppendFilter(filters[i]);
        if e.Some? { return e; }
        assert FilterClauses(filters[..i + 1]) == FilterClauses(filters[..i]) + [FilterClause(filters[i])];
      }
      assert filters[..|filters|] == filters;
      return None;
    }

    method AppendEqual(x: Operand, v: Option<Val>)
      requires pieces != []
      modifies this
      ensures pieces != [] && (old(Valid()) ==> Valid())
      ensures clauses == old(clauses) + EqualClause(x, v)
      ensures dialect != Postgres ==> Surplus() == old(Surplus())
    {
      hide Pieces, Means, MeansClause, IsPiece, Questions, JoinAnd;
      if v.None? { return; }
      ghost var wasPieces, wasArgs := pieces, args;
      var piece: SqlText := [LeafT(Compare(x, Eq, Mark(dialect, 0, |args|)))];
      pieces, args := pieces + [piece], args + [v.value];
      LeafPiece(Compare(x, Eq, v.value), dialect, |wasArgs|);
      LeafMeans(Compare(x, Eq, v.value), schema, now, dialect, |wasArgs|);
      Record(TLeaf(Compare(x, Eq, Slot(v.value, |wasArgs|))), ColumnClause(Compare(x, Eq, v.value)), [v.value],
          wasPieces, wasArgs, piece);
      JoinedCount(wasPieces, piece);
    }

    method AppendList(x: Operand, vs: seq<Val>)
      requires pieces != []
      modifies this
      ensures pieces != [] && (old(Valid()) ==> Valid())
      ensures clauses == old(clauses) + ListClause(x, vs)
      ensures dialect != Postgres ==> Surplus() == old(Surplus())
    {
      hide Pieces, Means, MeansClause, IsPiece, Questions, JoinAnd;
      if vs == [] { return; }
      ghost var wasPieces, wasArgs := pieces, args;
      var holders: seq<Placeholder> := [];
      for i := 0 to |vs|
        invariant args == wasArgs + vs[..i]
        invariant |holders| == i && forall k :: 0 <= k < i ==> holders[k] == Mark(dialect, 0, |wasArgs| + k)
        invariant pieces == wasPieces && trees == old(trees) && clauses == old(clauses)
      {
        holders := holders + [Mark(dialect, 0, |args|)];
        args := args + [vs[i]];
      }
      assert vs[..|vs|] == vs;
      var piece: SqlText := [LeafT(InList(x, holders))];
      pieces := pieces + [piece];
      LeafPiece(InList(x, vs), dialect, |wasArgs|);
      LeafMeans(InList(x, vs), schema, now, dialect, |wasArgs|);
      ListText(x, vs, holders, |wasArgs|, dialect, 0);
      Record(TLeaf(NumberLeaf(InList(x, vs), |wasArgs|)), ColumnClause(InList(x, vs)), vs, wasPieces, wasArgs, piece);
      JoinedCount(wasPieces, piece);
    }

    method AppendNull(x: Operand)
      requires pieces != []
      modifies this
      ensures pieces != [] && (old(Valid()) ==> Valid())
      ensures clauses == old(clauses) + [ColumnClause(IsNull(x))]
      ensures dialect != Postgres ==> Surplus() == old(Surplus())
    {
      hide Pieces, Means, MeansClause, IsPiece, Questions, JoinAnd;
      ghost var wasPieces := pieces;
      var piece: SqlText := [LeafT(IsNull(x))];
      pieces := pieces + [piece];
      LeafPiece(IsNull(x), dialect, |args|);
      LeafMeans(IsNull(x), schema, now, dialect, |args|);
      assert args == args + [];
      Record(TLeaf(IsNull(x)), ColumnClause(IsNull(x)), [], wasPieces, args, piece);
      JoinedCount(wasPieces, piece);
    }

    /** The WHERE clause of a query for memos. In a positional dialect its marks and arguments agree in
        number exactly when every filter is harmless. */
    method ListMemos(find: FindMemo) returns (err: Option<CompileError>)
      requires pieces != [] && clauses == []
      modifies this
      ensures old(Valid()) && (forall k :: 0 <= k < |find.filters| ==> Sound(find.filters[k], schema, now, dialect)) ==>
                Valid()
      ensures err.None? <==> forall k :: 0 <= k < |find.filters| ==> Compiles(find.filters[k], schema, now, dialect)
      ensures err.None? ==> clauses == Wanted(find, dialect)
      ensures dialect != Postgres && err.None? && old(Surplus()) == 0 ==>
                (Questions(JoinAnd(pieces)) == |args| <==>
                 forall k :: 0 <= k < |find.filters| ==> Harmless(find.filters[k], schema, now, dialect))
    {
      hide Pieces, Means, Sound, Compiles, Harmless, WantedColumns, Questions, JoinAnd;
      err := AppendConditions(find.filters);
      if err.Some? { return; }
      assert [] + FilterClauses(find.filters) == FilterClauses(find.filters);
      AppendColumns(find);
    }

    method AppendColumns(find: FindMemo)
      requires pieces != []
      modifies this
      ensures pieces != [] && (old(Valid()) ==> Valid())
      ensures clauses == WantedColumns(old(clauses), find, dialect)
      ensures dialect != Postgres ==> Surplus() == old(Surplus())
    {
      hide Pieces, Means, EqualClause, ListClause, MemoColumn, IntOf, StrOf, Ints, Strs, CommentColumn, Questions,
           JoinAnd;
      AppendEqual(MemoColumn("id"), IntOf(find.id));
      AppendList(MemoColumn("id"), Ints(find.idList));
      AppendEqual(MemoColumn("uid"), StrOf(find.uid));
      AppendList(MemoColumn("uid"), Strs(find.uidList));
      AppendEqual(MemoColumn("creator_id"), IntOf(find.creatorID));
      AppendEqual(MemoColumn("row_status"), StrOf(find.rowStatus));
      AppendList(MemoColumn("visibility"), Strs(find.visibilityList));
      if find.excludeComments {
        AppendNull(CommentColumn(dialect));
      }
    }
  }

  /** The trees together have the truth of the clauses together, on every row they suit. */
  ghost predicate Means(cs: seq<Clause>, trees: seq<Tree<Slot>>, schema: Schema, now: int, d: Dialect)
  {
    forall row, coll :: RowSuits(cs, schema, row, now, d, coll) ==>
      Conjunction(trees, row, d, coll) == ClausesTruth(cs, schema, row, now, d, coll)
  }

  ghost predicate MeansClause(c: Clause, t: Tree<Slot>, schema: Schema, now: int, d: Dialect)
  {
    forall row, coll :: RowSuits([c], schema, row, now, d, coll) ==>
      TruthOf(Holds(t), row, d, coll) == ClauseTruth(c, schema, row, now, d, coll)
  }

  lemma SuitsBoth(cs: seq<Clause>, c: Clause, schema: Schema, row: Row, now: int, d: Dialect, coll: Collation)
    requires RowSuits(cs + [c], schema, row, now, d, coll)
    ensures RowSuits(cs, schema, row, now, d, coll) && RowSuits([c], schema, row, now, d, coll)
  {
    hide Faithful, Fits;
    assert (cs + [c])[|cs|] == c;
    assert forall k :: 0 <= k < |cs| ==> (cs + [c])[k] == cs[k];
  }

  lemma MeansMore(cs: seq<Clause>, trees: seq<Tree<Slot>>, c: Clause, t: Tree<Slot>, schema: Schema, now: int,
          d: Dialect)
    requires Means(cs, trees, schema, now, d) && MeansClause(c, t, schema, now, d)
    ensures Means(cs + [c], trees + [t], schema, now, d)
  {
    hide RowSuits, TruthOf, ClauseTruth, Conjunction, ClausesTruth;
    forall row, coll | RowSuits(cs + [c], schema, row, now, d, coll)
      ensures Conjunction(trees + [t], row, d, coll) == ClausesTruth(cs + [c], schema, row, now, d, coll)
    {
      SuitsBoth(cs, c, schema, row, now, d, coll);
      ConjunctionAppend(trees, t, row, d, coll);
      ClausesAppend(cs, c, schema, row, now, d, coll);
    }
  }

  lemma MeansTrue(cs: seq<Clause>, trees: seq<Tree<Slot>>, c: Clause, schema: Schema, now: int, d: Dialect)
    requires Means(cs, trees, schema, now, d)
    requires forall row, coll :: RowSuits([c], schema, row, now, d, coll) ==>
               ClauseTruth(c, schema, row, now, d, coll) == True
    ensures Means(cs + [c], trees, schema, now, d)
  {
    hide RowSuits, ClauseTruth, Conjunction, ClausesTruth;
    forall row, coll | RowSuits(cs + [c], schema, row, now, d, coll)
      ensures Conjunction(trees, row, d, coll) == ClausesTruth(cs + [c], schema, row, now, d, coll)
    {
      SuitsBoth(cs, c, schema, row, now, d, coll);
      ClausesAppend(cs, c, schema, row, now, d, coll);
    }
  }

  lemma EmptyIsHarmless(e: Expr, schema: Schema, now: int, d: Dialect, offset: nat)
    requires Compiles(e, schema, now, d) && StatementOf(e, schema, now, d, offset).sql == []
    ensures Harmless(e, schema, now, d)
  {
    hide Compiles, Fold, Text;
    if FoldedOf(e, schema, now, d).Holds? { TextNotEmpty(FoldedOf(e, schema, now, d).tree, d, offset); }
  }

  lemma TrivialMeans(e: Expr, schema: Schema, now: int, d: Dialect, offset: nat)
    requires Compiles(e, schema, now, d) && Sound(e, schema, now, d) && StatementOf(e, schema, now, d, offset).sql == []
    ensures forall row, coll :: RowSuits([FilterClause(e)], schema, row, now, d, coll) ==>
              ClauseTruth(FilterClause(e), schema, row, now, d, coll) == True
  {
    hide Fold, BuildCondition, AllArgs, EvalBool, Faithful, Fits;
    forall row, coll | RowSuits([FilterClause(e)], schema, row, now, d, coll)
      ensures EvalBool(e, schema, row, now, coll, d, NoScope) == True {
      assert [FilterClause(e)][0].FilterClause?;
      FilterKeepsMeaning(e, schema, row, now, d, coll, 0);
      if FoldedOf(e, schema, now, d).Holds? { TextNotEmpty(FoldedOf(e, schema, now, d).tree, d, offset); }
    }
  }

  /** The tree of a filter that is not folded to true, with its arguments placed after `offset` others. */
  ghost function FilterTree(e: Expr, schema: Schema, now: int, d: Dialect, offset: nat): Tree<Slot>
    requires Compiles(e, schema, now, d)
  {
    match FoldedOf(e, schema, now, d)
    case Holds(t) => MapTree(t, Moved(offset))
    case _ => TLeaf(AlwaysFalse)
  }

  lemma FilterPiece(e: Expr, schema: Schema, now: int, d: Dialect, offset: nat)
    requires Compiles(e, schema, now, d) && Sound(e, schema, now, d) && StatementOf(e, schema, now, d, offset).sql != []
    ensures var t, s := FilterTree(e, schema, now, d, offset), StatementOf(e, schema, now, d, offset);
            IsPiece(Parens(s.sql), t, s.args, offset, d)
  {
    hide Fold, BuildCondition, AllArgs, Text, WellShaped, Readable, TreeArgs, MapTree, InPlace, InOrder, ListsFilled;
    var c := ConditionOf(e, schema, now, d);
    FoldIsStatic(c, schema, d, 0);
    match FoldedOf(e, schema, now, d) {
      case AlwaysHolds =>
      case Holds(u) =>
        ArgumentPlaces(c, schema, d, 0);
        FoldedShape(c, schema, d, 0);
        MovedText(u, d, offset, ArgsOf(e, schema, now, d));
      case NeverHolds =>
        NeverText(d);
        NothingPlaced(ArgsOf(e, schema, now, d), offset);
    }
  }

  lemma NothingPlaced(args: seq<Val>, offset: nat)
    ensures InPlace([], args, offset) && (args == [] ==> InOrder([], args, offset))
  {
  }

  lemma FilterMeans(e: Expr, schema: Schema, now: int, d: Dialect, offset: nat)
    requires Compiles(e, schema, now, d) && Sound(e, schema, now, d) && StatementOf(e, schema, now, d, offset).sql != []
    ensures MeansClause(FilterClause(e), FilterTree(e, schema, now, d, offset), schema, now, d)
  {
    hide Fold, BuildCondition, AllArgs, EvalBool, Faithful, Fits, Text, Eval, MapTree, ListsFilled, NothingDropped;
    var t := FilterTree(e, schema, now, d, offset);
    var f := FoldedOf(e, schema, now, d);
    forall row, coll | RowSuits([FilterClause(e)], schema, row, now, d, coll)
      ensures TruthOf(Holds(t), row, d, coll) == ClauseTruth(FilterClause(e), schema, row, now, d, coll)
    {
      assert [FilterClause(e)][0].FilterClause?;
      FilterKeepsMeaning(e, schema, row, now, d, coll, 0);
      if f.Holds? { MovedTruth(f.tree, offset, row, d, coll); } else { NeverTruth(row, d, coll); }
    }
  }

  lemma NeverText(d: Dialect)
    ensures Text(TLeaf(AlwaysFalse), d, 0) == [LeafT(AlwaysFalse)]
    ensures WellShaped<Slot>(TLeaf(AlwaysFalse)) && Readable<Slot>(TLeaf(AlwaysFalse), d)
            && TreeArgs<Slot>(TLeaf(AlwaysFalse)) == []
  {
  }

  lemma NeverTruth(row: Row, d: Dialect, coll: Collation)
    ensures TruthOf(Holds(TLeaf(AlwaysFalse)), row, d, coll) == False == TruthOf(NeverHolds, row, d, coll)
  {
  }

  lemma LeafPiece(l: Leaf<Val>, d: Dialect, offset: nat)
    requires l.InList? ==> l.args != []
    ensures var t, piece := TLeaf(NumberLeaf(l, offset)), [LeafT(MapLeaf(NumberLeaf(l, offset), Marks(d, 0)))];
            && IsPiece(piece, t, LeafArgs(l), offset, d)
            && (d != Postgres ==> Questions(piece) == |LeafArgs(l)|)
  {
    var t := TLeaf(NumberLeaf(l, offset));
    NumberedArgs(TLeaf(l), offset);
    assert Number(TLeaf(l), offset) == t && TreeArgs(TLeaf(l)) == LeafArgs(l);
    LeafCount(l, d, offset);
    hide LeafArgs, TreeArgs, Number, Questions;
    PlacesOf(TreeArgs(t), LeafArgs(l), offset);
    hide InPlace, InOrder, MapLeaf;
    assert WellShaped(t) && Readable(t, d);
  }

  lemma LeafCount(l: Leaf<Val>, d: Dialect, offset: nat)
    ensures d != Postgres ==> Questions([LeafT(MapLeaf(NumberLeaf(l, offset), Marks(d, 0)))]) == |LeafArgs(l)|
  {
    ResolveOne(NumberLeaf(l, offset), d, 0, 0);
    ResolveLeafToken(MapLeaf(NumberLeaf(l, offset), Marks(d, 0)), 0);
    hide Questions, QuestionsIn;
  }

  lemma PlacesOf(kept: seq<Slot>, all: seq<Val>, n: nat)
    requires |kept| == |all| && forall i :: 0 <= i < |all| ==> kept[i] == Slot(all[i], n + i)
    ensures InPlace(kept, all, n) && InOrder(kept, all, n)
  {
    assert InOrder(kept, all, n);
    forall i | 0 <= i < |kept| ensures n <= kept[i].index < n + |all| && all[kept[i].index - n] == kept[i].value {
      assert kept[i] == Slot(all[i], n + i);
    }
    hide InOrder;
  }

  lemma LeafMeans(l: Leaf<Val>, schema: Schema, now: int, d: Dialect, offset: nat)
    ensures MeansClause(ColumnClause(l), TLeaf(NumberLeaf(l, offset)), schema, now, d)
  {
    hide EvalLeaf, MapLeaf, NumberLeaf, RowSuits;
    var t := TLeaf(NumberLeaf(l, offset));
    NumberedValues(TLeaf(l), offset);
    assert MapTree(t, ValueOf) == TLeaf(l);
    forall row, coll ensures TruthOf(Holds(t), row, d, coll) == EvalLeaf(l, row, d, coll) {
      assert Eval(TLeaf(l), row, d, coll) == EvalLeaf(l, row, d, coll);
    }
  }

  /** The joined WHERE clause of a valid builder selects, on every row it suits, exactly what was asked. */
  lemma WhereMeansWanted(pieces: seq<SqlText>, trees: seq<Tree<Slot>>, args: seq<Val>, clauses: seq<Clause>,
          schema: Schema, now: int, d: Dialect, row: Row, coll: Collation)
    requires Pieces(pieces, trees, args, d) && Means(clauses, trees, schema, now, d)
    requires RowSuits(clauses, schema, row, now, d, coll)
    ensures Reading(JoinAnd(pieces), 0, args, d).Some?
    ensures Eval(Reading(JoinAnd(pieces), 0, args, d).value, row, d, coll) ==
              ClausesTruth(clauses, schema, row, now, d, coll)
  {
    hide Pieces, RowSuits, Reading, Conjunction, ClausesTruth, Eval;
    WhereReads(pieces, trees, args, d, row, coll);
  }
}
