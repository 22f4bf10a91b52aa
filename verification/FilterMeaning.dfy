/** Translating and rendering a filter keeps its meaning on every row. */
module FilterMeaning {
  import opened Wrappers
  import opened FilterSchema
  import opened FilterRows
  import opened Cel
  import opened FilterParser
  import opened Sql
  import opened FilterFold
  import opened FilterArgs
  import opened FilterSearch
  import Like

  // ----- Where the meaning is kept

  /** Stored values have the types of their columns, and stored tags are what the tag parser accepts. */
  ghost predicate RowFits(row: Row, schema: Schema)
  {
    forall n :: n in schema ==> ValueFits(Stored(row, schema[n]), schema[n].kind)
  }

  /** SQLite renders most comparisons of JSON flags by IS TRUE, which a missing key decides. */
  predicate FlagPresent(e: Expr, schema: Schema, row: Row, d: Dialect)
  {
    d == SQLite && e.Ident? && e.name in schema && schema[e.name].kind == JSONBool
      && schema[e.name].name != "has_task_list" ==>
      Stored(row, schema[e.name]) != VNull
  }

  predicate RightElementExpr(e: Expr, d: Dialect) { e.Const? && e.c.CString? ==> RightElement(e.c.s, d) }

  predicate RightListedExpr(e: Expr, d: Dialect) { e.Const? && e.c.CString? ==> RightListed(e.c.s, d) }

  /** The conditions on a filter and a row, each readable off the literals of the filter. For searched
      texts they are exactly those under which the search is right (see FilterSearch). */
  ghost predicate Faithful(e: Expr, schema: Schema, row: Row, now: int, d: Dialect)
  {
    match e
    case Call(fn, target, args) =>
      if fn == "_&&_" || fn == "_||_" || fn == "!_" then
        forall k :: 0 <= k < |args| ==> Faithful(args[k], schema, row, now, d)
      else if CompareOpOf(fn).Some? then
        && (forall k :: 0 <= k < |args| ==> NoOverflow(args[k], now))
        && (|args| >= 1 ==> FlagPresent(args[0], schema, row, d))
      else if fn == "@in" then
        |args| == 2 ==>
          && NoOverflow(args[0], now) && RightElementExpr(args[0], d)
          && (args[1].ListExpr? ==> forall k :: 0 <= k < |args[1].elements| ==>
                && NoOverflow(args[1].elements[k], now)
                && (args[0] == Ident("tag") ==> RightListedExpr(args[1].elements[k], d)))
      else if fn == "contains" then
        |args| == 1 && args[0].Const? && args[0].c.CString? ==> LikeSafe(args[0].c.s, d)
      else true
    case Comprehension(x, range, _, _, _, _) =>
      && (exists m, p :: e == Expand(m, x, range, p) && x != ACCU)
      && (ExtractPredicate(e).Ok? ==> RightTest(ExtractPredicate(e).value, d))
    case Const(_) => NoOverflow(e, now)
    case _ => true
  }

  // ----- Literals

  lemma {:induction false} NumericMeaning(e: Expr, schema: Schema, row: Row, now: int)
    requires EvaluateNumeric(e, now).Ok? && EvaluateNumeric(e, now).value.Some? && NoOverflow(e, now)
    ensures EvalVal(e, schema, row, now) == VInt(EvaluateNumeric(e, now).value.value)
  {
    hide Wrap64;
    match e {
      case Call(fn, _, args) =>
        if fn == "_+_" || fn == "_-_" || fn == "_*_" {
          NumericMeaning(args[0], schema, row, now);
          NumericMeaning(args[1], schema, row, now);
          NumericMeaning(args[0], map[], FilterRows.Row(map[], map[]), now);
          NumericMeaning(args[1], map[], FilterRows.Row(map[], map[]), now);
        }
      case _ =>
    }
  }

  lemma {:induction false} BoolMeaning(e: Expr, schema: Schema, row: Row, now: int)
    requires EvaluateBool(e).Ok? && EvaluateBool(e).value.Some?
    ensures EvalVal(e, schema, row, now) == VBool(EvaluateBool(e).value.value)
  {
    match e {
      case Call(fn, _, args) => BoolMeaning(args[0], schema, row, now);
      case _ =>
    }
  }

  /** A literal operand has the value it was folded to. */
  lemma LiteralMeaning(e: Expr, schema: Schema, row: Row, now: int)
    requires BuildValue(e, schema, now).Ok? && BuildValue(e, schema, now).value.LiteralValue? && NoOverflow(e, now)
    ensures EvalVal(e, schema, row, now) == LitVal(BuildValue(e, schema, now).value.lit)
  {
    if GetConstValue(e).None? {
      if EvaluateNumeric(e, now).Ok? && EvaluateNumeric(e, now).value.Some? {
        NumericMeaning(e, schema, row, now);
      } else {
        BoolMeaning(e, schema, row, now);
      }
    }
  }

  lemma FieldMeaning(e: Expr, schema: Schema, now: int)
    requires BuildValue(e, schema, now).Ok?
    ensures BuildValue(e, schema, now).value.FieldRef? ==>
              e == Ident(BuildValue(e, schema, now).value.name) && e.name in schema
    ensures BuildValue(e, schema, now).value.FunctionValue? ==>
              e.Call? && e.fn == "size" && |e.args| == 1
                && BuildValue(e.args[0], schema, now) == Ok(BuildValue(e, schema, now).value.arg)
  {
  }

  // ----- Comparisons

  function Op3(op: CompareOp, a: Val, b: Val, d: Dialect): Truth { Compare3(op, Normal(a, d), Normal(b, d)) }

  lemma NormalKeeps(op: CompareOp, a: Val, b: Val, d: Dialect)
    requires !a.VBool? && !b.VBool?
    ensures Op3(op, a, b, d) == Compare3(op, a, b)
  {
  }

  lemma BoolArgKeeps(op: CompareOp, a: Val, b: bool, d: Dialect)
    requires a.VNull? || a.VBool?
    ensures Op3(op, a, BoolArg(b, d), d) == Compare3(op, a, VBool(b))
  {
  }

  lemma JsonBoolMeaning(f: Field, op: CompareOp, b: bool, row: Row, d: Dialect, coll: Collation)
    requires f.kind == JSONBool && ValueFits(Stored(row, f), JSONBool)
    requires JsonBoolTree(f, op, b, d).Ok?
    requires d == SQLite && f.name != "has_task_list" ==> Stored(row, f) != VNull
    ensures Eval(JsonBoolTree(f, op, b, d).value, row, d, coll) == Compare3(op, Stored(row, f), VBool(b))
  {
    var v := Stored(row, f);
    assert EvalOperand(JsonExpr(f), row) == v;
    match d {
      case Postgres => BoolArgKeeps(op, v, b, d);
      case MySQL =>
      case SQLite =>
    }
  }

  lemma FieldComparison(n: string, op: CompareOp, lit: Literal, schema: Schema, row: Row, d: Dialect, coll: Collation)
    requires ComparisonTree(FieldRef(n), op, LiteralValue(lit), schema, d).Ok?
    requires RowFits(row, schema) && FlagPresent(Ident(n), schema, row, d)
    ensures Eval(ComparisonTree(FieldRef(n), op, LiteralValue(lit), schema, d).value, row, d, coll) ==
              CompareCel(op, Stored(row, schema[n]), LitVal(lit))
  {
    hide FilterRows.Holds;
    var f, v := schema[n], Stored(row, schema[n]);
    assert ValueFits(v, f.kind);
    match f.kind {
      case JSONBool => JsonBoolMeaning(f, op, lit.b, row, d, coll);
      case BoolColumn => BoolArgKeeps(op, v, lit.b, d);
      case _ =>
        if !lit.LNull? { NormalKeeps(op, v, LitVal(lit), d); }
    }
  }

  lemma SizeComparison(n: string, op: CompareOp, lit: Literal, schema: Schema, row: Row, now: int, d: Dialect,
          coll: Collation)
    requires ComparisonTree(FunctionValue("size", FieldRef(n)), op, LiteralValue(lit), schema, d).Ok?
    ensures Eval(ComparisonTree(FunctionValue("size", FieldRef(n)), op, LiteralValue(lit), schema, d).value, row, d,
              coll) ==
            CompareCel(op, EvalVal(Call("size", None, [Ident(n)]), schema, row, now), LitVal(lit))
  {
    hide FilterRows.Holds;
    assert EvalVal(Ident(n), schema, row, now) == Stored(row, schema[n]);
  }

  lemma ComparisonMeaning(e: Expr, schema: Schema, row: Row, now: int, d: Dialect, coll: Collation)
    requires e.Call? && CompareOpOf(e.fn).Some? && |e.args| == 2
    requires NoOverflow(e.args[1], now) && FlagPresent(e.args[0], schema, row, d) && RowFits(row, schema)
    requires BuildValue(e.args[0], schema, now).Ok? && BuildValue(e.args[1], schema, now).Ok?
    requires var t :=
               ComparisonTree(BuildValue(e.args[0], schema, now).value, CompareOpOf(e.fn).value,
                 BuildValue(e.args[1], schema, now).value, schema, d); t.Ok?
    ensures var t :=
              ComparisonTree(BuildValue(e.args[0], schema, now).value, CompareOpOf(e.fn).value,
                BuildValue(e.args[1], schema, now).value, schema, d);
            Eval(t.value, row, d, coll) ==
                CompareCel(CompareOpOf(e.fn).value, EvalVal(e.args[0], schema, row, now),
                  EvalVal(e.args[1], schema, row, now))
  {
    var op := CompareOpOf(e.fn).value;
    var lhs, rhs := BuildValue(e.args[0], schema, now).value, BuildValue(e.args[1], schema, now).value;
    assert rhs.LiteralValue? && (lhs.FieldRef? || (lhs.FunctionValue? && lhs.fn == "size" && lhs.arg.FieldRef?));
    FieldMeaning(e.args[0], schema, now);
    LiteralMeaning(e.args[1], schema, row, now);
    hide Eval, ComparisonTree, BuildValue, CompareCel, CompareOpOf;
    if lhs.FieldRef? {
      FieldComparison(lhs.name, op, rhs.lit, schema, row, d, coll);
    } else {
      FieldMeaning(e.args[0].args[0], schema, now);
      SizeComparison(lhs.arg.name, op, rhs.lit, schema, row, now, d, coll);
      SizeOf(e.args[0], schema, row, now);
    }
  }

  lemma SizeOf(e: Expr, schema: Schema, row: Row, now: int)
    requires e.Call? && e.fn == "size" && |e.args| == 1
    ensures EvalVal(e, schema, row, now) == EvalVal(Call("size", None, [e.args[0]]), schema, row, now)
  {
  }

  // ----- Lists

  lemma {:induction false} ListedMeaning(es: seq<Expr>, strings: bool, schema: Schema, row: Row, now: int)
    requires BuildValues(es, schema, now).Ok? && ListedValues(BuildValues(es, schema, now).value, strings).Ok?
    requires forall k :: 0 <= k < |es| ==> NoOverflow(es[k], now)
    ensures var vs := ListedValues(BuildValues(es, schema, now).value, strings).value;
            |vs| == |es| && forall k :: 0 <= k < |es| ==>
                vs[k] == EvalVal(es[k], schema, row, now) && !vs[k].VNull? && (strings ==> vs[k].VStr?)
    ensures forall k :: 0 <= k < |es| ==>
              BuildValue(es[k], schema, now).Ok? && BuildValue(es[k], schema, now).value.LiteralValue?
  {
    hide NoOverflow, EvalVal;
    if es != [] {
      var values := BuildValues(es, schema, now).value;
      assert values[1..] == BuildValues(es[1..], schema, now).value;
      LiteralMeaning(es[0], schema, row, now);
      ListedMeaning(es[1..], strings, schema, row, now);
    }
  }

  lemma ScalarInMeaning(f: Field, es: seq<Expr>, schema: Schema, row: Row, now: int, d: Dialect, coll: Collation)
    requires f.kind == Scalar
    requires BuildValues(es, schema, now).Ok? && ScalarInTree(f, BuildValues(es, schema, now).value).Ok?
    requires forall k :: 0 <= k < |es| ==> NoOverflow(es[k], now)
    ensures Eval(ScalarInTree(f, BuildValues(es, schema, now).value).value, row, d, coll) ==
              Among3(Stored(row, f), Values(es, schema, row, now))
  {
    hide NoOverflow, EvalVal;
    ListedMeaning(es, f.typ == StringType, schema, row, now);
    assert ListedValues(BuildValues(es, schema, now).value, f.typ == StringType).value == Values(es, schema, row, now);
  }

  // ----- Tags

  lemma {:induction false} Or3OfAll(ts: seq<Truth>)
    ensures (exists k :: 0 <= k < |ts| && ts[k] == True) ==> Or3All(ts) == True
    ensures (forall k :: 0 <= k < |ts| ==> ts[k] == False) ==> Or3All(ts) == False
    ensures |ts| > 0 && (forall k :: 0 <= k < |ts| ==> ts[k] == Unknown) ==> Or3All(ts) == Unknown
    ensures (forall k :: 0 <= k < |ts| ==> ts[k] != Unknown) ==> Or3All(ts) != Unknown
  {
    if ts != [] {
      Or3OfAll(ts[1..]);
      assert forall k :: 1 <= k < |ts| ==> ts[k] == ts[1..][k - 1];
      assert forall k :: 0 <= k < |ts[1..]| ==> ts[1..][k] == ts[k + 1];
      if |ts| == 1 { assert ts[1..] == []; }
    }
  }

  /** A non-empty list of listed tags. */
  lemma TagInMeaning(x: Operand, vs: seq<Val>, row: Row, d: Dialect, coll: Collation)
    requires x.JsonOp? && ValueFits(EvalOperand(x, row), JSONList) && Like.KeepsStructure(coll.json)
    requires vs != [] && forall k :: 0 <= k < |vs| ==> vs[k].VStr? && RightListed(vs[k].s, d)
    requires forall v :: v in vs ==> v.VStr?
    ensures var trees := ListedTagTrees(x, vs, d);
            var v := EvalOperand(x, row);
            Eval(if |trees| == 1 then trees[0] else TOr(trees), row, d, coll) ==
            if v.VNull? then Unknown
              else Of(exists k :: 0 <= k < |vs| && vs[k].VStr? && TagListed(v.l, vs[k].s, coll, d))
  {
    hide ListedTagTree, TagListed, RightListed, Like.AllTags;
    var trees := ListedTagTrees(x, vs, d);
    var v := EvalOperand(x, row);
    forall k | 0 <= k < |vs|
      ensures Eval(trees[k], row, d, coll) == if v.VNull? then Unknown else Of(TagListed(v.l, vs[k].s, coll, d))
    {
      ListedTagMeaning(x, vs[k].s, row, d, coll);
    }
    if |trees| != 1 {
      Or3OfAll(EvalAll(trees, row, d, coll));
    }
  }

  lemma InMeaning(n: string, es: seq<Expr>, schema: Schema, row: Row, now: int, d: Dialect, coll: Collation)
    requires ValidSchema(schema) && RowFits(row, schema) && Like.KeepsStructure(coll.json)
    requires n in schema && (es != [] || (d == SQLite && n != "tag")) && BuildValues(es, schema, now).Ok?
    requires InTree(FieldRef(n), BuildValues(es, schema, now).value, schema, d).Ok?
    requires forall k :: 0 <= k < |es| ==> NoOverflow(es[k], now) && (n == "tag" ==> RightListedExpr(es[k], d))
    ensures Eval(InTree(FieldRef(n), BuildValues(es, schema, now).value, schema, d).value, row, d, coll) ==
            EvalIn(schema[n], Values(es, schema, row, now), schema, row, coll, d)
  {
    hide NoOverflow, RightListed, EvalVal, Eval, ListedTagTrees;
    var values := BuildValues(es, schema, now).value;
    if n == "tag" {
      var f := ResolveAlias(schema, "tag").value;
      ListedMeaning(es, true, schema, row, now);
      ListedStrings(values);
      var vs := ListedValues(values, true).value;
      assert vs == Values(es, schema, row, now);
      assert ValueFits(Stored(row, f), JSONList) by { AliasTarget(schema, row); }
      forall k | 0 <= k < |vs| ensures RightListed(vs[k].s, d) {
        LiteralMeaning(es[k], schema, row, now);
        StringLiteral(es[k], schema, now);
      }
      TagInMeaning(JsonExpr(f), vs, row, d, coll);
    } else {
      ScalarInMeaning(schema[n], es, schema, row, now, d, coll);
    }
  }

  lemma AliasTarget(schema: Schema, row: Row)
    requires ValidSchema(schema) && RowFits(row, schema)
    ensures ValueFits(Stored(row, ResolveAlias(schema, "tag").value), JSONList)
    ensures schema["tag"].kind == VirtualAlias && schema["tag"].name == "tag"
  {
  }

  /** Only string literals are built into string values. */
  lemma StringLiteral(e: Expr, schema: Schema, now: int)
    requires BuildValue(e, schema, now).Ok? && BuildValue(e, schema, now).value.LiteralValue?
    ensures BuildValue(e, schema, now).value.lit.LStr? ==> e == Const(CString(BuildValue(e, schema, now).value.lit.s))
  {
  }

  lemma ElementMeaning(e: Expr, n: string, schema: Schema, row: Row, now: int, d: Dialect, coll: Collation)
    requires RowFits(row, schema) && Like.KeepsStructure(coll.json) && NoOverflow(e, now) && RightElementExpr(e, d)
    requires BuildValue(e, schema, now).Ok? && ElementTree(BuildValue(e, schema, now).value, n, schema, d).Ok?
    ensures var v := Stored(row, schema[n]);
            EvalVal(e, schema, row, now).VStr? &&
            Eval(ElementTree(BuildValue(e, schema, now).value, n, schema, d).value, row, d, coll) ==
            match v
            case VList(tags) =>
              (var s := EvalVal(e, schema, row, now).s;
                  Of(if d == SQLite then Like.SomeTagIs(tags, s, coll.json) else s in tags))
            case _ => Unknown
  {
    hide EvalLeaf, NoOverflow;
    var s := BuildValue(e, schema, now).value.lit.s;
    LiteralMeaning(e, schema, row, now);
    StringLiteral(e, schema, now);
    assert ValueFits(Stored(row, schema[n]), schema[n].kind);
    ExactMeaning(JsonExpr(schema[n]), s, row, d, coll);
  }

  // ----- Comprehensions

  lemma EvalChecked(x: Operand, t: Tree<Val>, row: Row, d: Dialect, coll: Collation)
    ensures Eval(NullChecked(x, t), row, d, coll) ==
            And3(Eval(t, row, d, coll), And3(EvalLeaf(IsNotNull(x), row, d, coll), EvalLeaf(NonEmpty(x), row, d, coll)))
  {
    hide EvalLeaf;
    var kids := NullChecked(x, t).kids;
    var ts := EvalAll(kids, row, d, coll);
    var a, b, c := Eval(t, row, d, coll), EvalLeaf(IsNotNull(x), row, d, coll), EvalLeaf(NonEmpty(x), row, d, coll);
    assert ts == [a, b, c];
    assert ts[1..] == [b, c] && ts[1..][1..] == [c] && ts[1..][1..][1..] == [];
    assert And3All([c]) == And3(c, And3All([]));
    assert And3All(ts[1..]) == And3(b, And3All([c]));
  }

  lemma ExistsMeaning(n: string, p: PredicateExpr, schema: Schema, row: Row, d: Dialect, coll: Collation)
    requires n in schema && schema[n].kind == JSONList && RowFits(row, schema)
    requires RightTest(p, d) && Like.KeepsStructure(coll.json)
    ensures Eval(ExistsTree(n, p, schema, d).value, row, d, coll) ==
            match Stored(row, schema[n])
            case VList(tags) => Of(SomeTagPasses(tags, TestOf(p), TextOf(p), coll.json))
            case _ => False
  {
    hide Like.AllTags, SomeTagPasses, Eval, RightTest;
    var x, v := JsonExpr(schema[n]), Stored(row, schema[n]);
    assert ValueFits(v, JSONList);
    var t := ExistsTree(n, p, schema, d).value;
    EvalChecked(x, t.kids[0], row, d, coll);
    if v.VList? && v.l != [] {
      TestMeaning(x, p, row, d, coll);
      assert t.kids[0] == TestTree(x, p, d);
    } else if v.VList? {
      NoTagPasses(TestOf(p), TextOf(p), coll.json);
    }
  }

  /** The loop of `exists` computes whether some element passes the test. */
  lemma {:induction false} LoopMeaning(comp: Expr, tags: seq<string>, accu: Truth, fn: string, s: string,
          schema: Schema, row: Row, now: int, d: Dialect, coll: Collation)
    requires comp.Comprehension?
             && comp ==
               Expand(ExistsMacro, comp.iterVar, comp.range, Call(fn, Some(Ident(comp.iterVar)), [Const(CString(s))]))
    requires comp.iterVar != ACCU && fn in {"startsWith", "endsWith", "contains"} && accu != Unknown
    ensures EvalLoop(comp, tags, accu, schema, row, now, coll, d) ==
              Or3(accu, Of(SomeTagPasses(tags, fn, s, coll.json)))
    decreases |tags|
  {
    hide TagTest;
    if tags == [] {
      NoTagPasses(fn, s, coll.json);
    } else {
      var scope := Scope(ACCU, accu, comp.iterVar, tags[0]);
      StepMeaning(comp, scope, fn, s, schema, row, now, d, coll);
      var next := Or3(accu, Of(TagTest(fn, tags[0], s, coll.json)));
      LoopMeaning(comp, tags[1..], next, fn, s, schema, row, now, d, coll);
      assert SomeTagPasses(tags, fn, s, coll.json) <==>
               TagTest(fn, tags[0], s, coll.json) || SomeTagPasses(tags[1..], fn, s, coll.json) by {
        assert forall k :: 0 < k < |tags| ==> tags[k] == tags[1..][k - 1];
        assert forall k :: 0 <= k < |tags[1..]| ==> tags[1..][k] == tags[k + 1];
      }
    }
  }

  lemma StepMeaning(comp: Expr, scope: Scope, fn: string, s: string, schema: Schema, row: Row, now: int, d: Dialect,
          coll: Collation)
    requires comp.Comprehension?
             && comp ==
               Expand(ExistsMacro, comp.iterVar, comp.range, Call(fn, Some(Ident(comp.iterVar)), [Const(CString(s))]))
    requires comp.iterVar != ACCU && fn in {"startsWith", "endsWith", "contains"}
    requires scope.Scope? && scope.accuVar == ACCU && scope.iterVar == comp.iterVar
    ensures EvalBool(comp.loopStep, schema, row, now, coll, d, scope) ==
              Or3(scope.accu, Of(TagTest(fn, scope.elem, s, coll.json)))
  {
    hide TagTest;
    var args := comp.loopStep.args;
    assert args == [Ident(ACCU), Call(fn, Some(Ident(comp.iterVar)), [Const(CString(s))])];
    assert EvalVal(Const(CString(s)), schema, row, now) == VStr(s);
    assert EvalBool(args[1], schema, row, now, coll, d, scope) == Of(TagTest(fn, scope.elem, s, coll.json));
  }

  lemma ComprehensionMeaning(e: Expr, schema: Schema, row: Row, now: int, d: Dialect, coll: Collation)
    requires e.Comprehension? && BuildComprehension(e, schema).Ok?
    requires Faithful(e, schema, row, now, d) && RowFits(row, schema) && Like.KeepsStructure(coll.json)
    ensures var c := BuildComprehension(e, schema).value;
            c.Exists?
              && Eval(ExistsTree(c.field, c.pred, schema, d).value, row, d, coll) ==
                EvalBool(e, schema, row, now, coll, d, NoScope)
  {
    hide Eval, EvalLoop, RightTest, Like.KeepsStructure, ExistsTree, TagTest;
    var m, p :| e == Expand(m, e.iterVar, e.range, p) && e.iterVar != ACCU;
    OnlyExistsIsAccepted(m, e.iterVar, e.range, p, schema);
    assert e.loopStep.args == [Ident(ACCU), p];
    var s := p.args[0].c.s;
    assert p == Call(p.fn, Some(Ident(e.iterVar)), [Const(CString(s))]) by { assert p.args == [p.args[0]]; }
    var c := BuildComprehension(e, schema).value;
    assert TestOf(c.pred) == p.fn && TextOf(c.pred) == s;
    ExistsMeaning(c.field, c.pred, schema, row, d, coll);
    assert ValueFits(Stored(row, schema[c.field]), JSONList);
    var tags := match EvalVal(e.range, schema, row, now) case VList(l) => l case _ => [];
    assert EvalBool(e.accuInit, schema, row, now, coll, d, NoScope) == False;
    LoopMeaning(e, tags, False, p.fn, s, schema, row, now, d, coll);
    ResultMeaning(e, tags, schema, row, now, d, coll);
    if !Stored(row, schema[c.field]).VList? { NoTagPasses(p.fn, s, coll.json); }
  }

  lemma ResultMeaning(e: Expr, tags: seq<string>, schema: Schema, row: Row, now: int, d: Dialect, coll: Collation)
    requires e.Comprehension? && e.result == Ident(e.accuVar)
    requires tags == match EvalVal(e.range, schema, row, now) case VList(l) => l case _ => []
    ensures EvalBool(e, schema, row, now, coll, d, NoScope) ==
            EvalLoop(e, tags, EvalBool(e.accuInit, schema, row, now, coll, d, NoScope), schema, row, now, coll, d)
  {
    hide EvalLoop;
  }

  // ----- Whole filters

  function TruthOf(f: Folded, row: Row, d: Dialect, coll: Collation): Truth
  {
    match f
    case AlwaysHolds => True
    case NeverHolds => False
    case Holds(t) => Eval(MapTree(t, ValueOf), row, d, coll)
  }

  lemma PairTruth(a: Tree<Slot>, b: Tree<Slot>, row: Row, d: Dialect, coll: Collation)
    ensures TruthOf(Holds(TAnd([a, b])), row, d, coll) ==
              And3(TruthOf(Holds(a), row, d, coll), TruthOf(Holds(b), row, d, coll))
    ensures TruthOf(Holds(TOr([a, b])), row, d, coll) ==
              Or3(TruthOf(Holds(a), row, d, coll), TruthOf(Holds(b), row, d, coll))
  {
    var x, y := MapTree(a, ValueOf), MapTree(b, ValueOf);
    assert MapKids([a, b], ValueOf) == [x, y];
    hide MapTree;
    var ts := EvalAll([x, y], row, d, coll);
    assert ts == [Eval(x, row, d, coll), Eval(y, row, d, coll)];
    assert ts[1..] == [Eval(y, row, d, coll)] && ts[1..][1..] == [];
    assert Or3All(ts[1..]) == Or3(ts[1], Or3All([]));
    assert And3All(ts[1..]) == And3(ts[1], And3All([]));
  }

  /** Folding is sound in three-valued logic. */
  lemma FoldingIsSound(l: Folded, r: Folded, row: Row, d: Dialect, coll: Collation)
    ensures TruthOf(FoldAnd(l, r), row, d, coll) == And3(TruthOf(l, row, d, coll), TruthOf(r, row, d, coll))
    ensures TruthOf(FoldOr(l, r), row, d, coll) == Or3(TruthOf(l, row, d, coll), TruthOf(r, row, d, coll))
    ensures TruthOf(FoldNot(l), row, d, coll) == Not3(TruthOf(l, row, d, coll))
  {
    hide Eval;
    if l.Holds? && r.Holds? { PairTruth(l.tree, r.tree, row, d, coll); }
    if l.Holds? { NotTruth(l.tree, row, d, coll); }
  }

  lemma NotTruth(t: Tree<Slot>, row: Row, d: Dialect, coll: Collation)
    ensures TruthOf(Holds(TNot(t)), row, d, coll) == Not3(TruthOf(Holds(t), row, d, coll))
  {
  }

  ghost predicate Fits(row: Row, schema: Schema, coll: Collation)
  {
    ValidSchema(schema) && RowFits(row, schema) && Like.KeepsStructure(coll.json)
  }

  lemma PredicateMeaning(n: string, schema: Schema, row: Row, now: int, d: Dialect, coll: Collation)
    requires n in schema && PredicateTree(n, schema).Ok?
    ensures Eval(PredicateTree(n, schema).value, row, d, coll) == EvalBool(Ident(n), schema, row, now, coll, d, NoScope)
  {
  }

  lemma CallMeaning(e: Expr, schema: Schema, row: Row, now: int, d: Dialect, coll: Collation)
    requires e.Call? && BuildCondition(e, schema, now).Ok? && IsBasic(BuildCondition(e, schema, now).value)
    requires BasicTree(BuildCondition(e, schema, now).value, schema, d).Ok?
    requires Faithful(e, schema, row, now, d) && Fits(row, schema, coll)
             && ListsFilled(BuildCondition(e, schema, now).value, d)
    ensures Eval(BasicTree(BuildCondition(e, schema, now).value, schema, d).value, row, d, coll) ==
            EvalBool(e, schema, row, now, coll, d, NoScope)
  {
    hide Eval, EvalVal, BuildValue, BuildValues, ComparisonTree, InTree, ElementTree, ContainsTree, ExistsTree,
         PredicateTree, EvalIn, CompareCel, NoOverflow, EvalLoop, RightElement, RightListed, RightTest, LikeSafe,
         FlagPresent, Like.KeepsStructure, Like.Has, Like.SomeTagIs, ResolveAlias, RowFits;
    if CompareOpOf(e.fn).Some? {
      ComparisonMeaning(e, schema, row, now, d, coll);
    } else if e.fn == "@in" {
      InCallMeaning(e, schema, row, now, d, coll);
    } else {
      ContainsCallMeaning(e, schema, row, now, d, coll);
    }
  }

  lemma InCallMeaning(e: Expr, schema: Schema, row: Row, now: int, d: Dialect, coll: Collation)
    requires e.Call? && e.fn == "@in" && BuildIn(e.args, schema, now).Ok?
    requires BasicTree(BuildIn(e.args, schema, now).value, schema, d).Ok?
    requires Faithful(e, schema, row, now, d) && Fits(row, schema, coll)
             && ListsFilled(BuildIn(e.args, schema, now).value, d)
    ensures Eval(BasicTree(BuildIn(e.args, schema, now).value, schema, d).value, row, d, coll) ==
            EvalBool(e, schema, row, now, coll, d, NoScope)
  {
    hide Eval, BuildValue, BuildValues, InTree, ElementTree, EvalIn, NoOverflow, RightElement, RightListed,
         Like.KeepsStructure, Like.SomeTagIs, ResolveAlias, RowFits;
    var args := e.args;
    assert |args| == 2;
    if args[0].Ident? && args[1].ListExpr? {
      InMeaning(args[0].name, args[1].elements, schema, row, now, d, coll);
    } else {
      ElementMeaning(args[0], args[1].name, schema, row, now, d, coll);
      assert EvalVal(args[1], schema, row, now) == Stored(row, schema[args[1].name]);
    }
  }

  lemma ContainsCallMeaning(e: Expr, schema: Schema, row: Row, now: int, d: Dialect, coll: Collation)
    requires e.Call? && e.fn == "contains" && BuildContains(e.target, e.args, schema).Ok?
    requires Faithful(e, schema, row, now, d) && Fits(row, schema, coll)
    ensures Eval(BasicTree(BuildContains(e.target, e.args, schema).value, schema, d).value, row, d, coll) ==
            EvalBool(e, schema, row, now, coll, d, NoScope)
  {
    hide Eval, ContainsTree, LikeSafe, Like.KeepsStructure, Like.Has, ResolveAlias;
    var s := e.args[0].c.s;
    assert EvalVal(e.args[0], schema, row, now) == VStr(s);
    ContainsMeaning(e.target.value.name, s, schema, row, d, coll);
    assert EvalVal(e.target.value, schema, row, now) == Stored(row, schema[e.target.value.name]);
  }

  /** Conditions without connectives. */
  lemma BasicMeaning(e: Expr, schema: Schema, row: Row, now: int, d: Dialect, coll: Collation)
    requires BuildCondition(e, schema, now).Ok? && IsBasic(BuildCondition(e, schema, now).value)
    requires BasicTree(BuildCondition(e, schema, now).value, schema, d).Ok?
    requires Faithful(e, schema, row, now, d) && Fits(row, schema, coll)
             && ListsFilled(BuildCondition(e, schema, now).value, d)
    ensures Eval(BasicTree(BuildCondition(e, schema, now).value, schema, d).value, row, d, coll) ==
            EvalBool(e, schema, row, now, coll, d, NoScope)
  {
    hide Eval, EvalVal, BuildValue, BuildValues, ComparisonTree, InTree, ElementTree, ContainsTree, ExistsTree,
         PredicateTree, EvalIn, CompareCel, NoOverflow, EvalLoop, RightElement, RightListed, RightTest, LikeSafe,
         FlagPresent, Like.KeepsStructure;
    match e {
      case Ident(n) => PredicateMeaning(n, schema, row, now, d, coll);
      case Comprehension(_, _, _, _, _, _) => ComprehensionMeaning(e, schema, row, now, d, coll);
      case Call(fn, target, args) => CallMeaning(e, schema, row, now, d, coll);
      case _ =>
    }
  }

  /** A filter that is translated and folded has, on every row, the three-valued truth of its source. */
  lemma {:induction false} FilterKeepsMeaning(e: Expr, schema: Schema, row: Row, now: int, d: Dialect, coll: Collation,
          n: nat)
    requires BuildCondition(e, schema, now).Ok?
    requires Fold(BuildCondition(e, schema, now).value, schema, d, n).Ok?
    requires Faithful(e, schema, row, now, d) && Fits(row, schema, coll)
    requires ListsFilled(BuildCondition(e, schema, now).value, d)
    ensures TruthOf(Fold(BuildCondition(e, schema, now).value, schema, d, n).value, row, d, coll) ==
            EvalBool(e, schema, row, now, coll, d, NoScope)
    decreases e
  {
    hide BasicTree, Number, AllArgs, Eval, Fits, EvalVal, EvalLoop, BuildCondition, EvalBool, Faithful, TruthOf,
         FoldAnd, FoldOr, FoldNot;
    var c := BuildCondition(e, schema, now).value;
    Connectives(e, schema, row, now, d, coll);
    FoldIsStatic(c, schema, d, n);
    if IsBasic(c) {
      var t := FoldOfBasic(c, schema, d, n);
      NumberedValues(t, n);
      BasicMeaning(e, schema, row, now, d, coll);
      TreeTruth(Number(t, n), row, d, coll);
    } else if c.Constant? {
      ConstantMeaning(e, schema, row, now, d, coll);
    } else if c.Not? {
      FilterKeepsMeaning(e.args[0], schema, row, now, d, coll, n);
      FoldingIsSound(Fold(c.expr, schema, d, n).value, AlwaysHolds, row, d, coll);
    } else {
      var m := n + |AllArgs(c.left, schema, d)|;
      var fl, fr := Fold(c.left, schema, d, n).value, Fold(c.right, schema, d, m).value;
      FoldIsStatic(c.left, schema, d, n);
      FoldIsStatic(c.right, schema, d, m);
      if ListsFilled(c.left, d) { FilterKeepsMeaning(e.args[0], schema, row, now, d, coll, n); }
      if ListsFilled(c.right, d) { FilterKeepsMeaning(e.args[1], schema, row, now, d, coll, m); }
      FoldingIsSound(fl, fr, row, d, coll);
      ConstantTruth(fl, row, d, coll);
      ConstantTruth(fr, row, d, coll);
    }
  }

  lemma ConstantTruth(f: Folded, row: Row, d: Dialect, coll: Collation)
    ensures f.AlwaysHolds? ==> TruthOf(f, row, d, coll) == True
    ensures f.NeverHolds? ==> TruthOf(f, row, d, coll) == False
  {
  }

  /** Connectives come from the calls of the same name. */
  lemma Connectives(e: Expr, schema: Schema, row: Row, now: int, d: Dialect, coll: Collation)
    requires BuildCondition(e, schema, now).Ok? && Faithful(e, schema, row, now, d)
    ensures var c := BuildCondition(e, schema, now).value;
            && (c.Not? ==>
                  && e.Call? && |e.args| == 1 && BuildCondition(e.args[0], schema, now) == Ok(c.expr)
                    && Faithful(e.args[0], schema, row, now, d)
                  && EvalBool(e, schema, row, now, coll, d, NoScope) ==
                      Not3(EvalBool(e.args[0], schema, row, now, coll, d, NoScope)))
            && (c.And? || c.Or? ==>
                  && e.Call? && |e.args| == 2
                  && BuildCondition(e.args[0], schema, now) == Ok(c.left) && Faithful(e.args[0], schema, row, now, d)
                  && BuildCondition(e.args[1], schema, now) == Ok(c.right) && Faithful(e.args[1], schema, row, now, d))
            && (c.And? ==> EvalBool(e, schema, row, now, coll, d, NoScope) ==
                           And3(EvalBool(e.args[0], schema, row, now, coll, d, NoScope),
                               EvalBool(e.args[1], schema, row, now, coll, d, NoScope)))
            && (c.Or? ==> EvalBool(e, schema, row, now, coll, d, NoScope) ==
                          Or3(EvalBool(e.args[0], schema, row, now, coll, d, NoScope),
                              EvalBool(e.args[1], schema, row, now, coll, d, NoScope)))
  {
    hide EvalVal, EvalLoop, BuildValue, BuildValues, ExtractPredicate, EvalIn, CompareCel;
  }

  lemma TreeTruth(t: Tree<Slot>, row: Row, d: Dialect, coll: Collation)
    ensures TruthOf(Holds(t), row, d, coll) == Eval(MapTree(t, ValueOf), row, d, coll)
  {
  }

  lemma ConstantMeaning(e: Expr, schema: Schema, row: Row, now: int, d: Dialect, coll: Collation)
    requires BuildCondition(e, schema, now).Ok? && BuildCondition(e, schema, now).value.Constant?
    requires Faithful(e, schema, row, now, d)
    ensures var b := BuildCondition(e, schema, now).value.value;
            EvalBool(e, schema, row, now, coll, d, NoScope) == Of(b)
            && TruthOf(if b then AlwaysHolds else NeverHolds, row, d, coll) == Of(b)
  {
  }
}
