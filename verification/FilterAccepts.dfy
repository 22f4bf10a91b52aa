/** Which filters compile, form by form. */
module FilterAccepts {
  import opened Wrappers
  import opened FilterSchema
  import opened FilterRows
  import opened Cel
  import opened FilterParser
  import opened Sql
  import opened FilterFold
  import opened FilterArgs
  import opened FilterMeaning
  import opened FilterBuild
  import opened FilterTruths

  /** Whether a condition can be rendered does not depend on the arguments before it. */
  lemma {:induction false} FoldsAnywhere(c: Condition, schema: Schema, d: Dialect, m: nat, n: nat)
    ensures Fold(c, schema, d, m).Ok? <==> Fold(c, schema, d, n).Ok?
  {
    hide AllArgs, BasicTree, FoldAnd, FoldOr, FoldNot;
    match c {
      case And(l, r) =>
        FoldsAnywhere(l, schema, d, m, n);
        FoldsAnywhere(r, schema, d, m + |AllArgs(l, schema, d)|, n + |AllArgs(l, schema, d)|);
      case Or(l, r) =>
        FoldsAnywhere(l, schema, d, m, n);
        FoldsAnywhere(r, schema, d, m + |AllArgs(l, schema, d)|, n + |AllArgs(l, schema, d)|);
      case Not(x) => FoldsAnywhere(x, schema, d, m, n);
      case _ =>
    }
  }

  // ----- Connectives and constants

  /** `a && b`, `a || b` and `!a` compile exactly when their operands do. */
  lemma AcceptsConnectives(fn: string, a: Expr, b: Expr, schema: Schema, now: int, d: Dialect)
    requires fn == "_&&_" || fn == "_||_"
    ensures Compiles(Call(fn, None, [a, b]), schema, now, d) <==>
              Compiles(a, schema, now, d) && Compiles(b, schema, now, d)
    ensures Compiles(Call("!_", None, [a]), schema, now, d) <==> Compiles(a, schema, now, d)
  {
    ConnectiveBuilds(fn, a, b, schema, now);
    hide BuildCondition;
    if BuildCondition(a, schema, now).Ok? && BuildCondition(b, schema, now).Ok? {
      var l, r := BuildCondition(a, schema, now).value, BuildCondition(b, schema, now).value;
      FoldsAnywhere(r, schema, d, 0, |AllArgs(l, schema, d)|);
      PairFolds(l, r, schema, d);
    }
    if BuildCondition(a, schema, now).Ok? { NotFolds(BuildCondition(a, schema, now).value, schema, d); }
  }

  lemma ConnectiveBuilds(fn: string, a: Expr, b: Expr, schema: Schema, now: int)
    requires fn == "_&&_" || fn == "_||_"
    ensures var p, q := BuildCondition(a, schema, now), BuildCondition(b, schema, now);
            && BuildCondition(Call(fn, None, [a, b]), schema, now) ==
               (if p.Err? then p else if q.Err? then q
                else Ok(if fn == "_&&_" then And(p.value, q.value) else Or(p.value, q.value)))
            && BuildCondition(Call("!_", None, [a]), schema, now) == if p.Err? then p else Ok(Not(p.value))
  {
    var args := [a, b];
    assert args[0] == a && args[1] == b && [a][0] == a;
    hide CompareOpOf;
  }

  lemma PairFolds(l: Condition, r: Condition, schema: Schema, d: Dialect)
    ensures var both := Fold(l, schema, d, 0).Ok? && Fold(r, schema, d, |AllArgs(l, schema, d)|).Ok?;
            (Fold(And(l, r), schema, d, 0).Ok? <==> both) && (Fold(Or(l, r), schema, d, 0).Ok? <==> both)
  {
    hide AllArgs, BasicTree;
  }

  lemma NotFolds(c: Condition, schema: Schema, d: Dialect)
    ensures Fold(Not(c), schema, d, 0).Ok? <==> Fold(c, schema, d, 0).Ok?
  {
    hide BasicTree;
  }

  /** Of the literals, flags and numbers compile; of the fields, flags do. */
  lemma AcceptsBare(c: Constant, n: string, schema: Schema, now: int, d: Dialect)
    ensures Compiles(Const(c), schema, now, d) <==> c.CBool? || c.CInt? || c.CUint?
    ensures Compiles(Ident(n), schema, now, d) <==>
              && n in schema && schema[n].typ == BoolType
              && (schema[n].kind == BoolColumn || schema[n].kind == JSONBool)
  {
  }

  // ----- Values

  /** Literals, the clock and what is computed from them are folded, with the wrap-around of 64 bits. */
  lemma FoldsValues(a: Expr, b: Expr, i: int, j: int, p: bool, schema: Schema, now: int)
    requires EvaluateNumeric(a, now) == Ok(Some(i)) && EvaluateNumeric(b, now) == Ok(Some(j))
    ensures EvaluateNumeric(Const(CInt(i)), now) == Ok(Some(i))
    ensures EvaluateNumeric(Call("now", None, []), now) == Ok(Some(now))
    ensures EvaluateNumeric(Call("_+_", None, [a, b]), now) == Ok(Some(Wrap64(i + j)))
    ensures EvaluateNumeric(Call("_-_", None, [a, b]), now) == Ok(Some(Wrap64(i - j)))
    ensures EvaluateNumeric(Call("_*_", None, [a, b]), now) == Ok(Some(Wrap64(i * j)))
    ensures BuildValue(a, schema, now) == Ok(LiteralValue(LInt(i)))
    ensures BuildValue(Call("!_", None, [Const(CBool(p))]), schema, now) == Ok(LiteralValue(LBool(!p)))
  {
    SumOf(a, b, i, j, now);
    DifferenceOf(a, b, i, j, now);
    ProductOf(a, b, i, j, now);
    NumericValue(a, schema, now);
    NotValue(p, schema, now);
    hide EvaluateNumeric, BuildValue, Wrap64;
    NumericLeaves(i, now);
  }

  lemma NumericLeaves(i: int, now: int)
    ensures EvaluateNumeric(Const(CInt(i)), now) == Ok(Some(i))
    ensures EvaluateNumeric(Call("now", None, []), now) == Ok(Some(now))
  {
  }

  lemma SumOf(a: Expr, b: Expr, i: int, j: int, now: int)
    requires EvaluateNumeric(a, now) == Ok(Some(i)) && EvaluateNumeric(b, now) == Ok(Some(j))
    ensures EvaluateNumeric(Call("_+_", None, [a, b]), now) == Ok(Some(Wrap64(i + j)))
  {
    hide Wrap64;
    var args := [a, b];
    assert |args| == 2 && args[0] == a && args[1] == b;
    assert GetConstValue(Call("_+_", None, args)) == None;
    hide GetConstValue;
  }

  lemma DifferenceOf(a: Expr, b: Expr, i: int, j: int, now: int)
    requires EvaluateNumeric(a, now) == Ok(Some(i)) && EvaluateNumeric(b, now) == Ok(Some(j))
    ensures EvaluateNumeric(Call("_-_", None, [a, b]), now) == Ok(Some(Wrap64(i - j)))
  {
    hide Wrap64;
    var args := [a, b];
    assert |args| == 2 && args[0] == a && args[1] == b;
    assert GetConstValue(Call("_-_", None, args)) == None;
    hide GetConstValue;
  }

  lemma ProductOf(a: Expr, b: Expr, i: int, j: int, now: int)
    requires EvaluateNumeric(a, now) == Ok(Some(i)) && EvaluateNumeric(b, now) == Ok(Some(j))
    ensures EvaluateNumeric(Call("_*_", None, [a, b]), now) == Ok(Some(Wrap64(i * j)))
  {
    hide Wrap64;
    var args := [a, b];
    assert |args| == 2 && args[0] == a && args[1] == b;
    assert GetConstValue(Call("_*_", None, args)) == None;
    hide GetConstValue;
  }

  lemma NumericValue(a: Expr, schema: Schema, now: int)
    requires EvaluateNumeric(a, now).Ok? && EvaluateNumeric(a, now).value.Some?
    ensures BuildValue(a, schema, now) == Ok(LiteralValue(LInt(EvaluateNumeric(a, now).value.value)))
  {
    hide Wrap64;
  }

  lemma NotValue(p: bool, schema: Schema, now: int)
    ensures BuildValue(Call("!_", None, [Const(CBool(p))]), schema, now) == Ok(LiteralValue(LBool(!p)))
  {
    var e := Call("!_", None, [Const(CBool(p))]);
    assert e.args[0] == Const(CBool(p));
    assert EvaluateBool(Const(CBool(p))) == Ok(Some(p));
    assert EvaluateNumeric(e, now) == Ok(None);
  }

  // ----- Comparisons

  lemma BasicCompiles(e: Expr, c: Condition, schema: Schema, now: int, d: Dialect)
    requires BuildCondition(e, schema, now) == Ok(c) && IsBasic(c)
    ensures Compiles(e, schema, now, d) <==> BasicTree(c, schema, d).Ok?
  {
    hide BuildCondition, BasicTree;
  }

  /** The literals a field is compared with: of its own type, and null for columns of numbers and texts,
      only for equality. */
  predicate Comparable(f: Field, fn: string, lit: Literal, d: Dialect)
  {
    match f.kind
    case Scalar =>
      (match lit
       case LNull => fn == "_==_" || fn == "_!=_"
       case LStr(_) => f.typ == StringType
       case LInt(_) => f.typ == IntType || f.typ == TimestampType
       case LBool(_) => false)
    case BoolColumn => lit.LBool?
    case JSONBool => lit.LBool? && (d == SQLite ==> fn == "_==_" || fn == "_!=_")
    case _ => false
  }

  /** A field compared with anything that is a literal compiles exactly when the field takes the operator
      and the literal; other right-hand sides never do. */
  lemma AcceptsComparisons(fn: string, n: string, e: Expr, schema: Schema, now: int, d: Dialect)
    requires ValidSchema(schema) && n in schema && schema[n].kind != VirtualAlias
    requires fn in {"_<_", "_>_", "_<=_", "_>=_", "_==_", "_!=_"}
    requires schema[n].allowed == None || schema[n].allowed == Some({Eq, Neq})
    ensures Compiles(Call(fn, None, [Ident(n), e]), schema, now, d) <==>
              && (schema[n].allowed == None || fn == "_==_" || fn == "_!=_")
              && BuildValue(e, schema, now).Ok? && BuildValue(e, schema, now).value.LiteralValue?
              && Comparable(schema[n], fn, BuildValue(e, schema, now).value.lit, d)
  {
    hide BuildValue, BasicTree, BuildCondition, Compiles;
    var f := Call(fn, None, [Ident(n), e]);
    ComparisonBuilds(fn, n, e, schema, now);
    assert CompareOpOf(fn).Some?;
    if BuildCondition(f, schema, now).Ok? {
      BasicCompiles(f, BuildCondition(f, schema, now).value, schema, now, d);
      FieldCompares(n, CompareOpOf(fn).value, BuildValue(e, schema, now).value, schema, d);
    } else {
      NotBuilt(f, schema, now, d);
    }
  }

  lemma NotBuilt(e: Expr, schema: Schema, now: int, d: Dialect)
    requires BuildCondition(e, schema, now).Err?
    ensures !Compiles(e, schema, now, d)
  {
  }

  lemma ComparisonBuilds(fn: string, n: string, e: Expr, schema: Schema, now: int)
    requires n in schema && schema[n].kind != VirtualAlias && CompareOpOf(fn).Some?
    ensures var v, op := BuildValue(e, schema, now), CompareOpOf(fn).value;
            BuildCondition(Call(fn, None, [Ident(n), e]), schema, now) ==
            if v.Err? then Err(v.error)
            else if schema[n].allowed.Some? && op !in schema[n].allowed.value then Err(OperatorNotAllowed)
            else Ok(Comparison(FieldRef(n), op, v.value))
  {
    var args := [Ident(n), e];
    assert args[0] == Ident(n) && args[1] == e;
    assert BuildValue(Ident(n), schema, now) == Ok(FieldRef(n));
    hide BuildValue;
  }

  lemma FieldCompares(n: string, op: CompareOp, v: ValueExpr, schema: Schema, d: Dialect)
    requires n in schema && schema[n].kind != VirtualAlias
    ensures BasicTree(Comparison(FieldRef(n), op, v), schema, d).Ok? <==>
              && v.LiteralValue?
              && match schema[n].kind
                 case Scalar =>
                   (match v.lit
                    case LNull => op == Eq || op == Neq
                    case LStr(_) => schema[n].typ == StringType
                    case LInt(_) => schema[n].typ == IntType || schema[n].typ == TimestampType
                    case LBool(_) => false)
                 case BoolColumn => v.lit.LBool?
                 case JSONBool => v.lit.LBool? && (d == SQLite ==> op == Eq || op == Neq)
                 case _ => false
  {
  }

  /** The size of a field compared with a number compiles exactly when the field is a list. */
  lemma AcceptsSizes(fn: string, n: string, k: int, schema: Schema, now: int, d: Dialect)
    requires n in schema && fn in {"_<_", "_>_", "_<=_", "_>=_", "_==_", "_!=_"}
    ensures Compiles(Call(fn, None, [Call("size", None, [Ident(n)]), Const(CInt(k))]), schema, now, d) <==>
              schema[n].kind == JSONList
  {
    var e := Call(fn, None, [Call("size", None, [Ident(n)]), Const(CInt(k))]);
    var args := e.args;
    assert args[0] == Call("size", None, [Ident(n)]) && args[1] == Const(CInt(k));
    SizeBuilds(n, schema, now);
    assert BuildValue(args[1], schema, now) == Ok(LiteralValue(LInt(k)));
    assert CompareOpOf(fn).Some?;
    var c := Comparison(FunctionValue("size", FieldRef(n)), CompareOpOf(fn).value, LiteralValue(LInt(k)));
    hide BuildValue;
    assert BuildCondition(e, schema, now) == Ok(c);
    hide BuildCondition;
    BasicCompiles(e, c, schema, now, d);
  }

  lemma SizeBuilds(n: string, schema: Schema, now: int)
    requires n in schema
    ensures BuildValue(Call("size", None, [Ident(n)]), schema, now) == Ok(FunctionValue("size", FieldRef(n)))
  {
    var e := Call("size", None, [Ident(n)]);
    assert e.args[0] == Ident(n) && BuildValue(Ident(n), schema, now) == Ok(FieldRef(n));
    assert EvaluateNumeric(e, now) == Ok(None) && EvaluateBool(e) == Ok(None);
  }

  // ----- Lists and texts

  lemma {:induction false} LiteralsListed(es: seq<Expr>, strings: bool, schema: Schema, now: int)
    requires forall i :: 0 <= i < |es| ==> es[i].Const? && (es[i].c.CInt? || es[i].c.CString?)
    ensures BuildValues(es, schema, now).Ok?
    ensures ListedValues(BuildValues(es, schema, now).value, strings).Ok? <==>
              forall i :: 0 <= i < |es| ==> es[i].c.CString? == strings
  {
    if es != [] {
      LiteralsListed(es[1..], strings, schema, now);
      assert forall i :: 0 < i < |es| ==> es[i] == es[1..][i - 1];
      assert forall i :: 0 <= i < |es[1..]| ==> es[1..][i] == es[i + 1];
      var values := BuildValues(es, schema, now).value;
      assert values[1..] == BuildValues(es[1..], schema, now).value;
      assert BuildValue(es[0], schema, now) ==
               Ok(LiteralValue(if es[0].c.CInt? then LInt(es[0].c.i) else LStr(es[0].c.s)));
    }
  }

  /** `n in [...]`: numbers for a column of numbers, texts for a column of texts, and texts for the tags;
      an empty list for any of these, and for a column of times. */
  lemma AcceptsLists(n: string, es: seq<Expr>, schema: Schema, now: int, d: Dialect)
    requires ValidSchema(schema) && n in schema && (schema[n].kind == VirtualAlias ==> n == "tag")
    requires forall i :: 0 <= i < |es| ==> es[i].Const? && (es[i].c.CInt? || es[i].c.CString?)
    ensures Compiles(Within(n, es), schema, now, d) <==>
              if n == "tag" then forall i :: 0 <= i < |es| ==> es[i].c.CString?
              else
                && schema[n].kind == Scalar
                && forall i :: 0 <= i < |es| ==>
                     if es[i].c.CString? then schema[n].typ == StringType else schema[n].typ == IntType
  {
    var e := Within(n, es);
    LiteralsListed(es, n == "tag" || schema[n].typ == StringType, schema, now);
    WithinBuilds(n, es, schema, now);
    hide BuildCondition, BuildValues, ListedValues;
    var c := BuildCondition(e, schema, now).value;
    BasicCompiles(e, c, schema, now, d);
    if n != "tag" && es != [] { assert c.values != []; }
  }

  lemma WithinBuilds(n: string, es: seq<Expr>, schema: Schema, now: int)
    requires ValidSchema(schema) && n in schema && (schema[n].kind == VirtualAlias ==> n == "tag")
    requires BuildValues(es, schema, now).Ok?
    ensures BuildCondition(Within(n, es), schema, now) == Ok(In(FieldRef(n), BuildValues(es, schema, now).value))
  {
    var args := Within(n, es).args;
    assert args[0] == Ident(n) && args[1] == ListExpr(es);
    hide BuildValues;
  }

  /** A text among the elements of a field, a part of a field, and a test of its elements. */
  lemma AcceptsTexts(n: string, s: string, x: string, fn: string, schema: Schema, now: int, d: Dialect)
    requires ValidSchema(schema) && n in schema
    ensures Compiles(Call("@in", None, [Const(CString(s)), Ident(n)]), schema, now, d) <==> schema[n].kind == JSONList
    ensures Compiles(Call("contains", Some(Ident(n)), [Const(CString(s))]), schema, now, d) <==>
              schema[n].supportsContains
    ensures Compiles(SomeElement(fn, x, n, s), schema, now, d) <==>
              schema[n].kind == JSONList && fn in {"startsWith", "endsWith", "contains"}
  {
    hide Compiles;
    AcceptsElement(n, s, schema, now, d);
    AcceptsContains(n, s, schema, now, d);
    AcceptsExists(n, s, x, fn, schema, now, d);
  }

  lemma AcceptsElement(n: string, s: string, schema: Schema, now: int, d: Dialect)
    requires n in schema
    ensures Compiles(Call("@in", None, [Const(CString(s)), Ident(n)]), schema, now, d) <==> schema[n].kind == JSONList
  {
    var e := Call("@in", None, [Const(CString(s)), Ident(n)]);
    var args := e.args;
    assert args[0] == Const(CString(s)) && args[1] == Ident(n);
    assert BuildValue(args[0], schema, now) == Ok(LiteralValue(LStr(s)));
    hide BuildValue;
    assert BuildCondition(e, schema, now) == Ok(ElementIn(LiteralValue(LStr(s)), n));
    hide BuildCondition;
    BasicCompiles(e, ElementIn(LiteralValue(LStr(s)), n), schema, now, d);
  }

  lemma AcceptsContains(n: string, s: string, schema: Schema, now: int, d: Dialect)
    requires n in schema
    ensures Compiles(Call("contains", Some(Ident(n)), [Const(CString(s))]), schema, now, d) <==>
              schema[n].supportsContains
  {
    var e := Call("contains", Some(Ident(n)), [Const(CString(s))]);
    assert e.args[0] == Const(CString(s)) && GetConstValue(e.args[0]) == Some(LStr(s));
    if schema[n].supportsContains {
      assert BuildCondition(e, schema, now) == Ok(Contains(n, s));
      hide BuildCondition;
      BasicCompiles(e, Contains(n, s), schema, now, d);
    }
  }

  lemma AcceptsExists(n: string, s: string, x: string, fn: string, schema: Schema, now: int, d: Dialect)
    requires n in schema
    ensures Compiles(SomeElement(fn, x, n, s), schema, now, d) <==>
              schema[n].kind == JSONList && fn in {"startsWith", "endsWith", "contains"}
  {
    var e := SomeElement(fn, x, n, s);
    OnlyExistsIsAccepted(ExistsMacro, x, Ident(n), Call(fn, Some(Ident(x)), [Const(CString(s))]), schema);
    hide BuildComprehension;
    assert BuildCondition(e, schema, now) == BuildComprehension(e, schema);
    if BuildComprehension(e, schema).Ok? {
      ExistsBuilt(e, schema);
      hide BuildCondition;
      BasicCompiles(e, BuildComprehension(e, schema).value, schema, now, d);
    }
  }

  lemma ExistsBuilt(e: Expr, schema: Schema)
    requires e.Comprehension? && BuildComprehension(e, schema).Ok?
    ensures var c := BuildComprehension(e, schema).value;
            c.Exists? && c.field in schema && schema[c.field].kind == JSONList
  {
    hide ExtractPredicate;
  }

  // ----- Nothing else

  /** No other call, list or comprehension compiles. */
  lemma AcceptsNothingElse(e: Expr, schema: Schema, now: int, d: Dialect)
    ensures e.ListExpr? || e.Other? ==> !Compiles(e, schema, now, d)
    ensures e.Call? && e.fn !in {"_&&_", "_||_", "!_", "_<_", "_>_", "_<=_", "_>=_", "_==_", "_!=_", "@in", "contains"}
            ==> !Compiles(e, schema, now, d)
    ensures e.Call? && e.fn in {"_&&_", "_||_", "_<_", "_>_", "_<=_", "_>=_", "_==_", "_!=_", "@in"} && |e.args| != 2
            ==> !Compiles(e, schema, now, d)
    ensures e.Call? && e.fn in {"!_", "contains"} && |e.args| != 1 ==> !Compiles(e, schema, now, d)
  {
  }
}
