/** What each operator and each test of a filter says of a row, spelled out one by one. */
module FilterTruths {
  import opened Wrappers
  import opened FilterSchema
  import opened FilterRows
  import opened Cel
  import opened FilterParser
  import opened Sql
  import opened FilterFold
  import opened FilterArgs
  import opened FilterSearch
  import opened FilterMeaning
  import opened FilterRender
  import opened FilterBuild
  import opened Strings
  import Like

  /** The filter `n fn c`, for one of the six comparisons. */
  function Compared(fn: string, n: string, c: Constant): Expr { Call(fn, None, [Ident(n), Const(c)]) }

  predicate Says(t: Truth, b: bool) { t == if b then True else False }

  // ----- Comparisons

  /** The comparison that each operator stands for, on the stored value and the literal. */
  lemma ComparedMeaning(fn: string, n: string, c: Constant, schema: Schema, row: Row, now: int, coll: Collation,
          d: Dialect, scope: Scope)
    requires n in schema && fn in {"_<_", "_>_", "_<=_", "_>=_", "_==_", "_!=_"}
    ensures CompareOpOf(fn).Some?
    ensures EvalBool(Compared(fn, n, c), schema, row, now, coll, d, scope) ==
              CompareCel(CompareOpOf(fn).value, Stored(row, schema[n]), ConstVal(c))
  {
    hide CompareCel;
    var args := Compared(fn, n, c).args;
    assert args[0] == Ident(n) && args[1] == Const(c);
    assert EvalVal(Ident(n), schema, row, now) == Stored(row, schema[n]);
    assert EvalVal(Const(c), schema, row, now) == ConstVal(c);
  }

  lemma AllCompared(n: string, c: Constant, schema: Schema, row: Row, now: int, coll: Collation, d: Dialect,
          scope: Scope)
    requires n in schema
    ensures forall fn :: fn in {"_<_", "_>_", "_<=_", "_>=_", "_==_", "_!=_"} ==>
              CompareOpOf(fn).Some? &&
              EvalBool(Compared(fn, n, c), schema, row, now, coll, d, scope) ==
                CompareCel(CompareOpOf(fn).value, Stored(row, schema[n]), ConstVal(c))
  {
    hide EvalBool, CompareCel;
    forall fn | fn in {"_<_", "_>_", "_<=_", "_>=_", "_==_", "_!=_"}
      ensures CompareOpOf(fn).Some? &&
              EvalBool(Compared(fn, n, c), schema, row, now, coll, d, scope) ==
                CompareCel(CompareOpOf(fn).value, Stored(row, schema[n]), ConstVal(c))
    {
      ComparedMeaning(fn, n, c, schema, row, now, coll, d, scope);
    }
  }

  /** A field that holds a number, compared with a number. */
  lemma NumberTests(n: string, x: int, k: int, schema: Schema, row: Row, now: int, coll: Collation, d: Dialect,
          scope: Scope)
    requires n in schema && Stored(row, schema[n]) == VInt(x)
    ensures Says(EvalBool(Compared("_<_", n, CInt(k)), schema, row, now, coll, d, scope), x < k)
    ensures Says(EvalBool(Compared("_>_", n, CInt(k)), schema, row, now, coll, d, scope), x > k)
    ensures Says(EvalBool(Compared("_<=_", n, CInt(k)), schema, row, now, coll, d, scope), x <= k)
    ensures Says(EvalBool(Compared("_>=_", n, CInt(k)), schema, row, now, coll, d, scope), x >= k)
    ensures Says(EvalBool(Compared("_==_", n, CInt(k)), schema, row, now, coll, d, scope), x == k)
    ensures Says(EvalBool(Compared("_!=_", n, CInt(k)), schema, row, now, coll, d, scope), x != k)
  {
    hide EvalBool, Stored;
    AllCompared(n, CInt(k), schema, row, now, coll, d, scope);
  }

  /** `s` comes before `t`: where they first differ it has the smaller character, or it ends. */
  predicate Precedes(s: string, t: string)
  {
    exists i :: 0 <= i <= |s| && i < |t| && s[..i] == t[..i] && (i == |s| || s[i] < t[i])
  }

  lemma {:induction false} OrderOfTexts(s: string, t: string)
    ensures TextLess(s, t) <==> Precedes(s, t)
  {
    if s == "" {
      assert t != "" ==> s[..0] == t[..0];
    } else if t != "" {
      if s[0] == t[0] {
        OrderOfTexts(s[1..], t[1..]);
        if Precedes(s[1..], t[1..]) {
          var i :| 0 <= i <= |s[1..]| && i < |t[1..]| && s[1..][..i] == t[1..][..i]
                   && (i == |s[1..]| || s[1..][i] < t[1..][i]);
          assert s[..i + 1] == [s[0]] + s[1..][..i] && t[..i + 1] == [t[0]] + t[1..][..i];
          assert Precedes(s, t);
        }
        if Precedes(s, t) {
          var i :| 0 <= i <= |s| && i < |t| && s[..i] == t[..i] && (i == |s| || s[i] < t[i]);
          assert i > 0 && s[1..][..i - 1] == s[..i][1..] && t[1..][..i - 1] == t[..i][1..];
        }
      } else if s[0] < t[0] {
        assert s[..0] == t[..0];
      } else {
        forall i | 0 < i <= |s| && i < |t| ensures s[..i] != t[..i] {
          assert s[..i][0] == s[0] && t[..i][0] == t[0];
        }
      }
    }
  }

  /** A field that holds a text, compared with a text. */
  lemma TextTests(n: string, s: string, t: string, schema: Schema, row: Row, now: int, coll: Collation, d: Dialect,
          scope: Scope)
    requires n in schema && Stored(row, schema[n]) == VStr(s)
    ensures Says(EvalBool(Compared("_<_", n, CString(t)), schema, row, now, coll, d, scope), Precedes(s, t))
    ensures Says(EvalBool(Compared("_>_", n, CString(t)), schema, row, now, coll, d, scope), Precedes(t, s))
    ensures Says(EvalBool(Compared("_<=_", n, CString(t)), schema, row, now, coll, d, scope), Precedes(s, t) || s == t)
    ensures Says(EvalBool(Compared("_>=_", n, CString(t)), schema, row, now, coll, d, scope), Precedes(t, s) || s == t)
    ensures Says(EvalBool(Compared("_==_", n, CString(t)), schema, row, now, coll, d, scope), s == t)
    ensures Says(EvalBool(Compared("_!=_", n, CString(t)), schema, row, now, coll, d, scope), s != t)
  {
    OrderOfTexts(s, t);
    OrderOfTexts(t, s);
    hide TextLess, Precedes, EvalBool, Stored;
    AllCompared(n, CString(t), schema, row, now, coll, d, scope);
  }

  /** A flag compared with a flag. */
  lemma FlagTests(n: string, p: bool, q: bool, schema: Schema, row: Row, now: int, coll: Collation, d: Dialect,
          scope: Scope)
    requires n in schema && Stored(row, schema[n]) == VBool(p)
    ensures Says(EvalBool(Compared("_==_", n, CBool(q)), schema, row, now, coll, d, scope), p == q)
    ensures Says(EvalBool(Compared("_!=_", n, CBool(q)), schema, row, now, coll, d, scope), p != q)
  {
    hide EvalBool, Stored;
    AllCompared(n, CBool(q), schema, row, now, coll, d, scope);
  }

  /** A missing value: only comparing with null decides anything. */
  lemma MissingTests(fn: string, n: string, c: Constant, schema: Schema, row: Row, now: int, coll: Collation,
          d: Dialect, scope: Scope)
    requires n in schema
    ensures Says(EvalBool(Compared("_==_", n, CNull), schema, row, now, coll, d, scope),
                 Stored(row, schema[n]) == VNull)
    ensures Says(EvalBool(Compared("_!=_", n, CNull), schema, row, now, coll, d, scope),
                 Stored(row, schema[n]) != VNull)
    ensures fn in {"_<_", "_>_", "_<=_", "_>=_", "_==_", "_!=_"} && (c.CInt? || c.CString? || c.CBool?)
            && Stored(row, schema[n]) == VNull ==>
              EvalBool(Compared(fn, n, c), schema, row, now, coll, d, scope) == Unknown
  {
    hide EvalBool, Stored;
    AllCompared(n, CNull, schema, row, now, coll, d, scope);
    AllCompared(n, c, schema, row, now, coll, d, scope);
  }

  /** A number is never less than, equal to or greater than a text. */
  lemma MixedTests(n: string, k: int, s: string, schema: Schema, row: Row, now: int, coll: Collation, d: Dialect,
          scope: Scope)
    requires n in schema
    ensures Stored(row, schema[n]) == VStr(s) ==>
              forall fn :: fn in {"_<_", "_>_", "_<=_", "_>=_", "_==_", "_!=_"} ==>
                Says(EvalBool(Compared(fn, n, CInt(k)), schema, row, now, coll, d, scope), fn == "_!=_")
    ensures Stored(row, schema[n]) == VInt(k) ==>
              forall fn :: fn in {"_<_", "_>_", "_<=_", "_>=_", "_==_", "_!=_"} ==>
                Says(EvalBool(Compared(fn, n, CString(s)), schema, row, now, coll, d, scope), fn == "_!=_")
  {
    hide EvalBool, Stored;
    AllCompared(n, CInt(k), schema, row, now, coll, d, scope);
    AllCompared(n, CString(s), schema, row, now, coll, d, scope);
  }

  /** Where a row keeps the value of a field: under its path inside a JSON column, or in its column. */
  lemma WhereStored(row: Row, f: Field)
    ensures f.kind == JSONBool || f.kind == JSONList ==>
              Stored(row, f) == if (f.column, f.path) in row.json then row.json[(f.column, f.path)] else VNull
    ensures f.kind == Scalar || f.kind == BoolColumn ==>
              Stored(row, f) == if f.column in row.cells then row.cells[f.column] else VNull
  {
  }

  /** Where a memo keeps what its fields name: in the column of the same name, or in its payload. */
  lemma MemoFields(row: Row)
    ensures Stored(row, MEMO_SCHEMA["content"]) == Cell(row, Column("memo", "content"))
    ensures Stored(row, MEMO_SCHEMA["creator_id"]) == Cell(row, Column("memo", "creator_id"))
    ensures Stored(row, MEMO_SCHEMA["created_ts"]) == Cell(row, Column("memo", "created_ts"))
    ensures Stored(row, MEMO_SCHEMA["updated_ts"]) == Cell(row, Column("memo", "updated_ts"))
    ensures MEMO_SCHEMA["created_ts"].epoch && MEMO_SCHEMA["updated_ts"].epoch && !MEMO_SCHEMA["creator_id"].epoch
  {
    hide Cell, Json;
  }

  lemma MemoFlags(row: Row)
    ensures Stored(row, MEMO_SCHEMA["pinned"]) == Cell(row, Column("memo", "pinned"))
    ensures Stored(row, MEMO_SCHEMA["visibility"]) == Cell(row, Column("memo", "visibility"))
    ensures Stored(row, MEMO_SCHEMA["tags"]) == Json(row, Column("memo", "payload"), ["tags"])
    ensures Stored(row, MEMO_SCHEMA["has_task_list"]) ==
              Json(row, Column("memo", "payload"), ["property", "hasTaskList"])
    ensures Stored(row, MEMO_SCHEMA["has_link"]) == Json(row, Column("memo", "payload"), ["property", "hasLink"])
    ensures Stored(row, MEMO_SCHEMA["has_code"]) == Json(row, Column("memo", "payload"), ["property", "hasCode"])
    ensures Stored(row, MEMO_SCHEMA["has_incomplete_tasks"]) ==
              Json(row, Column("memo", "payload"), ["property", "hasIncompleteTasks"])
    ensures ResolveAlias(MEMO_SCHEMA, "tag") == Some(MEMO_SCHEMA["tags"])
  {
    hide Cell, Json;
  }

  // ----- Values

  /** The values of arithmetic. */
  lemma ArithmeticValues(a: Expr, b: Expr, i: int, j: int, schema: Schema, row: Row, now: int)
    requires EvalVal(a, schema, row, now) == VInt(i) && EvalVal(b, schema, row, now) == VInt(j)
    ensures EvalVal(Call("_+_", None, [a, b]), schema, row, now) == VInt(i + j)
    ensures EvalVal(Call("_-_", None, [a, b]), schema, row, now) == VInt(i - j)
    ensures EvalVal(Call("_*_", None, [a, b]), schema, row, now) == VInt(i * j)
  {
    PairValue("_+_", a, b, schema, row, now);
    PairValue("_-_", a, b, schema, row, now);
    PairValue("_*_", a, b, schema, row, now);
    hide EvalVal;
  }

  lemma PairValue(fn: string, a: Expr, b: Expr, schema: Schema, row: Row, now: int)
    requires fn in {"_+_", "_-_", "_*_"}
    requires EvalVal(a, schema, row, now).VInt? && EvalVal(b, schema, row, now).VInt?
    ensures EvalVal(Call(fn, None, [a, b]), schema, row, now) ==
            var i, j := EvalVal(a, schema, row, now).i, EvalVal(b, schema, row, now).i;
            VInt(if fn == "_+_" then i + j else if fn == "_-_" then i - j else i * j)
  {
    var args := [a, b];
    assert args[0] == a && args[1] == b;
  }

  /** The values of literals and of the clock. */
  lemma LiteralValues(i: int, n: nat, s: string, b: bool, schema: Schema, row: Row, now: int)
    ensures EvalVal(Const(CInt(i)), schema, row, now) == VInt(i)
    ensures EvalVal(Const(CUint(n)), schema, row, now) == VInt(n)
    ensures EvalVal(Const(CString(s)), schema, row, now) == VStr(s)
    ensures EvalVal(Const(CBool(b)), schema, row, now) == VBool(b)
    ensures EvalVal(Call("now", None, []), schema, row, now) == VInt(now)
  {
  }

  /** The size of a list is the number of its elements, none when it is missing. */
  lemma SizeValue(n: string, schema: Schema, row: Row, now: int)
    requires n in schema && (Stored(row, schema[n]).VList? || Stored(row, schema[n]).VNull?)
    ensures EvalVal(Call("size", None, [Ident(n)]), schema, row, now) ==
            VInt(if Stored(row, schema[n]).VNull? then 0 else |Stored(row, schema[n]).l|)
  {
    hide Stored;
    assert EvalVal(Ident(n), schema, row, now) == Stored(row, schema[n]);
  }

  // ----- Connectives

  /** `a && b`, `a || b` and `!a` in three-valued logic. */
  lemma Connected(a: Expr, b: Expr, schema: Schema, row: Row, now: int, coll: Collation, d: Dialect, scope: Scope)
    ensures var p, q := EvalBool(a, schema, row, now, coll, d, scope), EvalBool(b, schema, row, now, coll, d, scope);
            && (EvalBool(Call("_&&_", None, [a, b]), schema, row, now, coll, d, scope) == True <==>
                  p == True && q == True)
            && (EvalBool(Call("_&&_", None, [a, b]), schema, row, now, coll, d, scope) == False <==>
                  p == False || q == False)
            && (EvalBool(Call("_||_", None, [a, b]), schema, row, now, coll, d, scope) == True <==>
                  p == True || q == True)
            && (EvalBool(Call("_||_", None, [a, b]), schema, row, now, coll, d, scope) == False <==>
                  p == False && q == False)
            && (EvalBool(Call("!_", None, [a]), schema, row, now, coll, d, scope) == True <==> p == False)
            && (EvalBool(Call("!_", None, [a]), schema, row, now, coll, d, scope) == False <==> p == True)
  {
    hide EvalBool;
    AndOf(a, b, schema, row, now, coll, d, scope);
    OrOf(a, b, schema, row, now, coll, d, scope);
    NotOf(a, schema, row, now, coll, d, scope);
  }

  lemma AndOf(a: Expr, b: Expr, schema: Schema, row: Row, now: int, coll: Collation, d: Dialect, scope: Scope)
    ensures EvalBool(Call("_&&_", None, [a, b]), schema, row, now, coll, d, scope) ==
            And3(EvalBool(a, schema, row, now, coll, d, scope), EvalBool(b, schema, row, now, coll, d, scope))
  {
    var args := [a, b];
    assert args[0] == a && args[1] == b;
    hide CompareOpOf, And3;
  }

  lemma OrOf(a: Expr, b: Expr, schema: Schema, row: Row, now: int, coll: Collation, d: Dialect, scope: Scope)
    ensures EvalBool(Call("_||_", None, [a, b]), schema, row, now, coll, d, scope) ==
            Or3(EvalBool(a, schema, row, now, coll, d, scope), EvalBool(b, schema, row, now, coll, d, scope))
  {
    var args := [a, b];
    assert args[0] == a && args[1] == b;
    hide CompareOpOf, Or3;
  }

  lemma NotOf(a: Expr, schema: Schema, row: Row, now: int, coll: Collation, d: Dialect, scope: Scope)
    ensures EvalBool(Call("!_", None, [a]), schema, row, now, coll, d, scope) ==
            Not3(EvalBool(a, schema, row, now, coll, d, scope))
  {
    var args := [a];
    assert args[0] == a;
    hide CompareOpOf, Not3;
  }

  /** Bare literals and bare flags. */
  lemma BareTests(b: bool, i: int, n: string, schema: Schema, row: Row, now: int, coll: Collation, d: Dialect)
    ensures Says(EvalBool(Const(CBool(b)), schema, row, now, coll, d, NoScope), b)
    ensures Says(EvalBool(Const(CInt(i)), schema, row, now, coll, d, NoScope), i != 0)
    ensures n in schema ==>
              Says(EvalBool(Ident(n), schema, row, now, coll, d, NoScope), Stored(row, schema[n]) == VBool(true))
  {
  }

  // ----- Lists and texts

  function Numbers(ks: seq<int>): seq<Expr> { seq(|ks|, i requires 0 <= i < |ks| => Const(CInt(ks[i]))) }

  function Texts(ss: seq<string>): seq<Expr> { seq(|ss|, i requires 0 <= i < |ss| => Const(CString(ss[i]))) }

  function Within(n: string, es: seq<Expr>): Expr { Call("@in", None, [Ident(n), ListExpr(es)]) }

  lemma WithinMeaning(n: string, es: seq<Expr>, schema: Schema, row: Row, now: int, coll: Collation, d: Dialect,
          scope: Scope)
    requires n in schema
    ensures EvalBool(Within(n, es), schema, row, now, coll, d, scope) ==
              EvalIn(schema[n], Values(es, schema, row, now), schema, row, coll, d)
  {
    var args := Within(n, es).args;
    assert args[0] == Ident(n) && args[1] == ListExpr(es);
    hide EvalIn, Values;
  }

  /** `n in [...]` for a field that holds a number or a text. */
  lemma ListTests(n: string, ks: seq<int>, ss: seq<string>, schema: Schema, row: Row, now: int, coll: Collation,
          d: Dialect, scope: Scope)
    requires n in schema && schema[n].kind != VirtualAlias
    ensures Stored(row, schema[n]).VInt? ==>
              Says(EvalBool(Within(n, Numbers(ks)), schema, row, now, coll, d, scope), Stored(row, schema[n]).i in ks)
    ensures Stored(row, schema[n]).VStr? ==>
              Says(EvalBool(Within(n, Texts(ss)), schema, row, now, coll, d, scope), Stored(row, schema[n]).s in ss)
  {
    hide Stored;
    WithinMeaning(n, Numbers(ks), schema, row, now, coll, d, scope);
    WithinMeaning(n, Texts(ss), schema, row, now, coll, d, scope);
    NumberList(ks, schema, row, now);
    TextList(ss, schema, row, now);
    hide Values, EvalBool;
  }

  lemma NumberList(ks: seq<int>, schema: Schema, row: Row, now: int)
    ensures var vs := Values(Numbers(ks), schema, row, now);
            (vs == [] <==> ks == []) && forall k :: VInt(k) in vs <==> k in ks
  {
    var vs := Values(Numbers(ks), schema, row, now);
    assert forall i :: 0 <= i < |ks| ==> vs[i] == VInt(ks[i]);
    forall k ensures VInt(k) in vs <==> k in ks {
      if k in ks {
        var i :| 0 <= i < |ks| && ks[i] == k;
        assert vs[i] == VInt(k);
      }
    }
  }

  lemma TextList(ss: seq<string>, schema: Schema, row: Row, now: int)
    ensures var vs := Values(Texts(ss), schema, row, now);
            && |vs| == |ss| && (forall i :: 0 <= i < |ss| ==> vs[i] == VStr(ss[i]))
            && forall s :: VStr(s) in vs <==> s in ss
  {
    var vs := Values(Texts(ss), schema, row, now);
    assert forall i :: 0 <= i < |ss| ==> vs[i] == VStr(ss[i]);
    forall s ensures VStr(s) in vs <==> s in ss {
      if s in ss {
        var i :| 0 <= i < |ss| && ss[i] == s;
        assert vs[i] == VStr(s);
      }
    }
  }

  /** Equal up to letter case. */
  predicate Alike(s: string, t: string, fold: Like.Fold)
  {
    |s| == |t| && forall i :: 0 <= i < |s| ==> fold(s[i]) == fold(t[i])
  }

  /** `p` is the part of `t` from `i` on, up to letter case. */
  predicate PartIs(t: string, i: int, p: string, fold: Like.Fold)
  {
    0 <= i && i + |p| <= |t| && Alike(t[i..i + |p|], p, fold)
  }

  /** Some part of `t` is `p`, up to letter case. */
  predicate SomePartIs(t: string, p: string, fold: Like.Fold) { exists i :: 0 <= i <= |t| && PartIs(t, i, p, fold) }

  /** The tests of texts, on the parts of the text. */
  lemma PartsOfText(t: string, p: string, fold: Like.Fold)
    ensures Like.Has(t, p, fold) <==> SomePartIs(t, p, fold)
    ensures Like.StartsWith(t, p, fold) <==> PartIs(t, 0, p, fold)
    ensures Like.EndsWith(t, p, fold) <==> PartIs(t, |t| - |p|, p, fold)
    ensures Like.SameUpToCase(t, p, fold) <==> Alike(t, p, fold)
  {
    forall i ensures Like.Here(p, t, i, fold) <==> PartIs(t, i, p, fold) {
      if 0 <= i <= i + |p| <= |t| {
        var part := t[i..i + |p|];
        assert forall k :: 0 <= k < |p| ==> part[k] == t[i + k];
      }
    }
    if |p| == |t| { assert t[0..|p|] == t; }
  }

  /** `n.contains(s)` for a field that holds a text. */
  lemma ContainsTest(n: string, s: string, t: string, schema: Schema, row: Row, now: int, coll: Collation, d: Dialect)
    requires n in schema && Stored(row, schema[n]) == VStr(t)
    ensures Says(EvalBool(Call("contains", Some(Ident(n)), [Const(CString(s))]), schema, row, now, coll, d, NoScope),
                 SomePartIs(t, s, coll.text))
  {
    hide Like.Has, Stored, SomePartIs;
    PartsOfText(t, s, coll.text);
    assert EvalVal(Const(CString(s)), schema, row, now) == VStr(s);
    assert EvalVal(Ident(n), schema, row, now) == VStr(t);
  }

  // ----- Tags

  /** `"s" in n` for a list: an equal element, up to letter case in SQLite. */
  predicate SomeIs(tags: seq<string>, s: string, coll: Collation, d: Dialect)
  {
    exists i :: 0 <= i < |tags| && (if d == SQLite then Alike(tags[i], s, coll.json) else tags[i] == s)
  }

  /** Some element lies under `s`. */
  predicate SomeUnder(tags: seq<string>, s: string, fold: Like.Fold)
  {
    exists i :: 0 <= i < |tags| && PartIs(tags[i], 0, s + "/", fold)
  }

  lemma ListedTag(tags: seq<string>, s: string, coll: Collation, d: Dialect)
    ensures TagListed(tags, s, coll, d) <==> SomeIs(tags, s, coll, d) || SomeUnder(tags, s, coll.json)
    ensures (if d == SQLite then Like.SomeTagIs(tags, s, coll.json) else s in tags) <==> SomeIs(tags, s, coll, d)
  {
    hide Like.SameUpToCase, Like.StartsWith, Alike, PartIs;
    forall i | 0 <= i < |tags| ensures
      && (Like.SameUpToCase(tags[i], s, coll.json) <==> Alike(tags[i], s, coll.json))
      && (Like.StartsWith(tags[i], s + "/", coll.json) <==> PartIs(tags[i], 0, s + "/", coll.json))
    {
      PartsOfText(tags[i], s, coll.json);
      PartsOfText(tags[i], s + "/", coll.json);
    }
  }

  /** `"s" in tags`, and `tag in [...]`, which also counts what lies under a listed tag. */
  lemma TagTests(n: string, alias: string, s: string, ss: seq<string>, schema: Schema, row: Row, now: int,
          coll: Collation, d: Dialect, scope: Scope)
    requires n in schema && Stored(row, schema[n]).VList?
    requires alias in schema && schema[alias] == schema[alias].(kind := VirtualAlias, name := alias, aliasFor := n)
    ensures Says(EvalBool(Call("@in", None, [Const(CString(s)), Ident(n)]), schema, row, now, coll, d, scope),
                 SomeIs(Stored(row, schema[n]).l, s, coll, d))
    ensures Says(EvalBool(Within(alias, Texts(ss)), schema, row, now, coll, d, scope),
                 exists k :: 0 <= k < |ss| && (SomeIs(Stored(row, schema[n]).l, ss[k], coll, d)
                                               || SomeUnder(Stored(row, schema[n]).l, ss[k], coll.json)))
  {
    hide Stored, TagListed, SomeIs, SomeUnder, Like.SomeTagIs;
    var tags := Stored(row, schema[n]).l;
    ElementTruth(n, s, schema, row, now, coll, d, scope);
    ListedTag(tags, s, coll, d);
    WithinMeaning(alias, Texts(ss), schema, row, now, coll, d, scope);
    TextList(ss, schema, row, now);
    forall k | 0 <= k < |ss|
      ensures TagListed(tags, ss[k], coll, d) <==> SomeIs(tags, ss[k], coll, d) || SomeUnder(tags, ss[k], coll.json)
    {
      ListedTag(tags, ss[k], coll, d);
    }
    hide EvalBool, Values;
  }

  lemma ElementTruth(n: string, s: string, schema: Schema, row: Row, now: int, coll: Collation, d: Dialect,
          scope: Scope)
    requires n in schema && Stored(row, schema[n]).VList?
    ensures var tags := Stored(row, schema[n]).l;
            Says(EvalBool(Call("@in", None, [Const(CString(s)), Ident(n)]), schema, row, now, coll, d, scope),
                 if d == SQLite then Like.SomeTagIs(tags, s, coll.json) else s in tags)
  {
    hide Stored, Like.SomeTagIs;
    var args := [Const(CString(s)), Ident(n)];
    assert args[0] == Const(CString(s)) && args[1] == Ident(n);
    assert EvalVal(args[0], schema, row, now) == VStr(s);
    assert EvalVal(args[1], schema, row, now) == Stored(row, schema[n]);
  }

  /** `n.exists(x, x.fn("s"))`, for a list that may be missing. */
  function SomeElement(fn: string, x: string, n: string, s: string): Expr
  {
    Expand(ExistsMacro, x, Ident(n), Call(fn, Some(Ident(x)), [Const(CString(s))]))
  }

  lemma ExistsTests(x: string, n: string, s: string, tags: seq<string>, schema: Schema, row: Row, now: int,
          coll: Collation, d: Dialect)
    requires n in schema && x != ACCU
    requires Stored(row, schema[n]) == VList(tags) || (Stored(row, schema[n]) == VNull && tags == [])
    ensures Says(EvalBool(SomeElement("startsWith", x, n, s), schema, row, now, coll, d, NoScope),
                 exists i :: 0 <= i < |tags| && PartIs(tags[i], 0, s, coll.json))
    ensures Says(EvalBool(SomeElement("endsWith", x, n, s), schema, row, now, coll, d, NoScope),
                 exists i :: 0 <= i < |tags| && PartIs(tags[i], |tags[i]| - |s|, s, coll.json))
    ensures Says(EvalBool(SomeElement("contains", x, n, s), schema, row, now, coll, d, NoScope),
                 exists i :: 0 <= i < |tags| && SomePartIs(tags[i], s, coll.json))
  {
    hide EvalBool, PartIs, SomePartIs, Like.StartsWith, Like.EndsWith, Like.Has, Stored;
    ExistsTruth("startsWith", x, n, s, tags, schema, row, now, coll, d);
    ExistsTruth("endsWith", x, n, s, tags, schema, row, now, coll, d);
    ExistsTruth("contains", x, n, s, tags, schema, row, now, coll, d);
    forall i | 0 <= i < |tags| ensures
      && (Like.StartsWith(tags[i], s, coll.json) <==> PartIs(tags[i], 0, s, coll.json))
      && (Like.EndsWith(tags[i], s, coll.json) <==> PartIs(tags[i], |tags[i]| - |s|, s, coll.json))
      && (Like.Has(tags[i], s, coll.json) <==> SomePartIs(tags[i], s, coll.json))
    {
      PartsOfText(tags[i], s, coll.json);
    }
    hide SomeElement;
  }

  lemma ExistsTruth(fn: string, x: string, n: string, s: string, tags: seq<string>, schema: Schema, row: Row, now: int,
          coll: Collation, d: Dialect)
    requires n in schema && x != ACCU && fn in {"startsWith", "endsWith", "contains"}
    requires Stored(row, schema[n]) == VList(tags) || (Stored(row, schema[n]) == VNull && tags == [])
    ensures Says(EvalBool(SomeElement(fn, x, n, s), schema, row, now, coll, d, NoScope),
                 SomeTagPasses(tags, fn, s, coll.json))
  {
    hide EvalBool, EvalLoop, TagTest, SomeTagPasses, Stored;
    var e := SomeElement(fn, x, n, s);
    StartMeaning(e, schema, row, now, coll, d);
    assert EvalVal(Ident(n), schema, row, now) == Stored(row, schema[n]);
    LoopMeaning(e, tags, False, fn, s, schema, row, now, d, coll);
    ResultMeaning(e, tags, schema, row, now, d, coll);
  }

  lemma StartMeaning(e: Expr, schema: Schema, row: Row, now: int, coll: Collation, d: Dialect)
    requires e.Comprehension? && e.accuInit == Const(CBool(false))
    ensures EvalBool(e.accuInit, schema, row, now, coll, d, NoScope) == False
  {
  }

  // ----- The text of a condition

  /** `a OR b AND NOT c`: NOT binds tightest and OR loosest. */
  lemma TextTruth(a: Leaf<Val>, b: Leaf<Val>, c: Leaf<Val>, row: Row, d: Dialect, coll: Collation)
    requires !IsUnreadable(a, d) && !IsUnreadable(b, d) && !IsUnreadable(c, d)
    ensures var read := Read([LeafT(a), OrT, LeafT(b), AndT, NotT, LeafT(c)], d);
            && read.Some?
            && (Eval(read.value, row, d, coll) == True <==>
                  EvalLeaf(a, row, d, coll) == True
                  || (EvalLeaf(b, row, d, coll) == True && EvalLeaf(c, row, d, coll) == False))
            && (Eval(read.value, row, d, coll) == False <==>
                  EvalLeaf(a, row, d, coll) == False
                  && (EvalLeaf(b, row, d, coll) == False || EvalLeaf(c, row, d, coll) == True))
  {
    hide EvalLeaf;
    var negated: Tree<Val> := TNot(TLeaf(c));
    var both: Tree<Val> := TAnd([TLeaf(b), negated]);
    ReadsThree(a, b, c, d);
    var either: Tree<Val> := TOr([TLeaf(a), both]);
    PairTruths(TLeaf(b), negated, row, d, coll);
    PairTruths(TLeaf(a), both, row, d, coll);
    assert Eval(negated, row, d, coll) == Not3(EvalLeaf(c, row, d, coll));
    assert Eval(either, row, d, coll) == Or3(EvalLeaf(a, row, d, coll), Eval(both, row, d, coll));
  }

  lemma PairTruths(a: Tree<Val>, b: Tree<Val>, row: Row, d: Dialect, coll: Collation)
    ensures Eval(TAnd([a, b]), row, d, coll) == And3(Eval(a, row, d, coll), Eval(b, row, d, coll))
    ensures Eval(TOr([a, b]), row, d, coll) == Or3(Eval(a, row, d, coll), Eval(b, row, d, coll))
  {
    var ts := EvalAll([a, b], row, d, coll);
    assert ts[1..] == [ts[1]] && ts[1..][1..] == [];
    assert Or3All(ts[1..]) == Or3(ts[1], Or3All([]));
    assert And3All(ts[1..]) == And3(ts[1], And3All([]));
  }

  lemma ReadsThree(a: Leaf<Val>, b: Leaf<Val>, c: Leaf<Val>, d: Dialect)
    requires !IsUnreadable(a, d) && !IsUnreadable(b, d) && !IsUnreadable(c, d)
    ensures Read([LeafT(a), OrT, LeafT(b), AndT, NotT, LeafT(c)], d) ==
              Some(TOr([TLeaf(a), TAnd([TLeaf(b), TNot(TLeaf(c))])]))
  {
    var ts: seq<Token<Val>> := [LeafT(a), OrT, LeafT(b), AndT, NotT, LeafT(c)];
    assert ts[2..] == [LeafT(b), AndT, NotT, LeafT(c)] && ts[1..][1..] == ts[2..];
    ReadsTwo(b, c, d);
    assert ReadPrimary(ts, d) == Some((TLeaf(a), ts[1..]));
    hide ReadPrimary;
    assert ReadAnds(ts, d) == Some(([TLeaf(a)], ts[1..]));
    hide ReadAnds;
    var both: Tree<Val> := TAnd([TLeaf(b), TNot(TLeaf(c))]);
    assert ReadOrs(ts[2..], d) == Some(([both], []));
    assert [TLeaf(a)] + [both] == [TLeaf(a), both];
    assert ReadOrs(ts, d) == Some(([TLeaf(a), both], []));
  }

  lemma ReadsTwo(b: Leaf<Val>, c: Leaf<Val>, d: Dialect)
    requires !IsUnreadable(b, d) && !IsUnreadable(c, d)
    ensures ReadAnds([LeafT(b), AndT, NotT, LeafT(c)], d) == Some(([TLeaf(b), TNot(TLeaf(c))], []))
  {
    var ts: seq<Token<Val>> := [LeafT(b), AndT, NotT, LeafT(c)];
    assert ts[2..] == [NotT, LeafT(c)] && ts[1..][1..] == ts[2..];
    assert ts[3..] == [LeafT(c)] && ts[2..][1..] == ts[3..] && ts[3..][1..] == [];
    assert ReadPrimary(ts[2..], d) == Some((TNot(TLeaf(c)), []));
    assert ReadPrimary(ts, d) == Some((TLeaf(b), ts[1..]));
    hide ReadPrimary;
    assert ReadAnds(ts[2..], d) == Some(([TNot(TLeaf(c))], []));
    assert [TLeaf(b)] + [TNot(TLeaf(c))] == [TLeaf(b), TNot(TLeaf(c))];
  }

  /** The text LIKE sees of a list: SQLite stores it without blanks, the other dialects print one. */
  lemma ListTexts(d: Dialect)
    ensures LikeText(VList([]), d) == Some("[]") && LikeText(VList(["a"]), d) == Some("[\"a\"]")
    ensures LikeText(VList(["a", "b"]), d) ==
              Some(if d == SQLite then "[\"a\",\"b\"]" else "[\"a\", \"b\"]")
    ensures LikeText(VStr("a"), d) == Some("a") && LikeText(VNull, d) == None
  {
    var sep := Separator(d);
    assert Like.Quote("a") == "\"a\"" && Like.Quote("b") == "\"b\"";
    assert ["a", "b"][1..] == ["b"] && Like.Items(["b"], sep) == Like.Quote("b");
    assert Like.JsonText([], sep) == "[" + "" + "]" == "[]";
    assert Like.JsonText(["a"], sep) == "[" + Like.Quote("a") + "]" == "[\"a\"]";
    assert Like.JsonText(["a", "b"], sep) == "[" + (Like.Quote("a") + sep + Like.Quote("b")) + "]";
    assert "[" + ("\"a\"" + "," + "\"b\"") + "]" == "[\"a\",\"b\"]";
    assert "[" + ("\"a\"" + ", " + "\"b\"") + "]" == "[\"a\", \"b\"]";
  }

  // ----- Down to the rows a statement selects

  /** What a comparison asks of a stored number or text. */
  predicate Related(fn: string, v: Val, c: Constant)
  {
    match (v, c)
    case (VInt(x), CInt(k)) =>
      if fn == "_<_" then x < k else if fn == "_>_" then x > k else if fn == "_<=_" then x <= k
      else if fn == "_>=_" then x >= k else if fn == "_==_" then x == k else x != k
    case (VStr(s), CString(t)) =>
      if fn == "_<_" then Precedes(s, t) else if fn == "_>_" then Precedes(t, s)
      else if fn == "_<=_" then Precedes(s, t) || s == t else if fn == "_>=_" then Precedes(t, s) || s == t
      else if fn == "_==_" then s == t else s != t
    case _ => false
  }

  /** A number compared with a field of numbers or times, or a text with a field of texts. */
  predicate SameType(v: Val, c: Constant, f: Field)
  {
    if f.typ == StringType then v.VStr? && c.CString? else v.VInt? && c.CInt? && f.typ != BoolType
  }

  lemma RelatedTests(fn: string, n: string, c: Constant, schema: Schema, row: Row, now: int, coll: Collation,
          d: Dialect)
    requires n in schema && SameType(Stored(row, schema[n]), c, schema[n])
    requires fn in {"_<_", "_>_", "_<=_", "_>=_", "_==_", "_!=_"}
    ensures Says(EvalBool(Compared(fn, n, c), schema, row, now, coll, d, NoScope),
                 Related(fn, Stored(row, schema[n]), c))
  {
    hide EvalBool, Precedes, Stored;
    match Stored(row, schema[n]) {
      case VInt(x) => NumberTests(n, x, c.i, schema, row, now, coll, d, NoScope);
      case VStr(s) => TextTests(n, s, c.s, schema, row, now, coll, d, NoScope);
      case _ =>
    }
  }

  /** Read with its arguments, the text decides the row in this way. */
  predicate Decides(s: Statement, d: Dialect, row: Row, coll: Collation, b: bool)
  {
    Reading(s.sql, 0, s.args, d).Some? && Says(Eval(Reading(s.sql, 0, s.args, d).value, row, d, coll), b)
  }

  /** Compiled and read back with its argument, `n fn c` selects exactly the rows whose value relates to
      the literal in this way; fields of equality only take no other operator. */
  method CompileComparison(fn: string, n: string, c: Constant, schema: Schema, now: int, d: Dialect)
    returns (res: Result<Statement, CompileError>)
    requires ValidSchema(schema) && n in schema && schema[n].kind == Scalar
    requires if schema[n].typ == StringType then c.CString? else c.CInt? && schema[n].typ != BoolType
    requires fn in {"_<_", "_>_", "_<=_", "_>=_", "_==_", "_!=_"}
    requires schema[n].allowed == None || schema[n].allowed == Some({Eq, Neq})
    ensures res.Ok? <==> schema[n].allowed == None || fn == "_==_" || fn == "_!=_"
    ensures res.Ok? ==> res.value.args == [if c.CInt? then VInt(c.i) else VStr(c.s)]
    ensures res.Ok? ==> forall row, coll ::
              Fits(row, schema, coll) && SameType(Stored(row, schema[n]), c, schema[n]) ==>
                Decides(res.value, d, row, coll, Related(fn, Stored(row, schema[n]), c))
  {
    hide Compiles, StatementOf, ValidSchema, Stored, SameType, Related, Fits, Decides;
    var e := Compared(fn, n, c);
    ComparisonCompiles(fn, n, c, schema, now, d);
    res := CompileToStatement(e, schema, now, d, 0);
    if res.Ok? {
      forall row, coll | Fits(row, schema, coll) && SameType(Stored(row, schema[n]), c, schema[n])
        ensures Decides(res.value, d, row, coll, Related(fn, Stored(row, schema[n]), c))
      {
        ComparisonDecides(fn, n, c, schema, row, now, d, coll);
      }
    }
  }

  lemma ComparisonCompiles(fn: string, n: string, c: Constant, schema: Schema, now: int, d: Dialect)
    requires ValidSchema(schema) && n in schema && schema[n].kind == Scalar
    requires if schema[n].typ == StringType then c.CString? else c.CInt? && schema[n].typ != BoolType
    requires fn in {"_<_", "_>_", "_<=_", "_>=_", "_==_", "_!=_"}
    requires schema[n].allowed == None || schema[n].allowed == Some({Eq, Neq})
    ensures Compiles(Compared(fn, n, c), schema, now, d) <==>
              schema[n].allowed == None || fn == "_==_" || fn == "_!=_"
    ensures Compiles(Compared(fn, n, c), schema, now, d) ==>
              var e, arg := Compared(fn, n, c), if c.CInt? then VInt(c.i) else VStr(c.s);
              && ArgsOf(e, schema, now, d) == [arg] && StatementOf(e, schema, now, d, 0).args == [arg]
              && FoldedOf(e, schema, now, d).Holds?
              && ConditionOf(e, schema, now, d).Comparison?
  {
    var e := Compared(fn, n, c);
    var args := e.args;
    assert args[0] == Ident(n) && args[1] == Const(c);
    var lit := if c.CInt? then LInt(c.i) else LStr(c.s);
    var op := CompareOpOf(fn).value;
    assert BuildValue(args[0], schema, now) == Ok(FieldRef(n));
    assert BuildValue(args[1], schema, now) == Ok(LiteralValue(lit));
    ConditionBuilt(fn, n, c, lit, schema, now);
    hide BuildCondition;
    if schema[n].allowed == None || fn == "_==_" || fn == "_!=_" {
      TestFolds(n, op, lit, schema, d);
    }
  }

  /** The text of a comparison: the column, as seconds where MySQL keeps a timestamp, against the first
      argument. */
  lemma ComparisonText(fn: string, n: string, c: Constant, schema: Schema, now: int, d: Dialect)
    requires ValidSchema(schema) && n in schema && schema[n].kind == Scalar && schema[n].allowed == None
    requires if schema[n].typ == StringType then c.CString? else c.CInt? && schema[n].typ != BoolType
    requires fn in {"_<_", "_>_", "_<=_", "_>=_", "_==_", "_!=_"}
    ensures Compiles(Compared(fn, n, c), schema, now, d)
    ensures StatementOf(Compared(fn, n, c), schema, now, d, 0).sql ==
              [LeafT(Compare(ColumnOp(schema[n].column, schema[n].epoch),
                             if fn == "_<_" then Lt else if fn == "_>_" then Gt else if fn == "_<=_" then Lte
                             else if fn == "_>=_" then Gte else if fn == "_==_" then Eq else Neq,
                             if d == Postgres then Dollar(1) else Question))]
  {
    ComparisonCompiles(fn, n, c, schema, now, d);
    var e := Compared(fn, n, c);
    var lit := if c.CInt? then LInt(c.i) else LStr(c.s);
    ConditionBuilt(fn, n, c, lit, schema, now);
    hide BuildCondition;
    var op := CompareOpOf(fn).value;
    var l: Leaf<Val> := Compare(ColumnExpr(schema[n]), op, LitVal(lit));
    assert BasicTree(ConditionOf(e, schema, now, d), schema, d) == Ok(TLeaf(l));
    assert FoldedOf(e, schema, now, d) == Holds(TLeaf(NumberLeaf(l, 0)));
  }

  /** A bare flag is asked for in its own column or under its path. */
  lemma FlagText(n: string, schema: Schema, now: int, d: Dialect)
    requires n in schema && schema[n].typ == BoolType && (schema[n].kind == BoolColumn || schema[n].kind == JSONBool)
    ensures Compiles(Ident(n), schema, now, d)
    ensures StatementOf(Ident(n), schema, now, d, 0) ==
              Statement([LeafT(IsTrue(if schema[n].kind == JSONBool then JsonOp(schema[n].column, schema[n].path)
                                      else ColumnOp(schema[n].column, false)))], [])
  {
    assert BuildCondition(Ident(n), schema, now) == Ok(FieldPredicate(n));
  }

  lemma ConditionBuilt(fn: string, n: string, c: Constant, lit: Literal, schema: Schema, now: int)
    requires n in schema && schema[n].kind == Scalar && CompareOpOf(fn).Some?
    requires GetConstValue(Const(c)) == Some(lit)
    ensures BuildCondition(Compared(fn, n, c), schema, now) ==
            if schema[n].allowed.Some? && CompareOpOf(fn).value !in schema[n].allowed.value then Err(OperatorNotAllowed)
            else Ok(Comparison(FieldRef(n), CompareOpOf(fn).value, LiteralValue(lit)))
  {
    var args := Compared(fn, n, c).args;
    assert args[0] == Ident(n) && args[1] == Const(c);
  }

  lemma TestFolds(n: string, op: CompareOp, lit: Literal, schema: Schema, d: Dialect)
    requires n in schema && schema[n].kind == Scalar
    requires if schema[n].typ == StringType then lit.LStr? else lit.LInt? && schema[n].typ != BoolType
    ensures var cond := Comparison(FieldRef(n), op, LiteralValue(lit));
            && Fold(cond, schema, d, 0).Ok? && Fold(cond, schema, d, 0).value.Holds?
            && AllArgs(cond, schema, d) == [LitVal(lit)]
  {
    var cond := Comparison(FieldRef(n), op, LiteralValue(lit));
    assert BasicTree(cond, schema, d) == Ok(TLeaf(Compare(ColumnExpr(schema[n]), op, LitVal(lit))));
  }

  lemma ComparisonDecides(fn: string, n: string, c: Constant, schema: Schema, row: Row, now: int, d: Dialect,
          coll: Collation)
    requires n in schema && schema[n].kind == Scalar && Compiles(Compared(fn, n, c), schema, now, d)
    requires if schema[n].typ == StringType then c.CString? else c.CInt? && schema[n].typ != BoolType
    requires fn in {"_<_", "_>_", "_<=_", "_>=_", "_==_", "_!=_"}
    requires schema[n].allowed == None || schema[n].allowed == Some({Eq, Neq})
    requires Fits(row, schema, coll) && SameType(Stored(row, schema[n]), c, schema[n])
    ensures Decides(StatementOf(Compared(fn, n, c), schema, now, d, 0), d, row, coll,
                    Related(fn, Stored(row, schema[n]), c))
  {
    hide Related, Stored, SameType, Compiles, EvalBool, Eval, Reading;
    var e := Compared(fn, n, c);
    ComparisonCompiles(fn, n, c, schema, now, d);
    RelatedTests(fn, n, c, schema, row, now, coll, d);
    ComparisonIsFaithful(fn, n, c, schema, row, now, d);
    TextNotEmpty(FoldedOf(e, schema, now, d).tree, d, 0);
    hide FoldedOf, ConditionOf, ArgsOf, Faithful, Fits;
    var args := StatementOf(e, schema, now, d, 0).args;
    assert args[0..|args|] == args;
    StatementMeansFilter(e, schema, now, d, 0, args, row, coll);
  }

  lemma ComparisonIsFaithful(fn: string, n: string, c: Constant, schema: Schema, row: Row, now: int, d: Dialect)
    requires n in schema && schema[n].kind == Scalar && (c.CInt? || c.CString?)
    requires fn in {"_<_", "_>_", "_<=_", "_>=_", "_==_", "_!=_"}
    ensures Faithful(Compared(fn, n, c), schema, row, now, d)
  {
    var args := Compared(fn, n, c).args;
    assert args[0] == Ident(n) && args[1] == Const(c);
    assert CompareOpOf(fn).Some?;
  }

  /** A memo created at `ts`, and nothing else known of it. */
  function CreatedAt(ts: int): Row { FilterRows.Row(map[Column("memo", "created_ts") := VInt(ts)], map[]) }

  lemma CreatedFits(ts: int, coll: Collation)
    requires Like.KeepsStructure(coll.json)
    ensures Fits(CreatedAt(ts), MEMO_SCHEMA, coll)
    ensures Stored(CreatedAt(ts), MEMO_SCHEMA["created_ts"]) == VInt(ts)
  {
    hide ValidSchema;
    MemoSchemaIsValid();
  }

  /** `created_ts < 100` selects what was created at 50, not what was created at 150, in every dialect. */
  method CreatedBefore(now: int, d: Dialect, coll: Collation) returns (res: Result<Statement, CompileError>)
    requires Like.KeepsStructure(coll.json)
    ensures res.Ok?
    ensures Decides(res.value, d, CreatedAt(50), coll, true) && Decides(res.value, d, CreatedAt(150), coll, false)
  {
    hide Decides;
    MemoSchemaIsValid();
    CreatedFits(50, coll);
    CreatedFits(150, coll);
    hide Fits, Stored, CreatedAt, ValidSchema;
    res := CompileComparison("_<_", "created_ts", CInt(100), MEMO_SCHEMA, now, d);
  }
}
