/** The memos a query selects, field by field. */
module FilterQueries {
  import opened Wrappers
  import opened FilterSchema
  import opened FilterRows
  import opened Cel
  import opened Sql
  import opened FilterFold
  import opened FilterArgs
  import opened FilterMeaning
  import opened FilterRender
  import opened FilterBuild

  /** The row satisfies every filter and has, in each column, a value that was asked for. Memos are told
      from comments by the relation in PostgreSQL and by the joined parent elsewhere. */
  ghost predicate Selected(find: FindMemo, schema: Schema, row: Row, now: int, d: Dialect, coll: Collation)
  {
    && (forall k :: 0 <= k < |find.filters| ==>
          EvalBool(find.filters[k], schema, row, now, coll, d, NoScope) == True)
    && (find.id.Some? ==> Cell(row, Column("memo", "id")) == VInt(find.id.value))
    && (find.idList != [] ==> exists i :: i in find.idList && Cell(row, Column("memo", "id")) == VInt(i))
    && (find.uid.Some? ==> Cell(row, Column("memo", "uid")) == VStr(find.uid.value))
    && (find.uidList != [] ==> exists s :: s in find.uidList && Cell(row, Column("memo", "uid")) == VStr(s))
    && (find.creatorID.Some? ==> Cell(row, Column("memo", "creator_id")) == VInt(find.creatorID.value))
    && (find.rowStatus.Some? ==> Cell(row, Column("memo", "row_status")) == VStr(find.rowStatus.value))
    && (find.visibilityList != [] ==>
          exists s :: s in find.visibilityList && Cell(row, Column("memo", "visibility")) == VStr(s))
    && (find.excludeComments ==>
          Cell(row, if d == Postgres then Column("memo_relation", "related_memo_id")
                    else Column("", "parent_uid")) == VNull)
  }

  /** The row has no truth value where numbers and texts are kept, and every filter is meant for it. */
  ghost predicate Suits(find: FindMemo, schema: Schema, row: Row, now: int, d: Dialect, coll: Collation)
  {
    && Fits(row, schema, coll)
    && (forall name :: name in {"id", "uid", "creator_id", "row_status", "visibility"} ==>
          !Cell(row, Column("memo", name)).VBool?)
    && forall k :: 0 <= k < |find.filters| ==> Faithful(find.filters[k], schema, row, now, d)
  }

  // ----- Clauses that all hold

  ghost predicate AllHold(cs: seq<Clause>, schema: Schema, row: Row, now: int, d: Dialect, coll: Collation)
  {
    forall k :: 0 <= k < |cs| ==> ClauseTruth(cs[k], schema, row, now, d, coll) == True
  }

  lemma {:induction false} TogetherTrue(cs: seq<Clause>, schema: Schema, row: Row, now: int, d: Dialect,
          coll: Collation)
    ensures ClausesTruth(cs, schema, row, now, d, coll) == True <==> AllHold(cs, schema, row, now, d, coll)
  {
    hide ClauseTruth;
    if cs != [] {
      TogetherTrue(cs[1..], schema, row, now, d, coll);
      assert forall k :: 0 < k < |cs| ==> cs[k] == cs[1..][k - 1];
      assert forall k :: 0 <= k < |cs[1..]| ==> cs[1..][k] == cs[k + 1];
    }
  }

  lemma BothHold(a: seq<Clause>, b: seq<Clause>, schema: Schema, row: Row, now: int, d: Dialect, coll: Collation)
    ensures AllHold(a + b, schema, row, now, d, coll) <==>
              AllHold(a, schema, row, now, d, coll) && AllHold(b, schema, row, now, d, coll)
  {
    hide ClauseTruth;
    assert forall k :: 0 <= k < |a| ==> a[k] == (a + b)[k];
    assert forall k :: 0 <= k < |b| ==> b[k] == (a + b)[|a| + k];
  }

  lemma EqualHolds(name: string, v: Option<Val>, schema: Schema, row: Row, now: int, d: Dialect, coll: Collation)
    requires !Cell(row, Column("memo", name)).VBool? && (v.Some? ==> v.value.VInt? || v.value.VStr?)
    ensures AllHold(EqualClause(MemoColumn(name), v), schema, row, now, d, coll) <==>
              (v.Some? ==> Cell(row, Column("memo", name)) == v.value)
  {
    var cs := EqualClause(MemoColumn(name), v);
    if v.Some? {
      assert cs == [ColumnClause(Compare(MemoColumn(name), Eq, v.value))];
      assert AllHold(cs, schema, row, now, d, coll) <==> ClauseTruth(cs[0], schema, row, now, d, coll) == True;
    }
  }

  lemma ListHolds(name: string, vs: seq<Val>, schema: Schema, row: Row, now: int, d: Dialect, coll: Collation)
    requires forall v :: v in vs ==> v.VInt? || v.VStr?
    ensures AllHold(ListClause(MemoColumn(name), vs), schema, row, now, d, coll) <==>
              (vs != [] ==> Cell(row, Column("memo", name)) in vs)
  {
    var cs := ListClause(MemoColumn(name), vs);
    if vs != [] {
      assert cs == [ColumnClause(InList(MemoColumn(name), vs))];
      assert AllHold(cs, schema, row, now, d, coll) <==> ClauseTruth(cs[0], schema, row, now, d, coll) == True;
    }
  }

  lemma CommentsHold(find: FindMemo, schema: Schema, row: Row, now: int, d: Dialect, coll: Collation)
    ensures AllHold(if find.excludeComments then [ColumnClause(IsNull(CommentColumn(d)))] else [], schema, row, now, d,
                    coll) <==>
              (find.excludeComments ==>
                 Cell(row, if d == Postgres then Column("memo_relation", "related_memo_id")
                           else Column("", "parent_uid")) == VNull)
  {
    var cs := [ColumnClause(IsNull(CommentColumn(d)))];
    assert AllHold(cs, schema, row, now, d, coll) <==> ClauseTruth(cs[0], schema, row, now, d, coll) == True;
  }

  lemma ListedNumbers(xs: seq<int>, v: Val)
    ensures v in Ints(xs) <==> exists i :: i in xs && v == VInt(i)
    ensures Ints(xs) == [] <==> xs == []
    ensures forall w :: w in Ints(xs) ==> w.VInt?
  {
    assert forall k :: 0 <= k < |xs| ==> Ints(xs)[k] == VInt(xs[k]);
    if i :| i in xs && v == VInt(i) {
      var k :| 0 <= k < |xs| && xs[k] == i;
      assert Ints(xs)[k] == v;
    }
  }

  lemma ListedTexts(xs: seq<string>, v: Val)
    ensures v in Strs(xs) <==> exists s :: s in xs && v == VStr(s)
    ensures Strs(xs) == [] <==> xs == []
    ensures forall w :: w in Strs(xs) ==> w.VStr?
  {
    assert forall k :: 0 <= k < |xs| ==> Strs(xs)[k] == VStr(xs[k]);
    if s :| s in xs && v == VStr(s) {
      var k :| 0 <= k < |xs| && xs[k] == s;
      assert Strs(xs)[k] == v;
    }
  }

  lemma FiltersHold(filters: seq<Expr>, schema: Schema, row: Row, now: int, d: Dialect, coll: Collation)
    ensures AllHold(FilterClauses(filters), schema, row, now, d, coll) <==>
              forall k :: 0 <= k < |filters| ==> EvalBool(filters[k], schema, row, now, coll, d, NoScope) == True
  {
    hide EvalBool;
    assert forall k :: 0 <= k < |filters| ==> FilterClauses(filters)[k] == FilterClause(filters[k]);
  }

  /** The clauses of a query hold together exactly of the rows it selects. */
  lemma WantedIsSelected(find: FindMemo, schema: Schema, row: Row, now: int, d: Dialect, coll: Collation)
    requires Suits(find, schema, row, now, d, coll)
    ensures ClausesTruth(Wanted(find, d), schema, row, now, d, coll) == True <==>
              Selected(find, schema, row, now, d, coll)
    ensures RowSuits(Wanted(find, d), schema, row, now, d, coll)
  {
    hide Fits, Faithful, AllHold, EqualClause, ListClause, Ints, Strs, EvalBool, ClauseTruth, ClausesTruth, Cell;
    TogetherTrue(Wanted(find, d), schema, row, now, d, coll);
    var c0 := FilterClauses(find.filters);
    var c1 := EqualClause(MemoColumn("id"), IntOf(find.id));
    var c2 := ListClause(MemoColumn("id"), Ints(find.idList));
    var c3 := EqualClause(MemoColumn("uid"), StrOf(find.uid));
    var c4 := ListClause(MemoColumn("uid"), Strs(find.uidList));
    var c5 := EqualClause(MemoColumn("creator_id"), IntOf(find.creatorID));
    var c6 := EqualClause(MemoColumn("row_status"), StrOf(find.rowStatus));
    var c7 := ListClause(MemoColumn("visibility"), Strs(find.visibilityList));
    var c8 := if find.excludeComments then [ColumnClause(IsNull(CommentColumn(d)))] else [];
    assert Wanted(find, d) == c0 + c1 + c2 + c3 + c4 + c5 + c6 + c7 + c8;
    BothHold(c0, c1, schema, row, now, d, coll);
    BothHold(c0 + c1, c2, schema, row, now, d, coll);
    BothHold(c0 + c1 + c2, c3, schema, row, now, d, coll);
    BothHold(c0 + c1 + c2 + c3, c4, schema, row, now, d, coll);
    BothHold(c0 + c1 + c2 + c3 + c4, c5, schema, row, now, d, coll);
    BothHold(c0 + c1 + c2 + c3 + c4 + c5, c6, schema, row, now, d, coll);
    BothHold(c0 + c1 + c2 + c3 + c4 + c5 + c6, c7, schema, row, now, d, coll);
    BothHold(c0 + c1 + c2 + c3 + c4 + c5 + c6 + c7, c8, schema, row, now, d, coll);
    FiltersHold(find.filters, schema, row, now, d, coll);
    EqualHolds("id", IntOf(find.id), schema, row, now, d, coll);
    ListedNumbers(find.idList, Cell(row, Column("memo", "id")));
    ListHolds("id", Ints(find.idList), schema, row, now, d, coll);
    EqualHolds("uid", StrOf(find.uid), schema, row, now, d, coll);
    ListedTexts(find.uidList, Cell(row, Column("memo", "uid")));
    ListHolds("uid", Strs(find.uidList), schema, row, now, d, coll);
    EqualHolds("creator_id", IntOf(find.creatorID), schema, row, now, d, coll);
    EqualHolds("row_status", StrOf(find.rowStatus), schema, row, now, d, coll);
    ListedTexts(find.visibilityList, Cell(row, Column("memo", "visibility")));
    ListHolds("visibility", Strs(find.visibilityList), schema, row, now, d, coll);
    CommentsHold(find, schema, row, now, d, coll);
    FilterClausesSuit(find, schema, row, now, d, coll);
  }

  /** Only the filters' own clauses are filters. */
  lemma FilterClausesSuit(find: FindMemo, schema: Schema, row: Row, now: int, d: Dialect, coll: Collation)
    requires Suits(find, schema, row, now, d, coll)
    ensures RowSuits(Wanted(find, d), schema, row, now, d, coll)
  {
    hide Fits, Faithful;
    var cs := Wanted(find, d);
    ColumnsOnly(FilterClauses(find.filters), find, d);
    hide WantedColumns, Cell;
    forall k | 0 <= k < |cs| && cs[k].FilterClause? ensures Faithful(cs[k].e, schema, row, now, d) {
      assert cs[k] in cs;
      var i :| 0 <= i < |find.filters| && FilterClauses(find.filters)[i] == cs[k];
    }
  }

  lemma ColumnsOnly(before: seq<Clause>, find: FindMemo, d: Dialect)
    ensures forall c :: c in WantedColumns(before, find, d) ==> c in before || c.ColumnClause?
  {
    hide MemoColumn, Ints, Strs, IntOf, StrOf, CommentColumn;
  }

  /** The text of a query, read with its arguments, holds exactly of the rows it selects. */
  ghost predicate Finds(s: Statement, find: FindMemo, schema: Schema, now: int, d: Dialect)
  {
    forall row, coll :: Suits(find, schema, row, now, d, coll) ==>
      && Reading(s.sql, 0, s.args, d).Some?
      && (Eval(Reading(s.sql, 0, s.args, d).value, row, d, coll) == True <==>
            Selected(find, schema, row, now, d, coll))
  }

  /** The WHERE clause of a query for memos with its arguments. */
  method FindMemos(find: FindMemo, schema: Schema, now: int, d: Dialect)
    returns (res: Result<Statement, CompileError>)
    requires forall k :: 0 <= k < |find.filters| ==> Sound(find.filters[k], schema, now, d)
    ensures res.Ok? <==> forall k :: 0 <= k < |find.filters| ==> Compiles(find.filters[k], schema, now, d)
    ensures res.Ok? ==> Finds(res.value, find, schema, now, d)
  {
    hide Sound, Compiles, Means, Suits, Selected, Wanted, Reading, Eval, JoinAnd, RowSuits, ClausesTruth;
    var builder := new QueryBuilder(schema, now, d);
    assert builder.pieces != [];
    hide Pieces;
    var err := builder.ListMemos(find);
    if err.Some? { return Err(err.value); }
    res := Ok(Statement(JoinAnd(builder.pieces), builder.args));
    forall row, coll | Suits(find, schema, row, now, d, coll)
      ensures Reading(res.value.sql, 0, res.value.args, d).Some?
      ensures Eval(Reading(res.value.sql, 0, res.value.args, d).value, row, d, coll) == True <==>
                Selected(find, schema, row, now, d, coll)
    {
      WantedIsSelected(find, schema, row, now, d, coll);
      WhereMeansWanted(builder.pieces, builder.trees, builder.args, builder.clauses, schema, now, d, row, coll);
    }
  }
}
