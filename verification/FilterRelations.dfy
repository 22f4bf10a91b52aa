/** The query for memo relations, where one filter is rendered twice, after different arguments. */
module FilterRelations {
  import opened Wrappers
  import opened FilterSchema
  import opened FilterRows
  import opened Cel
  import opened FilterParser
  import opened Sql
  import opened FilterFold
  import opened FilterArgs
  import opened FilterRender
  import opened FilterMeaning
  import opened FilterBuild

  datatype FindMemoRelation =
    FindMemoRelation(memoID: Option<int>, relatedMemoID: Option<int>, typ: Option<string>, memoFilter: Option<Expr>)

  /** `x = $n`, or `x IN (SELECT id FROM memo WHERE ...)`. */
  datatype Piece = ColumnPiece(leaf: Leaf<Placeholder>) | MemoPiece(x: Operand, sql: SqlText)

  function RelationColumn(name: string): Operand { ColumnOp(Column("memo_relation", name), false) }

  const MEMO_ID := RelationColumn("memo_id")
  const RELATED_MEMO_ID := RelationColumn("related_memo_id")
  const TYPE := RelationColumn("type")

  function IdOf(memo: Row): Val { Cell(memo, Column(MEMO, "id")) }

  // ----- What a query means

  /** A relation passes when the memo named by `x` is among those selected. */
  function PieceTruth(p: Piece, rel: Row, memos: seq<Row>, all: seq<Val>, coll: Collation): Option<Truth>
  {
    match p
    case ColumnPiece(l) => Some(EvalLeaf(MapLeaf(l, Look(all)), rel, Postgres, coll))
    case MemoPiece(x, sql) =>
      match Reading(sql, 0, all, Postgres)
      case None => None
      case Some(t) =>
        Some(Of(exists k ::
          0 <= k < |memos| && IdOf(memos[k]) == EvalOperand(x, rel) && Eval(t, memos[k], Postgres, coll) == True))
  }

  function WhereTruth(pieces: seq<Piece>, rel: Row, memos: seq<Row>, all: seq<Val>, coll: Collation): Option<Truth>
  {
    if pieces == [] then Some(True)
    else
      match (WhereTruth(pieces[..|pieces| - 1], rel, memos, all, coll),
          PieceTruth(pieces[|pieces| - 1], rel, memos, all, coll))
      case (Some(a), Some(b)) => Some(And3(a, b))
      case _ => None
  }

  lemma WhereAppend(pieces: seq<Piece>, p: Piece, rel: Row, memos: seq<Row>, all: seq<Val>, coll: Collation)
    requires WhereTruth(pieces, rel, memos, all, coll).Some? && PieceTruth(p, rel, memos, all, coll).Some?
    ensures WhereTruth(pieces + [p], rel, memos, all, coll) ==
            Some(And3(WhereTruth(pieces, rel, memos, all, coll).value, PieceTruth(p, rel, memos, all, coll).value))
  {
    hide PieceTruth;
    assert (pieces + [p])[..|pieces|] == pieces;
  }

  /** The column conditions of a query, in order. */
  function Asked(find: FindMemoRelation): seq<(Operand, Val)>
  {
    (if find.memoID.Some? then [(MEMO_ID, VInt(find.memoID.value))] else [])
    + (if find.relatedMemoID.Some? then [(RELATED_MEMO_ID, VInt(find.relatedMemoID.value))] else [])
    + (if find.typ.Some? then [(TYPE, VStr(find.typ.value))] else [])
  }

  function ColumnsHold(asked: seq<(Operand, Val)>, rel: Row): Truth
  {
    if asked == [] then True
    else
      And3(ColumnsHold(asked[..|asked| - 1], rel),
           Compare3(Eq, EvalOperand(asked[|asked| - 1].0, rel), asked[|asked| - 1].1))
  }

  /** The memo named by `x` satisfies the filter. */
  ghost predicate EndPasses(x: Operand, e: Expr, schema: Schema, rel: Row, memos: seq<Row>, now: int, coll: Collation)
  {
    exists k ::
      && 0 <= k < |memos| && IdOf(memos[k]) == EvalOperand(x, rel)
      && EvalBool(e, schema, memos[k], now, coll, Postgres, NoScope) == True
  }

  /** A relation is wanted when its columns have the values asked for and both its memos satisfy the
      filter. */
  ghost function WantedRelation(find: FindMemoRelation, schema: Schema, rel: Row, memos: seq<Row>, now: int,
          coll: Collation): Truth
  {
    And3(ColumnsHold(Asked(find), rel),
         match find.memoFilter
         case None => True
         case Some(e) =>
           Of(EndPasses(MEMO_ID, e, schema, rel, memos, now, coll)
               && EndPasses(RELATED_MEMO_ID, e, schema, rel, memos, now, coll)))
  }

  /** Both ends of the relation are stored memos, and the memos are rows the filter is meant for. */
  ghost predicate RelationSuits(find: FindMemoRelation, schema: Schema, rel: Row, memos: seq<Row>, now: int,
          coll: Collation)
  {
    && (exists k :: 0 <= k < |memos| && IdOf(memos[k]) == EvalOperand(MEMO_ID, rel))
    && (exists k :: 0 <= k < |memos| && IdOf(memos[k]) == EvalOperand(RELATED_MEMO_ID, rel))
    && (forall k :: 0 <= k < |memos| ==> Fits(memos[k], schema, coll))
    && (find.memoFilter.Some? ==> forall k :: 0 <= k < |memos| ==>
        Faithful(find.memoFilter.value, schema, memos[k], now, Postgres))
  }

  // ----- Reading the columns

  function ColumnPieces(asked: seq<(Operand, Val)>): seq<Piece>
  {
    if asked == [] then [ColumnPiece(AlwaysTrue)]
    else ColumnPieces(asked[..|asked| - 1]) + [ColumnPiece(Compare(asked[|asked| - 1].0, Eq, Dollar(|asked|)))]
  }

  function ValuesOf(asked: seq<(Operand, Val)>): seq<Val> { seq(|asked|, k requires 0 <= k < |asked| => asked[k].1) }

  lemma {:induction false} ColumnsRead(asked: seq<(Operand, Val)>, rel: Row, memos: seq<Row>, all: seq<Val>,
          coll: Collation)
    requires ValuesOf(asked) <= all
    ensures WhereTruth(ColumnPieces(asked), rel, memos, all, coll) == Some(ColumnsHold(asked, rel))
  {
    var pieces := ColumnPieces(asked);
    if asked == [] {
      assert pieces[..0] == [];
    } else {
      var before, last := asked[..|asked| - 1], asked[|asked| - 1];
      assert all[|asked| - 1] == last.1;
      ColumnsRead(before, rel, memos, all, coll);
      WhereAppend(ColumnPieces(before), pieces[|pieces| - 1], rel, memos, all, coll);
    }
  }

  // ----- Reading the filter

  /** The statement of the filter selects the memos that satisfy it, whatever is passed around its
      arguments. */
  lemma FilterReads(e: Expr, schema: Schema, now: int, before: seq<Val>, after: seq<Val>, find: FindMemoRelation,
          x: Operand, rel: Row, memos: seq<Row>, coll: Collation)
    requires Compiles(e, schema, now, Postgres) && ListsFilled(ConditionOf(e, schema, now, Postgres), Postgres)
    requires find.memoFilter == Some(e) && RelationSuits(find, schema, rel, memos, now, coll)
    requires x == MEMO_ID || x == RELATED_MEMO_ID
    ensures var s := StatementOf(e, schema, now, Postgres, |before|);
            if s.sql == [] then EndPasses(x, e, schema, rel, memos, now, coll)
            else
              PieceTruth(MemoPiece(x, s.sql), rel, memos, before + s.args + after, coll) ==
              Some(Of(EndPasses(x, e, schema, rel, memos, now, coll)))
  {
    hide Compiles, ConditionOf, ListsFilled, StatementOf, EvalBool, Eval, Reading, Fits, Faithful;
    var s := StatementOf(e, schema, now, Postgres, |before|);
    forall k | 0 <= k < |memos|
      ensures var truth := EvalBool(e, schema, memos[k], now, coll, Postgres, NoScope);
              if s.sql == [] then truth == True
              else Reading(s.sql, 0, before + s.args + after, Postgres).Some? &&
                   Eval(Reading(s.sql, 0, before + s.args + after, Postgres).value, memos[k], Postgres, coll) == truth
    {
      PostgresFilterMeaning(e, schema, now, before, after, memos[k], coll);
    }
  }

  ghost predicate PiecesMean(pieces: seq<Piece>, args: seq<Val>, find: FindMemoRelation, schema: Schema, now: int)
  {
    forall rel, memos, coll :: RelationSuits(find, schema, rel, memos, now, coll) ==>
      WhereTruth(pieces, rel, memos, args, coll) == Some(WantedRelation(find, schema, rel, memos, now, coll))
  }

  lemma PlainPiecesMean(find: FindMemoRelation, schema: Schema, now: int)
    requires find.memoFilter.None?
    ensures PiecesMean(ColumnPieces(Asked(find)), ValuesOf(Asked(find)), find, schema, now)
  {
    hide RelationSuits, WhereTruth, ColumnsHold, ColumnPieces, Asked;
    forall rel, memos, coll
      ensures WhereTruth(ColumnPieces(Asked(find)), rel, memos, ValuesOf(Asked(find)), coll) ==
                Some(WantedRelation(find, schema, rel, memos, now, coll))
    {
      ColumnsRead(Asked(find), rel, memos, ValuesOf(Asked(find)), coll);
    }
  }

  /** Rendered twice, the filter reads its own arguments both times. */
  lemma TwiceRendered(find: FindMemoRelation, schema: Schema, now: int)
    requires find.memoFilter.Some? && Compiles(find.memoFilter.value, schema, now, Postgres)
             && Sound(find.memoFilter.value, schema, now, Postgres)
    ensures var e, columns := find.memoFilter.value, ValuesOf(Asked(find));
            var s := StatementOf(e, schema, now, Postgres, |columns|);
            var s2 := StatementOf(e, schema, now, Postgres, |columns + s.args|);
            && (s.sql == [] ==> PiecesMean(ColumnPieces(Asked(find)), columns, find, schema, now))
            && (s.sql != [] ==>
                PiecesMean(ColumnPieces(Asked(find)) + [MemoPiece(MEMO_ID, s.sql)]
                  + [MemoPiece(RELATED_MEMO_ID, s2.sql)],
                                              columns + s.args + s2.args, find, schema, now))
  {
    hide Compiles, ConditionOf, ListsFilled, StatementOf, WhereTruth, ColumnsHold, EvalBool, PieceTruth, Fits, Faithful,
         EndPasses, Bindable;
    var e, asked := find.memoFilter.value, Asked(find);
    var columns := ValuesOf(asked);
    var s := StatementOf(e, schema, now, Postgres, |columns|);
    var s2 := StatementOf(e, schema, now, Postgres, |columns + s.args|);
    SameStatement(e, schema, now, |columns|, |columns + s.args|);
    var all := columns + s.args + s2.args;
    var pieces := ColumnPieces(asked);
    var p, q := MemoPiece(MEMO_ID, s.sql), MemoPiece(RELATED_MEMO_ID, s2.sql);
    forall rel, memos, coll | RelationSuits(find, schema, rel, memos, now, coll)
      ensures s.sql == [] ==>
                WhereTruth(pieces, rel, memos, columns, coll) ==
                  Some(WantedRelation(find, schema, rel, memos, now, coll))
      ensures s.sql != [] ==>
                WhereTruth(pieces + [p] + [q], rel, memos, all, coll) ==
                  Some(WantedRelation(find, schema, rel, memos, now, coll))
    {
      FilterReads(e, schema, now, columns, s2.args, find, MEMO_ID, rel, memos, coll);
      FilterReads(e, schema, now, columns + s.args, [], find, RELATED_MEMO_ID, rel, memos, coll);
      assert columns + s.args + s2.args + [] == all;
      if s.sql == [] {
        ColumnsRead(asked, rel, memos, columns, coll);
      } else {
        ColumnsRead(asked, rel, memos, all, coll);
        WhereAppend(pieces, p, rel, memos, all, coll);
        WhereAppend(pieces + [p], q, rel, memos, all, coll);
      }
    }
  }

  /** The arguments of a statement do not depend on where it starts, nor does whether it is empty. */
  lemma SameStatement(e: Expr, schema: Schema, now: int, m: nat, n: nat)
    requires Compiles(e, schema, now, Postgres)
    ensures var s, t := StatementOf(e, schema, now, Postgres, m), StatementOf(e, schema, now, Postgres, n);
            s.args == t.args && (s.sql == [] <==> t.sql == [])
  {
    hide Fold, BuildCondition, AllArgs;
  }

  /** One more column condition. */
  method AppendColumn(pieces: seq<Piece>, args: seq<Val>, x: Operand, v: Val, ghost asked: seq<(Operand, Val)>)
    returns (pieces': seq<Piece>, args': seq<Val>)
    requires pieces == ColumnPieces(asked) && args == ValuesOf(asked)
    ensures pieces' == ColumnPieces(asked + [(x, v)]) && args' == ValuesOf(asked + [(x, v)])
  {
    pieces' := pieces + [ColumnPiece(Compare(x, Eq, Mark(Postgres, 0, |args|)))];
    args' := args + [v];
    assert (asked + [(x, v)])[..|asked|] == asked;
  }

  method ListColumns(find: FindMemoRelation) returns (pieces: seq<Piece>, args: seq<Val>)
    ensures pieces == ColumnPieces(Asked(find)) && args == ValuesOf(Asked(find))
  {
    hide ColumnPieces, ValuesOf;
    ColumnPiecesNone();
    pieces, args := [ColumnPiece(AlwaysTrue)], [];
    ghost var asked := [];
    if find.memoID.Some? {
      pieces, args := AppendColumn(pieces, args, MEMO_ID, VInt(find.memoID.value), asked);
      asked := asked + [(MEMO_ID, VInt(find.memoID.value))];
    }
    if find.relatedMemoID.Some? {
      pieces, args := AppendColumn(pieces, args, RELATED_MEMO_ID, VInt(find.relatedMemoID.value), asked);
      asked := asked + [(RELATED_MEMO_ID, VInt(find.relatedMemoID.value))];
    }
    if find.typ.Some? {
      pieces, args := AppendColumn(pieces, args, TYPE, VStr(find.typ.value), asked);
      asked := asked + [(TYPE, VStr(find.typ.value))];
    }
    assert asked == Asked(find);
  }

  lemma ColumnPiecesNone()
    ensures ColumnPieces([]) == [ColumnPiece(AlwaysTrue)] && ValuesOf([]) == []
  {
  }

  // ----- Reading the joined clause

  function PieceText(p: Piece): SqlText
  {
    match p
    case ColumnPiece(l) => [LeafT(l)]
    case MemoPiece(x, sql) => [MemoT(x)] + sql + [RParen]
  }

  function PieceTexts(pieces: seq<Piece>): seq<SqlText>
  {
    seq(|pieces|, k requires 0 <= k < |pieces| => PieceText(pieces[k]))
  }

  /** A condition of the clause as it is read. */
  datatype Cond = ColumnCond(leaf: Leaf<Placeholder>) | MemoCond(x: Operand, t: Tree<Placeholder>)

  /** The condition inside a subquery reaches to the parenthesis that closes it. */
  function ReadCond(ts: SqlText): (r: Option<(Cond, SqlText)>)
    ensures r.Some? ==> |r.value.1| < |ts|
  {
    if ts == [] then None
    else if ts[0].LeafT? then if IsUnreadable(ts[0].leaf, Postgres) then None
      else Some((ColumnCond(ts[0].leaf), ts[1..]))
    else if ts[0].MemoT? then
      match ReadOr(ts[1..], Postgres)
      case None => None
      case Some((t, rest)) => if rest != [] && rest[0] == RParen then Some((MemoCond(ts[0].x, t), rest[1..])) else None
    else None
  }

  function ReadConds(ts: SqlText): Option<seq<Cond>>
    decreases |ts|
  {
    match ReadCond(ts)
    case None => None
    case Some((c, rest)) =>
      if rest == [] then Some([c])
      else if rest[0] != AndT then None
      else
        match ReadConds(rest[1..])
        case None => None
        case Some(cs) => Some([c] + cs)
  }

  function CondTruth(c: Cond, rel: Row, memos: seq<Row>, all: seq<Val>, coll: Collation): Truth
  {
    match c
    case ColumnCond(l) => EvalLeaf(MapLeaf(l, Look(all)), rel, Postgres, coll)
    case MemoCond(x, t) =>
      var u := MapTree(t, Look(all));
      Of(exists k ::
        0 <= k < |memos| && IdOf(memos[k]) == EvalOperand(x, rel) && Eval(u, memos[k], Postgres, coll) == True)
  }

  function CondsTruth(cs: seq<Cond>, rel: Row, memos: seq<Row>, all: seq<Val>, coll: Collation): Truth
  {
    if cs == [] then True
    else And3(CondsTruth(cs[..|cs| - 1], rel, memos, all, coll), CondTruth(cs[|cs| - 1], rel, memos, all, coll))
  }

  /** The truth of the text of a clause with the arguments passed. */
  function ClauseTextTruth(sql: SqlText, rel: Row, memos: seq<Row>, all: seq<Val>, coll: Collation): Option<Truth>
  {
    match ReadConds(sql)
    case None => None
    case Some(cs) => Some(CondsTruth(cs, rel, memos, all, coll))
  }

  /** A piece is written so that it is read as this condition. */
  ghost predicate IsTextOf(p: Piece, c: Cond)
  {
    match p
    case ColumnPiece(l) => c == ColumnCond(l) && !IsUnreadable(l, Postgres)
    case MemoPiece(x, sql) =>
      && c.MemoCond? && c.x == x
      && sql == Print(c.t) && WellShaped(c.t) && Readable(c.t, Postgres) && Resolve(sql, 0) == sql
  }

  lemma ReadsCond(p: Piece, c: Cond, rest: SqlText)
    requires IsTextOf(p, c)
    ensures ReadCond(PieceText(p) + rest) == Some((c, rest))
  {
    hide WellShaped, Readable, Print, Resolve, ReadOr;
    match p {
      case ColumnPiece(l) =>
        assert (PieceText(p) + rest)[1..] == rest;
      case MemoPiece(x, sql) =>
        ReadsMemo(x, c.t, rest);
    }
  }

  lemma ReadsMemo(x: Operand, t: Tree<Placeholder>, rest: SqlText)
    requires WellShaped(t) && Readable(t, Postgres)
    ensures ReadCond([MemoT(x)] + Print(t) + [RParen] + rest) == Some((MemoCond(x, t), rest))
  {
    hide WellShaped, Readable, Print, ReadPrimary;
    var ts, more := [MemoT(x)] + Print(t) + [RParen] + rest, [RParen] + rest;
    assert ts[1..] == Print(t) + more && more[1..] == rest;
    ReadPrinted(t, more, Postgres);
    ReadsOne(ts[1..], Postgres);
    hide ReadOr;
  }

  lemma {:induction false} ReadsConds(pieces: seq<Piece>, cs: seq<Cond>)
    requires |pieces| == |cs| > 0 && forall k :: 0 <= k < |pieces| ==> IsTextOf(pieces[k], cs[k])
    ensures ReadConds(JoinAnd(PieceTexts(pieces))) == Some(cs)
  {
    hide ReadCond, PieceText, IsTextOf;
    var texts := PieceTexts(pieces);
    if |pieces| == 1 {
      ReadsCond(pieces[0], cs[0], []);
      assert texts[0] + [] == texts[0];
      assert cs == [cs[0]];
    } else {
      var more := [AndT] + JoinAnd(texts[1..]);
      assert texts[1..] == PieceTexts(pieces[1..]);
      assert JoinAnd(texts) == texts[0] + more && more[1..] == JoinAnd(texts[1..]);
      ReadsCond(pieces[0], cs[0], more);
      ReadsConds(pieces[1..], cs[1..]);
      assert cs == [cs[0]] + cs[1..];
    }
  }

  lemma CondMeans(p: Piece, c: Cond, rel: Row, memos: seq<Row>, all: seq<Val>, coll: Collation)
    requires IsTextOf(p, c)
    ensures PieceTruth(p, rel, memos, all, coll) == Some(CondTruth(c, rel, memos, all, coll))
  {
    hide EvalLeaf, MapLeaf, Eval, Print, WellShaped, Readable, Resolve;
    if p.MemoPiece? { ReadIsPrintInverse(c.t, Postgres); }
  }

  lemma {:induction false} CondsMean(pieces: seq<Piece>, cs: seq<Cond>, rel: Row, memos: seq<Row>, all: seq<Val>,
          coll: Collation)
    requires |pieces| == |cs| && forall k :: 0 <= k < |pieces| ==> IsTextOf(pieces[k], cs[k])
    ensures WhereTruth(pieces, rel, memos, all, coll) == Some(CondsTruth(cs, rel, memos, all, coll))
  {
    hide PieceTruth, CondTruth, IsTextOf;
    if pieces != [] {
      var last := |pieces| - 1;
      CondsMean(pieces[..last], cs[..last], rel, memos, all, coll);
      CondMeans(pieces[last], cs[last], rel, memos, all, coll);
    }
  }

  lemma {:induction false} ColumnsAreText(asked: seq<(Operand, Val)>) returns (cs: seq<Cond>)
    ensures |cs| == |ColumnPieces(asked)| > 0
    ensures forall k :: 0 <= k < |cs| ==> IsTextOf(ColumnPieces(asked)[k], cs[k])
  {
    if asked == [] {
      cs := [ColumnCond(AlwaysTrue)];
    } else {
      var n := |asked| - 1;
      cs := ColumnsAreText(asked[..n]);
      cs := cs + [ColumnCond(Compare(asked[n].0, Eq, Dollar(|asked|)))];
    }
  }

  lemma StatementIsText(e: Expr, schema: Schema, now: int, offset: nat, x: Operand) returns (c: Cond)
    requires Compiles(e, schema, now, Postgres) && ListsFilled(ConditionOf(e, schema, now, Postgres), Postgres)
    requires StatementOf(e, schema, now, Postgres, offset).sql != []
    ensures IsTextOf(MemoPiece(x, StatementOf(e, schema, now, Postgres, offset).sql), c)
  {
    hide Fold, BuildCondition, AllArgs, WellShaped, Readable, Print, Resolve, MapTree;
    match FoldedOf(e, schema, now, Postgres) {
      case AlwaysHolds =>
        c := ColumnCond(AlwaysTrue);
      case NeverHolds =>
        c := MemoCond(x, TLeaf(AlwaysFalse));
        NeverIsText();
      case Holds(t) =>
        c := MemoCond(x, MapTree(t, Marks(Postgres, offset)));
        FoldedShape(ConditionOf(e, schema, now, Postgres), schema, Postgres, 0);
        MapShape(t, Marks(Postgres, offset), Postgres);
        ResolveTree(t, Postgres, offset, 0);
    }
  }

  lemma NeverIsText()
    ensures var t: Tree<Placeholder> := TLeaf(AlwaysFalse);
            Print(t) == [LeafT(AlwaysFalse)] && WellShaped(t) && Readable(t, Postgres)
              && Resolve(Print(t), 0) == Print(t)
  {
    ResolveLeafToken(AlwaysFalse, 0);
  }

  /** The text of a clause, read with its arguments, has on every relation the truth of what was asked. */
  ghost predicate RelationsMean(sql: SqlText, args: seq<Val>, find: FindMemoRelation, schema: Schema, now: int)
  {
    forall rel, memos, coll :: RelationSuits(find, schema, rel, memos, now, coll) ==>
      ClauseTextTruth(sql, rel, memos, args, coll) == Some(WantedRelation(find, schema, rel, memos, now, coll))
  }

  lemma JoinedMeans(pieces: seq<Piece>, cs: seq<Cond>, args: seq<Val>, find: FindMemoRelation, schema: Schema, now: int)
    requires |pieces| == |cs| > 0 && forall k :: 0 <= k < |pieces| ==> IsTextOf(pieces[k], cs[k])
    requires PiecesMean(pieces, args, find, schema, now)
    ensures RelationsMean(JoinAnd(PieceTexts(pieces)), args, find, schema, now)
  {
    hide IsTextOf, WhereTruth, CondsTruth, RelationSuits, ReadConds, WantedRelation;
    ReadsConds(pieces, cs);
    forall rel, memos, coll | RelationSuits(find, schema, rel, memos, now, coll)
      ensures ClauseTextTruth(JoinAnd(PieceTexts(pieces)), rel, memos, args, coll) ==
                Some(WantedRelation(find, schema, rel, memos, now, coll))
    {
      CondsMean(pieces, cs, rel, memos, args, coll);
    }
  }

  /** The relation has the values asked for, and of each of its two memos a stored row satisfies the
      filter. */
  ghost predicate SelectedRelation(find: FindMemoRelation, schema: Schema, rel: Row, memos: seq<Row>, now: int,
          coll: Collation)
  {
    && (find.memoID.Some? ==> Cell(rel, Column("memo_relation", "memo_id")) == VInt(find.memoID.value))
    && (find.relatedMemoID.Some? ==>
          Cell(rel, Column("memo_relation", "related_memo_id")) == VInt(find.relatedMemoID.value))
    && (find.typ.Some? ==> Cell(rel, Column("memo_relation", "type")) == VStr(find.typ.value))
    && (find.memoFilter.Some? ==>
          && (exists k ::
                && 0 <= k < |memos|
                && EvalBool(find.memoFilter.value, schema, memos[k], now, coll, Postgres, NoScope) == True
                && Cell(memos[k], Column("memo", "id")) == Cell(rel, Column("memo_relation", "memo_id")))
          && (exists k ::
                && 0 <= k < |memos|
                && EvalBool(find.memoFilter.value, schema, memos[k], now, coll, Postgres, NoScope) == True
                && Cell(memos[k], Column("memo", "id")) == Cell(rel, Column("memo_relation", "related_memo_id"))))
  }

  /** The text of a clause, read with its arguments, holds exactly of the relations it selects. */
  ghost predicate SelectsRelations(sql: SqlText, args: seq<Val>, find: FindMemoRelation, schema: Schema, now: int)
  {
    forall rel, memos, coll :: RelationSuits(find, schema, rel, memos, now, coll) ==>
      && ClauseTextTruth(sql, rel, memos, args, coll).Some?
      && (ClauseTextTruth(sql, rel, memos, args, coll) == Some(True) <==>
            SelectedRelation(find, schema, rel, memos, now, coll))
  }

  lemma {:induction false} BothHold(a: seq<(Operand, Val)>, b: seq<(Operand, Val)>, rel: Row)
    ensures ColumnsHold(a + b, rel) == True <==> ColumnsHold(a, rel) == True && ColumnsHold(b, rel) == True
  {
    hide EvalOperand;
    if b == [] {
      assert a + b == a;
    } else {
      assert (a + b)[..|a + b| - 1] == a + b[..|b| - 1];
      BothHold(a, b[..|b| - 1], rel);
    }
  }

  function IfAsked(name: string, v: Option<Val>): seq<(Operand, Val)>
  {
    if v.Some? then [(RelationColumn(name), v.value)] else []
  }

  lemma OneHolds(name: string, v: Option<Val>, rel: Row)
    requires v != Some(VNull)
    ensures ColumnsHold(IfAsked(name, v), rel) == True <==>
              (v.Some? ==> Cell(rel, Column("memo_relation", name)) == v.value)
  {
    if v.Some? { assert [(RelationColumn(name), v.value)][..0] == []; }
  }

  lemma AskedOfEach(find: FindMemoRelation, rel: Row)
    ensures ColumnsHold(Asked(find), rel) == True <==>
              && (find.memoID.Some? ==> Cell(rel, Column("memo_relation", "memo_id")) == VInt(find.memoID.value))
              && (find.relatedMemoID.Some? ==>
                    Cell(rel, Column("memo_relation", "related_memo_id")) == VInt(find.relatedMemoID.value))
              && (find.typ.Some? ==> Cell(rel, Column("memo_relation", "type")) == VStr(find.typ.value))
  {
    var a := IfAsked("memo_id", IntOf(find.memoID));
    var b := IfAsked("related_memo_id", IntOf(find.relatedMemoID));
    var c := IfAsked("type", StrOf(find.typ));
    assert Asked(find) == a + b + c;
    hide Cell, Asked, RelationColumn, IfAsked, ColumnsHold;
    BothHold(a + b, c, rel);
    BothHold(a, b, rel);
    OneHolds("memo_id", IntOf(find.memoID), rel);
    OneHolds("related_memo_id", IntOf(find.relatedMemoID), rel);
    OneHolds("type", StrOf(find.typ), rel);
  }

  lemma WantedIsSelected(find: FindMemoRelation, schema: Schema, rel: Row, memos: seq<Row>, now: int, coll: Collation)
    ensures WantedRelation(find, schema, rel, memos, now, coll) == True <==>
              SelectedRelation(find, schema, rel, memos, now, coll)
  {
    hide ColumnsHold, Asked, EvalBool;
    AskedOfEach(find, rel);
  }

  lemma MeansSelects(sql: SqlText, args: seq<Val>, find: FindMemoRelation, schema: Schema, now: int)
    requires RelationsMean(sql, args, find, schema, now)
    ensures SelectsRelations(sql, args, find, schema, now)
  {
    hide WantedRelation, SelectedRelation, RelationSuits, ClauseTextTruth;
    forall rel, memos, coll | RelationSuits(find, schema, rel, memos, now, coll)
      ensures ClauseTextTruth(sql, rel, memos, args, coll).Some?
      ensures ClauseTextTruth(sql, rel, memos, args, coll) == Some(True) <==>
                SelectedRelation(find, schema, rel, memos, now, coll)
    {
      WantedIsSelected(find, schema, rel, memos, now, coll);
    }
  }

  method ListMemoRelations(find: FindMemoRelation, schema: Schema, now: int)
    returns (res: Result<Statement, CompileError>)
    requires find.memoFilter.Some? ==> Sound(find.memoFilter.value, schema, now, Postgres)
    ensures res.Ok? <==> find.memoFilter.None? || Compiles(find.memoFilter.value, schema, now, Postgres)
    ensures res.Ok? ==> RelationsMean(res.value.sql, res.value.args, find, schema, now)
    ensures res.Ok? ==> SelectsRelations(res.value.sql, res.value.args, find, schema, now)
  {
    hide Compiles, StatementOf, PiecesMean, RelationsMean, SelectsRelations, ColumnPieces, ValuesOf, Asked, IsTextOf,
         ListsFilled, Bindable;
    var pieces, args := ListColumns(find);
    ghost var cs := ColumnsAreText(Asked(find));
    if find.memoFilter.None? {
      PlainPiecesMean(find, schema, now);
      JoinedMeans(pieces, cs, args, find, schema, now);
      MeansSelects(JoinAnd(PieceTexts(pieces)), args, find, schema, now);
      return Ok(Statement(JoinAnd(PieceTexts(pieces)), args));
    }
    var stmt := CompileToStatement(find.memoFilter.value, schema, now, Postgres, |args|);
    if stmt.Err? { return Err(stmt.error); }
    TwiceRendered(find, schema, now);
    if stmt.value.sql != [] {
      ghost var c := StatementIsText(find.memoFilter.value, schema, now, |args|, MEMO_ID);
      pieces, cs := pieces + [MemoPiece(MEMO_ID, stmt.value.sql)], cs + [c];
      args := args + stmt.value.args;
      var related := CompileToStatement(find.memoFilter.value, schema, now, Postgres, |args|);
      if related.Err? { assert false; }
      SameStatement(find.memoFilter.value, schema, now, |ValuesOf(Asked(find))|, |args|);
      if related.value.sql != [] {
        c := StatementIsText(find.memoFilter.value, schema, now, |args|, RELATED_MEMO_ID);
        pieces, cs := pieces + [MemoPiece(RELATED_MEMO_ID, related.value.sql)], cs + [c];
        args := args + related.value.args;
      }
    }
    JoinedMeans(pieces, cs, args, find, schema, now);
    MeansSelects(JoinAnd(PieceTexts(pieces)), args, find, schema, now);
    return Ok(Statement(JoinAnd(PieceTexts(pieces)), args));
  }
}
