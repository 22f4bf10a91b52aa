/** SQL conditions: their trees, their text as tokens, reading the text back, and their truth on a row. */
module Sql {
  import opened Wrappers
  import opened FilterSchema
  import opened FilterRows
  import Like

  datatype Operand =
    | ColumnOp(column: Column, epoch: bool)
    | JsonOp(column: Column, path: seq<string>)
    | JsonLength(column: Column, path: seq<string>)

  /** The comparisons a condition is made of, over arguments of type `A`: values, or placeholders. */
  datatype Leaf<A> =
    | AlwaysTrue
    | AlwaysFalse
    | IsNull(x: Operand)
    | IsNotNull(x: Operand)
    | IsTrue(x: Operand)
    | Compare(x: Operand, op: CompareOp, arg: A)
    | JsonCompare(x: Operand, op: CompareOp, b: bool)
    | InList(x: Operand, args: seq<A>)
    | HasElement(x: Operand, arg: A)
    | LikePattern(x: Operand, arg: A, anyCase: bool)
    | NonEmpty(x: Operand)

  datatype Tree<A> =
    | TLeaf(leaf: Leaf<A>)
    | TAnd(kids: seq<Tree<A>>)
    | TOr(kids: seq<Tree<A>>)
    | TNot(kid: Tree<A>)

  // ----- Text

  /** `MemoT` opens a condition on another table: `x IN (SELECT id FROM memo WHERE`. */
  datatype Token<A> = LParen | RParen | AndT | OrT | NotT | LeafT(leaf: Leaf<A>) | MemoT(x: Operand)

  /** `NOT (x)` for a negation, `(x AND y ...)` and `(x OR y ...)` for the others. */
  function Print<A>(t: Tree<A>): seq<Token<A>>
  {
    match t
    case TLeaf(l) => [LeafT(l)]
    case TAnd(kids) => [LParen] + PrintAll(kids, AndT) + [RParen]
    case TOr(kids) => [LParen] + PrintAll(kids, OrT) + [RParen]
    case TNot(kid) => [NotT, LParen] + Print(kid) + [RParen]
  }

  function PrintAll<A>(kids: seq<Tree<A>>, sep: Token<A>): seq<Token<A>>
  {
    if kids == [] then []
    else if |kids| == 1 then Print(kids[0])
    else Print(kids[0]) + [sep] + PrintAll(kids[1..], sep)
  }

  /** SQLite reads an empty IN list; the other dialects refuse it. */
  predicate IsUnreadable<A>(l: Leaf<A>, d: Dialect) { l.InList? && l.args == [] && d != SQLite }

  /** Reading with NOT binding tighter than AND, and AND tighter than OR. Empty parentheses are a syntax
      error in every dialect. */
  function ReadPrimary<A>(ts: seq<Token<A>>, d: Dialect): (r: Option<(Tree<A>, seq<Token<A>>)>)
    ensures r.Some? ==> |r.value.1| < |ts|
    decreases |ts|, 0
  {
    if ts == [] then None
    else
      match ts[0]
      case LeafT(l) => if IsUnreadable(l, d) then None else Some((TLeaf(l), ts[1..]))
      case LParen =>
        (match ReadOr(ts[1..], d)
         case Some((t, rest)) => if rest != [] && rest[0] == RParen then Some((t, rest[1..])) else None
         case None => None)
      case NotT =>
        (match ReadPrimary(ts[1..], d)
         case Some((t, rest)) => Some((TNot(t), rest))
         case None => None)
      case _ => None
  }

  function ReadAnds<A>(ts: seq<Token<A>>, d: Dialect): (r: Option<(seq<Tree<A>>, seq<Token<A>>)>)
    ensures r.Some? ==> |r.value.0| >= 1 && |r.value.1| < |ts|
    decreases |ts|, 1
  {
    match ReadPrimary(ts, d)
    case None => None
    case Some((t, rest)) =>
      if rest != [] && rest[0] == AndT then
        match ReadAnds(rest[1..], d)
        case None => None
        case Some((more, rest')) => Some(([t] + more, rest'))
      else Some(([t], rest))
  }

  function ReadOrs<A>(ts: seq<Token<A>>, d: Dialect): (r: Option<(seq<Tree<A>>, seq<Token<A>>)>)
    ensures r.Some? ==> |r.value.0| >= 1 && |r.value.1| < |ts|
    decreases |ts|, 2
  {
    match ReadAnds(ts, d)
    case None => None
    case Some((ands, rest)) =>
      var t := if |ands| == 1 then ands[0] else TAnd(ands);
      if rest != [] && rest[0] == OrT then
        match ReadOrs(rest[1..], d)
        case None => None
        case Some((more, rest')) => Some(([t] + more, rest'))
      else Some(([t], rest))
  }

  function ReadOr<A>(ts: seq<Token<A>>, d: Dialect): (r: Option<(Tree<A>, seq<Token<A>>)>)
    ensures r.Some? ==> |r.value.1| < |ts|
    decreases |ts|, 3
  {
    match ReadOrs(ts, d)
    case None => None
    case Some((ors, rest)) => Some((if |ors| == 1 then ors[0] else TOr(ors), rest))
  }

  /** The tree a whole text stands for. */
  function Read<A>(ts: seq<Token<A>>, d: Dialect): Option<Tree<A>>
  {
    match ReadOr(ts, d)
    case Some((t, rest)) => if rest == [] then Some(t) else None
    case None => None
  }

  /** Conjunctions and disjunctions have several members; a disjunction may also have none. */
  ghost predicate WellShaped<A>(t: Tree<A>)
  {
    match t
    case TLeaf(_) => true
    case TAnd(kids) => |kids| >= 2 && forall k :: 0 <= k < |kids| ==> WellShaped(kids[k])
    case TOr(kids) => |kids| != 1 && forall k :: 0 <= k < |kids| ==> WellShaped(kids[k])
    case TNot(kid) => WellShaped(kid)
  }

  /** No empty list is left that the dialect cannot read. */
  predicate Readable<A>(t: Tree<A>, d: Dialect)
  {
    match t
    case TLeaf(l) => !IsUnreadable(l, d)
    case TAnd(kids) => forall k :: 0 <= k < |kids| ==> Readable(kids[k], d)
    case TOr(kids) => kids != [] && forall k :: 0 <= k < |kids| ==> Readable(kids[k], d)
    case TNot(kid) => Readable(kid, d)
  }

  ghost predicate Continues<A>(rest: seq<Token<A>>, sep: Token<A>) { rest != [] && rest[0] == sep }

  /** A printed tree is read back as itself wherever it stands, exactly when it holds no empty list that
      the dialect refuses. */
  lemma {:induction false} ReadPrinted<A>(t: Tree<A>, rest: seq<Token<A>>, d: Dialect)
    requires WellShaped(t)
    ensures ReadPrimary(Print(t) + rest, d) == if Readable(t, d) then Some((t, rest)) else None
    decreases t, 1
  {
    var ts := Print(t) + rest;
    var inner := [RParen] + rest;
    PrintedInside(t, rest);
    hide Print, PrintAll;
    match t {
      case TLeaf(l) =>
      case TAnd(kids) =>
        ReadPrintedAnds(t, kids, inner, d);
        ReadsAnds(ts[1..], kids, inner, d);
        ReadsParens(ts, rest, d);
      case TOr(kids) =>
        ReadPrintedOrs(t, kids, inner, d);
        ReadsParens(ts, rest, d);
      case TNot(kid) =>
        ReadPrinted(kid, inner, d);
        ReadsOne(Print(kid) + inner, d);
        ReadsParens(ts[1..], rest, d);
    }
  }

  /** How a printed tree begins, and what follows. */
  lemma PrintedInside<A>(t: Tree<A>, rest: seq<Token<A>>)
    ensures var ts, inner := Print(t) + rest, [RParen] + rest;
            && ts != []
            && match t
               case TLeaf(l) => ts[0] == LeafT(l) && ts[1..] == rest
               case TAnd(kids) => ts[0] == LParen && ts[1..] == PrintAll(kids, AndT) + inner
               case TOr(kids) => ts[0] == LParen && ts[1..] == PrintAll(kids, OrT) + inner
               case TNot(kid) => |ts| >= 2 && ts[0] == NotT && ts[1] == LParen && ts[1..][1..] == Print(kid) + inner
  {
    hide PrintAll;
  }

  /** A parenthesis whose contents are read up to the closing one. */
  lemma ReadsParens<A>(ts: seq<Token<A>>, rest: seq<Token<A>>, d: Dialect)
    requires ts != [] && ts[0] == LParen
    requires ReadOr(ts[1..], d).Some? ==> ReadOr(ts[1..], d).value.1 == [RParen] + rest
    ensures ReadPrimary(ts, d) == match ReadOr(ts[1..], d) case None => None case Some(r) => Some((r.0, rest))
  {
    hide ReadOr;
    assert ([RParen] + rest)[1..] == rest;
  }

  /** A list of conjuncts that does not go on. */
  lemma ReadsAnds<A>(ts: seq<Token<A>>, kids: seq<Tree<A>>, rest: seq<Token<A>>, d: Dialect)
    requires |kids| >= 2
    requires rest != [] && rest[0] == RParen
    requires ReadAnds(ts, d) == None || ReadAnds(ts, d) == Some((kids, rest))
    ensures ReadOr(ts, d) == if ReadAnds(ts, d) == None then None else Some((TAnd(kids), rest))
  {
  }

  /** A single condition that does not go on. */
  lemma ReadsOne<A>(ts: seq<Token<A>>, d: Dialect)
    requires ReadPrimary(ts, d).Some? ==> ReadPrimary(ts, d).value.1 == [] || ReadPrimary(ts, d).value.1[0] == RParen
    ensures ReadOr(ts, d) == ReadPrimary(ts, d)
  {
    hide ReadPrimary;
    if ReadPrimary(ts, d).Some? {
      assert ReadAnds(ts, d) == Some(([ReadPrimary(ts, d).value.0], ReadPrimary(ts, d).value.1));
      assert ReadOrs(ts, d) == ReadAnds(ts, d);
    } else {
      assert ReadAnds(ts, d).None?;
      assert ReadOrs(ts, d).None?;
    }
  }

  /** A condition, and the conjuncts after it if the text goes on with AND. */
  lemma AndsGoOn<A>(ts: seq<Token<A>>, more: seq<Token<A>>, d: Dialect)
    requires ReadPrimary(ts, d).Some? ==> ReadPrimary(ts, d).value.1 == more
    ensures ReadAnds(ts, d) ==
            match ReadPrimary(ts, d)
            case None => None
            case Some((t, _)) =>
              if !Continues(more, AndT) then Some(([t], more))
              else match ReadAnds(more[1..], d)
                case None => None
                case Some((kids, rest)) => Some(([t] + kids, rest))
  {
    hide ReadPrimary;
  }

  /** A condition, and the alternatives after it if the text goes on with OR. */
  lemma OrsGoOn<A>(ts: seq<Token<A>>, more: seq<Token<A>>, d: Dialect)
    requires ReadPrimary(ts, d).Some? ==> ReadPrimary(ts, d).value.1 == more
    requires !Continues(more, AndT)
    ensures ReadOrs(ts, d) ==
            match ReadPrimary(ts, d)
            case None => None
            case Some((t, _)) =>
              if !Continues(more, OrT) then Some(([t], more))
              else match ReadOrs(more[1..], d)
                case None => None
                case Some((kids, rest)) => Some(([t] + kids, rest))
  {
    hide ReadPrimary;
    AndsGoOn(ts, more, d);
    hide ReadAnds;
  }

  lemma {:induction false} ReadPrintedAnds<A>(context: Tree<A>, kids: seq<Tree<A>>, rest: seq<Token<A>>, d: Dialect)
    requires forall k :: 0 <= k < |kids| ==> kids[k] < context && WellShaped(kids[k])
    requires kids != [] && !Continues(rest, AndT)
    ensures ReadAnds(PrintAll(kids, AndT) + rest, d) ==
            if forall k :: 0 <= k < |kids| ==> Readable(kids[k], d) then Some((kids, rest)) else None
    decreases context, 0, |kids|
  {
    hide ReadPrimary, ReadAnds, Print, Readable, WellShaped;
    if |kids| == 1 {
      ReadPrinted(kids[0], rest, d);
      AndsGoOn(Print(kids[0]) + rest, rest, d);
      assert kids == [kids[0]];
    } else {
      var more := [AndT] + (PrintAll(kids[1..], AndT) + rest);
      assert PrintAll(kids, AndT) + rest == Print(kids[0]) + more;
      assert more[1..] == PrintAll(kids[1..], AndT) + rest;
      ReadPrinted(kids[0], more, d);
      AndsGoOn(Print(kids[0]) + more, more, d);
      ReadPrintedAnds(context, kids[1..], rest, d);
      assert kids == [kids[0]] + kids[1..];
      AllOrFirst(kids, d);
    }
  }

  lemma {:induction false} ReadPrintedOrs<A>(context: Tree<A>, kids: seq<Tree<A>>, rest: seq<Token<A>>, d: Dialect)
    requires forall k :: 0 <= k < |kids| ==> kids[k] < context && WellShaped(kids[k])
    requires rest != [] && rest[0] == RParen
    ensures ReadOrs(PrintAll(kids, OrT) + rest, d) ==
            if kids != [] && forall k :: 0 <= k < |kids| ==> Readable(kids[k], d) then Some((kids, rest)) else None
    decreases context, 0, |kids|
  {
    if kids == [] {
      assert PrintAll(kids, OrT) + rest == rest;
      assert ReadPrimary(rest, d).None?;
      OrsGoOn(rest, rest, d);
    } else {
      hide ReadPrimary, ReadAnds, ReadOrs, Print, Readable, WellShaped;
      if |kids| == 1 {
        ReadPrinted(kids[0], rest, d);
        OrsGoOn(Print(kids[0]) + rest, rest, d);
        assert kids == [kids[0]];
      } else {
        var more := [OrT] + (PrintAll(kids[1..], OrT) + rest);
        assert PrintAll(kids, OrT) + rest == Print(kids[0]) + more;
        assert more[1..] == PrintAll(kids[1..], OrT) + rest;
        ReadPrinted(kids[0], more, d);
        OrsGoOn(Print(kids[0]) + more, more, d);
        ReadPrintedOrs(context, kids[1..], rest, d);
        assert kids == [kids[0]] + kids[1..];
        AllOrFirst(kids, d);
      }
    }
  }

  lemma AllOrFirst<A>(kids: seq<Tree<A>>, d: Dialect)
    requires kids != []
    ensures (forall k :: 0 <= k < |kids| ==> Readable(kids[k], d)) <==>
            Readable(kids[0], d) && forall k :: 0 <= k < |kids[1..]| ==> Readable(kids[1..][k], d)
  {
    if Readable(kids[0], d) && forall k :: 0 <= k < |kids[1..]| ==> Readable(kids[1..][k], d) {
      forall k | 0 <= k < |kids| ensures Readable(kids[k], d) { if k > 0 { assert kids[1..][k - 1] == kids[k]; } }
    }
  }

  /** The printer's parentheses suffice: a text is read as exactly the tree it was printed from, and
      it cannot be read at all exactly when it holds an empty list that the dialect refuses. */
  lemma ReadIsPrintInverse<A>(t: Tree<A>, d: Dialect)
    requires WellShaped(t)
    ensures Read(Print(t), d) == if Readable(t, d) then Some(t) else None
  {
    ReadPrinted(t, [], d);
    assert Print(t) + [] == Print(t);
    ReadsOne(Print(t), d);
  }

  /** The pieces of a WHERE clause: each in parentheses, joined by AND. */
  function JoinAnd<A>(pieces: seq<seq<Token<A>>>): seq<Token<A>>
  {
    if pieces == [] then []
    else if |pieces| == 1 then pieces[0]
    else pieces[0] + [AndT] + JoinAnd(pieces[1..])
  }

  function Parens<A>(ts: seq<Token<A>>): seq<Token<A>> { [LParen] + ts + [RParen] }

  /** A text that is read as `t` wherever a single condition is expected. */
  ghost predicate StandsFor<A(!new)>(ts: seq<Token<A>>, t: Tree<A>, d: Dialect)
  {
    forall rest :: ReadPrimary(ts + rest, d) == Some((t, rest))
  }

  lemma ParensStandFor<A(!new)>(t: Tree<A>, d: Dialect)
    requires WellShaped(t) && Readable(t, d)
    ensures StandsFor(Parens(Print(t)), t, d) && StandsFor(Print(t), t, d)
  {
    hide WellShaped, Readable, Print, ReadPrimary, Parens;
    forall rest
      ensures ReadPrimary(Parens(Print(t)) + rest, d) == Some((t, rest))
      && ReadPrimary(Print(t) + rest, d) == Some((t, rest)) {
      ReadPrinted(t, rest, d);
      ReadParens(t, rest, d);
    }
  }

  lemma ReadParens<A>(t: Tree<A>, rest: seq<Token<A>>, d: Dialect)
    requires WellShaped(t) && Readable(t, d)
    ensures ReadPrimary(Parens(Print(t)) + rest, d) == Some((t, rest))
  {
    hide WellShaped, Readable, Print;
    var ts := Parens(Print(t)) + rest;
    var more := [RParen] + rest;
    assert ts[1..] == Print(t) + more;
    ReadPrinted(t, more, d);
    ReadsOne(ts[1..], d);
    assert more[1..] == rest;
  }

  /** A joined WHERE clause is read as the conjunction of its pieces. */
  lemma {:induction false} ReadJoined<A(!new)>(pieces: seq<seq<Token<A>>>, trees: seq<Tree<A>>, d: Dialect)
    requires |pieces| == |trees| > 0
    requires forall k :: 0 <= k < |pieces| ==> StandsFor(pieces[k], trees[k], d)
    ensures ReadAnds(JoinAnd(pieces), d) == Some((trees, []))
    ensures Read(JoinAnd(pieces), d) == Some(if |trees| == 1 then trees[0] else TAnd(trees))
  {
    hide ReadPrimary;
    if |pieces| == 1 {
      assert pieces[0] + [] == pieces[0];
      assert ReadPrimary(pieces[0] + [], d) == Some((trees[0], []));
      assert trees == [trees[0]];
    } else {
      var more := [AndT] + JoinAnd(pieces[1..]);
      assert JoinAnd(pieces) == pieces[0] + more;
      assert ReadPrimary(pieces[0] + more, d) == Some((trees[0], more));
      ReadJoined(pieces[1..], trees[1..], d);
      assert more[1..] == JoinAnd(pieces[1..]);
      assert trees == [trees[0]] + trees[1..];
    }
    WholeAnds(JoinAnd(pieces), trees, d);
  }

  lemma WholeAnds<A>(ts: seq<Token<A>>, trees: seq<Tree<A>>, d: Dialect)
    requires trees != [] && ReadAnds(ts, d) == Some((trees, []))
    ensures Read(ts, d) == Some(if |trees| == 1 then trees[0] else TAnd(trees))
  {
    assert ReadOrs(ts, d) == Some(([if |trees| == 1 then trees[0] else TAnd(trees)], []));
  }

  // ----- Truth

  function EvalOperand(x: Operand, row: Row): Val
  {
    match x
    case ColumnOp(c, _) => Cell(row, c)
    case JsonOp(c, path) => Json(row, c, path)
    case JsonLength(c, path) => match Json(row, c, path) case VList(l) => VInt(|l|) case _ => VInt(0)
  }

  /** SQLite stores and passes truth values as 1 and 0. */
  function Normal(v: Val, d: Dialect): Val
  {
    if d == SQLite && v.VBool? then VInt(if v.b then 1 else 0) else v
  }

  function Separator(d: Dialect): string { if d == SQLite then "," else ", " }

  /** The text LIKE sees: a text column, or the JSON text of a list. */
  function LikeText(v: Val, d: Dialect): Option<string>
  {
    match v
    case VStr(s) => Some(s)
    case VList(l) => Some(Like.JsonText(l, Separator(d)))
    case _ => None
  }

  function LikeFold(x: Operand, anyCase: bool, d: Dialect, coll: Collation): Like.Fold
  {
    if anyCase then coll.text
    else if x.JsonOp? then coll.json
    else if d == MySQL then coll.text
    else c => c
  }

  function EvalLeaf(l: Leaf<Val>, row: Row, d: Dialect, coll: Collation): Truth
  {
    match l
    case AlwaysTrue => True
    case AlwaysFalse => False
    case IsNull(x) => Of(EvalOperand(x, row) == VNull)
    case IsNotNull(x) => Of(EvalOperand(x, row) != VNull)
    case IsTrue(x) => Of(EvalOperand(x, row) == VBool(true))
    case Compare(x, op, arg) => Compare3(op, Normal(EvalOperand(x, row), d), Normal(arg, d))
    case JsonCompare(x, op, b) => Compare3(op, EvalOperand(x, row), VBool(b))
    case InList(x, args) => Among3(EvalOperand(x, row), args)
    case HasElement(x, arg) =>
      (match (EvalOperand(x, row), arg)
       case (VList(l), VStr(s)) => Of(exists k :: 0 <= k < |l| && Like.Quote(l[k]) == s)
       case _ => Unknown)
    case LikePattern(x, arg, anyCase) =>
      (match (LikeText(EvalOperand(x, row), d), arg)
       case (Some(text), VStr(p)) => Of(Like.Matches(p, text, LikeFold(x, anyCase, d, coll), d != SQLite))
       case _ => Unknown)
    case NonEmpty(x) =>
      (match EvalOperand(x, row)
       case VList(l) => Of(l != [])
       case _ => Unknown)
  }

  function Eval(t: Tree<Val>, row: Row, d: Dialect, coll: Collation): Truth
  {
    match t
    case TLeaf(l) => EvalLeaf(l, row, d, coll)
    case TAnd(kids) => And3All(EvalAll(kids, row, d, coll))
    case TOr(kids) => Or3All(EvalAll(kids, row, d, coll))
    case TNot(kid) => Not3(Eval(kid, row, d, coll))
  }

  function EvalAll(kids: seq<Tree<Val>>, row: Row, d: Dialect, coll: Collation): (r: seq<Truth>)
    ensures |r| == |kids| && forall k :: 0 <= k < |kids| ==> r[k] == Eval(kids[k], row, d, coll)
  {
    if kids == [] then [] else [Eval(kids[0], row, d, coll)] + EvalAll(kids[1..], row, d, coll)
  }
}
