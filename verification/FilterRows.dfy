/** Rows of a table, three-valued truth, and the comparisons both CEL and SQL make on stored values. */
module FilterRows {
  import opened Wrappers
  import opened FilterSchema
  import opened Strings
  import Like

  datatype Truth = False | Unknown | True

  function Of(b: bool): Truth { if b then True else False }

  function Not3(a: Truth): Truth { match a case False => True case Unknown => Unknown case True => False }

  function And3(a: Truth, b: Truth): Truth
  {
    if a == False || b == False then False else if a == True && b == True then True else Unknown
  }

  function Or3(a: Truth, b: Truth): Truth
  {
    if a == True || b == True then True else if a == False && b == False then False else Unknown
  }

  /** A stored value, a literal, or the value of an expression. */
  datatype Val = VNull | VInt(i: int) | VStr(s: string) | VBool(b: bool) | VList(l: seq<string>)

  /** What a row stores: a value per column, and a value per path inside a JSON column. */
  datatype Row = Row(cells: map<Column, Val>, json: map<(Column, seq<string>), Val>)

  function Cell(row: Row, c: Column): Val { if c in row.cells then row.cells[c] else VNull }

  function Json(row: Row, c: Column, path: seq<string>): Val
  {
    if (c, path) in row.json then row.json[(c, path)] else VNull
  }

  /** The value a row holds for a field. */
  function Stored(row: Row, f: Field): Val
  {
    if f.kind == JSONBool || f.kind == JSONList then Json(row, f.column, f.path) else Cell(row, f.column)
  }

  /** How a database compares letters: in text columns and inside JSON. */
  datatype Collation = Collation(text: Like.Fold, json: Like.Fold)

  predicate LessVal(a: Val, b: Val)
  {
    match (a, b)
    case (VInt(i), VInt(j)) => i < j
    case (VStr(s), VStr(t)) => TextLess(s, t)
    case (VBool(p), VBool(q)) => !p && q
    case _ => false
  }

  /** Comparing two present values. */
  predicate Holds(op: CompareOp, a: Val, b: Val)
  {
    match op
    case Eq => a == b
    case Neq => a != b
    case Lt => LessVal(a, b)
    case Gt => LessVal(b, a)
    case Lte => LessVal(a, b) || a == b
    case Gte => LessVal(b, a) || a == b
  }

  /** Comparing where either value may be missing. */
  function Compare3(op: CompareOp, a: Val, b: Val): Truth
  {
    if a == VNull || b == VNull then Unknown else Of(Holds(op, a, b))
  }

  function Or3All(ts: seq<Truth>): Truth
  {
    if ts == [] then False else Or3(ts[0], Or3All(ts[1..]))
  }

  function And3All(ts: seq<Truth>): Truth
  {
    if ts == [] then True else And3(ts[0], And3All(ts[1..]))
  }

  /** Membership among present values. Nothing, not even a missing value, is in an empty list. */
  function Among3(a: Val, values: seq<Val>): Truth
  {
    if values == [] then False else if a == VNull then Unknown else Of(a in values)
  }
}
