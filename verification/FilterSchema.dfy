/** Fields a filter may name, and the condition tree a filter is translated to. */
module FilterSchema {
  import opened Wrappers

  datatype Dialect = SQLite | MySQL | Postgres

  datatype FieldType = StringType | IntType | BoolType | TimestampType

  datatype FieldKind = Scalar | BoolColumn | JSONBool | JSONList | VirtualAlias

  datatype Column = Column(table: string, name: string)

  datatype CompareOp = Eq | Neq | Lt | Lte | Gt | Gte

  /** `allowed` lists the comparison operators of the field; None allows all. `epoch` marks the
      columns that MySQL stores as timestamps. */
  datatype Field = Field(name: string, kind: FieldKind, typ: FieldType, column: Column, path: seq<string>,
                         aliasFor: string, supportsContains: bool, epoch: bool, allowed: Option<set<CompareOp>>)

  type Schema = map<string, Field>

  function ResolveAlias(schema: Schema, name: string): Option<Field>
  {
    if name !in schema then None
    else if schema[name].kind == VirtualAlias then
      if schema[name].aliasFor in schema then Some(schema[schema[name].aliasFor]) else None
    else Some(schema[name])
  }

  /** The renderer treats the name "tag" as an alias of a list. */
  ghost predicate ValidSchema(schema: Schema)
  {
    && "tag" in schema
    && schema["tag"].kind == VirtualAlias
    && ResolveAlias(schema, "tag").Some?
    && ResolveAlias(schema, "tag").value.kind == JSONList
    && forall n :: n in schema ==> schema[n].name == n && (schema[n].supportsContains ==> schema[n].kind == Scalar)
  }

  const EQUALITY := Some({Eq, Neq})

  function Plain(name: string, kind: FieldKind, typ: FieldType, allowed: Option<set<CompareOp>>): Field
  {
    Field(name, kind, typ, Column("memo", name), [], "", false, typ == TimestampType, allowed)
  }

  function Property(name: string, key: string): Field
  {
    Field(name, JSONBool, BoolType, Column("memo", "payload"), ["property", key], "", false, false, EQUALITY)
  }

  /** The fields of memos. */
  const MEMO_SCHEMA: Schema := map[
    "content" := Plain("content", Scalar, StringType, None).(supportsContains := true),
    "creator_id" := Plain("creator_id", Scalar, IntType, EQUALITY),
    "created_ts" := Plain("created_ts", Scalar, TimestampType, None),
    "updated_ts" := Plain("updated_ts", Scalar, TimestampType, None),
    "pinned" := Plain("pinned", BoolColumn, BoolType, EQUALITY),
    "visibility" := Plain("visibility", Scalar, StringType, EQUALITY),
    "tags" := Field("tags", JSONList, StringType, Column("memo", "payload"), ["tags"], "", false, false, None),
    "tag" := Field("tag", VirtualAlias, StringType, Column("", ""), [], "tags", false, false, None),
    "has_task_list" := Property("has_task_list", "hasTaskList"),
    "has_link" := Property("has_link", "hasLink"),
    "has_code" := Property("has_code", "hasCode"),
    "has_incomplete_tasks" := Property("has_incomplete_tasks", "hasIncompleteTasks")
  ]

  lemma MemoSchemaIsValid()
    ensures ValidSchema(MEMO_SCHEMA)
  {
    assert MEMO_SCHEMA["tag"].aliasFor == "tags" && MEMO_SCHEMA["tags"].kind == JSONList;
  }

  // ----- The condition tree

  /** A literal scalar. */
  datatype Literal = LInt(i: int) | LStr(s: string) | LBool(b: bool) | LNull

  datatype ValueExpr = FieldRef(name: string) | LiteralValue(lit: Literal) | FunctionValue(fn: string, arg: ValueExpr)

  datatype PredicateExpr = StartsWithP(prefix: string) | EndsWithP(suffix: string) | ContainsP(substring: string)

  datatype Condition =
    | And(left: Condition, right: Condition)
    | Or(left: Condition, right: Condition)
    | Not(expr: Condition)
    | FieldPredicate(field: string)
    | Comparison(lhs: ValueExpr, op: CompareOp, rhs: ValueExpr)
    | In(lhs: ValueExpr, values: seq<ValueExpr>)
    | ElementIn(element: ValueExpr, field: string)
    | Contains(field: string, text: string)
    | Exists(field: string, pred: PredicateExpr)
    | Constant(value: bool)
}
