/** The syntax tree of a `standardoc.sxd` file and the rules of its schema. */
module SxdTree {
  import opened Prelude

  /** A piece of a string literal; the library may add kinds this program does not know. */
  datatype Part = Lit(text: string) | Interp(span: int) | OtherPart

  datatype Value = Value(span: int, expr: Expr)

  datatype Expr = Str(parts: seq<Part>) | Int(n: int) | List(items: seq<Value>) | OtherExpr

  datatype Stmt =
    | Assign(keySpan: int, key: string, value: Value)
    | Block(kindSpan: int, kind: string, blockLabel: Option<string>, stmts: seq<Stmt>)
    | OtherStmt

  /** What a message is about; `slug` is the label of a project or group, empty elsewhere. */
  datatype Rule =
    | UnknownAssign(key: string)
    | UnknownBlock(kind: string)
    | UnknownStatement
    | Duplicate(kind: string)
    | MissingLabel(kind: string)
    | UnknownField(kind: string, slug: string, key: string)
    | OnlyAssignments(kind: string, slug: string)
    | NotAString(context: string)
    | Interpolated(context: string)
    | UnknownPart(context: string)
    | NotAList(context: string)
    | NotAPort(context: string)
    | PortOutOfRange(context: string, n: int)
    | PathAndPaths(slug: string)
    | NoPath(slug: string)
    | EmptyPaths(slug: string)

  datatype Result<+T> = Ok(value: T) | Err(rule: Rule)

  const MAX_PORT := 65535
}
