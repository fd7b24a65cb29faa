/** What the top-level translators compute: the read query (match, filter, projection,
    ordering and paging), the batch create (one create per input, then one projection per
    created variable) and the dispatch between them. */
module TranslateSpec {
  import opened Wrappers
  import opened Text
  import opened Js
  import opened Schema
  import opened Foreign

  /** `resolveTree.args.options` */
  datatype ReadOptions = ReadOptions(skip: Option<int>, limit: Option<int>, sort: seq<string>)

  /** The parsed request: the field name, the arguments the translators read and the
      requested selection. */
  datatype ResolveTree = ResolveTree(
    name: string,
    where: Option<Value>,
    options: Option<ReadOptions>,
    input: seq<Value>,
    fieldsByTypeName: Value)

  /** `resolveInfo.operation.operation` and `resolveInfo.fieldName` */
  datatype Operation = Operation(operationType: string, fieldName: string)

  datatype Translation = Translation(cypher: string, params: Params)

  /** `InvalidSchema` is the `"invalid schema"` error; the others stand for the type errors
      the source runs into when the root type cannot be found. */
  datatype Error = InvalidSchema | UnknownNode(name: string) | MissingTypeName

  // ---------------------------------------------------------------------------------------------
  // Read

  /** `if (n)` on an optional count: absent and zero are falsy. */
  predicate Given(n: Option<int>)
  {
    n.Some? && n.value != 0
  }

  /** The field of a sort token: the text before the first `_DESC` if it has one, before the
      first `_ASC` otherwise. */
  function SortKey(token: string): string
  {
    if Contains(token, "_DESC") then Split(token, "_DESC")[0] else Split(token, "_ASC")[0]
  }

  function SortDirection(token: string): string
  {
    if Contains(token, "_DESC") then "DESC" else "ASC"
  }

  function SortTerm(token: string): string
  {
    "this." + SortKey(token) + " " + SortDirection(token)
  }

  /** `sort.map(...)` */
  function SortTerms(tokens: seq<string>): (r: seq<string>)
    ensures |r| == |tokens| && forall i :: 0 <= i < |tokens| ==> r[i] == SortTerm(tokens[i])
  {
    seq(|tokens|, i requires 0 <= i < |tokens| => SortTerm(tokens[i]))
  }

  function SortClause(tokens: seq<string>): string
  {
    if tokens == [] then "" else "ORDER BY " + Join(SortTerms(tokens), ", ")
  }

  /** `lines.filter(Boolean)` */
  function NonEmpty(lines: seq<string>): seq<string>
  {
    if lines == [] then []
    else (if lines[0] != "" then [lines[0]] else []) + NonEmpty(lines[1..])
  }

  function WhereGiven(tree: ResolveTree): bool
  {
    tree.where.Some? && Truthy(tree.where.value)
  }

  function SkipGiven(tree: ResolveTree): bool
  {
    tree.options.Some? && Given(tree.options.value.skip)
  }

  function LimitGiven(tree: ResolveTree): bool
  {
    tree.options.Some? && Given(tree.options.value.limit)
  }

  /** The six clauses of the read query before empty ones are dropped. */
  function ReadClauses(env: Collaborators, node: Node, tree: ResolveTree): seq<string>
  {
    var projection := env.projectionAndParams(node, tree.fieldsByTypeName, "this");
    ["MATCH (this:" + node.name + ")",
     if WhereGiven(tree) then env.whereAndParams(tree.where.value, "this").0 else "",
     "RETURN this " + projection.0 + " as this",
     if tree.options.Some? then SortClause(tree.options.value.sort) else "",
     if SkipGiven(tree) then "SKIP $this_skip" else "",
     if LimitGiven(tree) then "LIMIT $this_limit" else ""]
  }

  /** Projection parameters, then filter parameters, then the paging values. */
  function ReadParams(env: Collaborators, node: Node, tree: ResolveTree): Params
  {
    var p0 := Spread([], env.projectionAndParams(node, tree.fieldsByTypeName, "this").1);
    var p1 := if WhereGiven(tree) then Spread(p0, env.whereAndParams(tree.where.value, "this").1) else p0;
    var p2 := if SkipGiven(tree) then Set(p1, "this_skip", Num(tree.options.value.skip.value)) else p1;
    if LimitGiven(tree) then Set(p2, "this_limit", Num(tree.options.value.limit.value)) else p2
  }

  function Read(env: Collaborators, nodes: seq<Node>, tree: ResolveTree): Result<Translation, Error>
  {
    var name := env.singular(tree.name);
    match FindNode(nodes, name)
    case None => Err(UnknownNode(name))
    case Some(node) => Ok(Translation(Join(NonEmpty(ReadClauses(env, node, tree)), "\n"), ReadParams(env, node, tree)))
  }

  // ---------------------------------------------------------------------------------------------
  // Create

  /** The reducer's accumulator `{ createStrs, params, withVars }`. */
  datatype CreateAcc = CreateAcc(createStrs: seq<string>, params: Params, withVars: seq<string>)

  function CreateVar(index: nat): string
  {
    "this" + NatToString(index)
  }

  /** One input: its variable joins the visible ones, and all earlier variables are carried
      over with a `WITH` before its create. */
  function CreateStep(env: Collaborators, node: Node, acc: CreateAcc, input: Value, index: nat): CreateAcc
  {
    var withVars := acc.withVars + [CreateVar(index)];
    var created := env.createAndParams(input, node, CreateVar(index), withVars);
    var withStr := if |withVars| > 1 then "\nWITH " + Join(withVars[..|withVars| - 1], ", ") else "";
    CreateAcc(acc.createStrs + [withStr + "\n" + created.0], Spread(acc.params, created.1), withVars)
  }

  function CreateFold(env: Collaborators, node: Node, inputs: seq<Value>, i: nat, acc: CreateAcc): CreateAcc
    decreases |inputs| - i
  {
    if i >= |inputs| then acc else CreateFold(env, node, inputs, i + 1, CreateStep(env, node, acc, inputs[i], i))
  }

  const Placeholder := "REPLACE_ME"

  /** The shared projection for created variable `index`: parameter references move to
      `$projection`, every other placeholder becomes the variable. */
  function Substitute(projection: string, index: nat): string
  {
    ReplaceAll(ReplaceAll(projection, "$" + Placeholder, "$projection"), Placeholder, CreateVar(index))
  }

  /** A projection parameter key: its first placeholder becomes `projection`. */
  function RenameKey(key: string): string
  {
    ReplaceFirst(key, Placeholder, "projection")
  }

  /** The reduce that renames the projection parameters. */
  function RenameParams(fields: Params, acc: Params): Params
  {
    if fields == [] then acc
    else RenameParams(fields[1..], Set(acc, RenameKey(fields[0].key), fields[0].val))
  }

  function ProjectionItems(projection: string, n: nat): (r: seq<string>)
    ensures |r| == n
  {
    seq(n, i requires 0 <= i < n => "\n" + CreateVar(i) + " " + Substitute(projection, i) + " AS " + CreateVar(i))
  }

  function Create(env: Collaborators, nodes: seq<Node>, tree: ResolveTree): Result<Translation, Error>
  {
    var parts := Split(tree.name, "create");
    if |parts| < 2 then Err(MissingTypeName)
    else
      var name := env.singular(parts[1]);
      match FindNode(nodes, name)
      case None => Err(UnknownNode(name))
      case Some(node) =>
        var acc := CreateFold(env, node, tree.input, 0, CreateAcc([], [], []));
        var projection := env.projectionAndParams(node, tree.fieldsByTypeName, Placeholder);
        var items := ProjectionItems(projection.0, |acc.createStrs|);
        Ok(Translation(Join(acc.createStrs, "\n") + "\n\nRETURN " + Join(items, ", "),
                       Spread(acc.params, RenameParams(projection.1, []))))
  }

  // ---------------------------------------------------------------------------------------------
  // Dispatch

  predicate IsCreate(op: Operation)
  {
    op.operationType == "mutation" && Contains(op.fieldName, "create")
  }

  /** `translate`: `schema` is `None` when the context holds no schema object. */
  function Dispatch(env: Collaborators, schema: Option<seq<Node>>, op: Operation, tree: ResolveTree): Result<Translation, Error>
  {
    if schema.None? then Err(InvalidSchema)
    else if IsCreate(op) then Create(env, schema.value, tree)
    else Read(env, schema.value, tree)
  }
}
