/** `translateRead`, `translateCreate` and `translate` as the generator runs them: local
    strings and a parameter object assigned clause by clause, and a loop over the create
    inputs that pushes to the accumulator's lists. Each is proved to compute what
    `TranslateSpec` defines. */
module Translator {
  import opened Wrappers
  import opened Text
  import opened Js
  import opened Schema
  import opened Foreign
  import opened TranslateSpec

  method TranslateRead(env: Collaborators, nodes: seq<Node>, tree: ResolveTree)
    returns (r: Result<Translation, Error>)
    ensures r == Read(env, nodes, tree)
  {
    var found := FindNode(nodes, env.singular(tree.name));
    if found.None? {
      return Err(UnknownNode(env.singular(tree.name)));
    }
    var node := found.value;
    var varName := "this";

    var matchStr := "MATCH (this:" + node.name + ")";
    var whereStr := "";
    var skipStr := "";
    var limitStr := "";
    var sortStr := "";
    var cypherParams: Params := [];

    var projection := env.projectionAndParams(node, tree.fieldsByTypeName, varName);
    var projStr := projection.0;
    cypherParams := Spread(cypherParams, projection.1);

    if tree.where.Some? && Truthy(tree.where.value) {
      var where := env.whereAndParams(tree.where.value, varName);
      whereStr := where.0;
      cypherParams := Spread(cypherParams, where.1);
    }

    if tree.options.Some? {
      var options := tree.options.value;
      if options.skip.Some? && options.skip.value != 0 {
        skipStr := "SKIP $this_skip";
        cypherParams := Set(cypherParams, "this_skip", Num(options.skip.value));
      }
      if options.limit.Some? && options.limit.value != 0 {
        limitStr := "LIMIT $this_limit";
        cypherParams := Set(cypherParams, "this_limit", Num(options.limit.value));
      }
      if |options.sort| > 0 {
        var sortArr := SortTermsOf(options.sort);
        sortStr := "ORDER BY " + Join(sortArr, ", ");
      }
    }

    var cypher := [matchStr, whereStr, "RETURN this " + projStr + " as this",
                   sortStr, skipStr, limitStr];
    assert cypher == ReadClauses(env, node, tree);
    r := Ok(Translation(Join(NonEmpty(cypher), "\n"), cypherParams));
  }

  /** Each sort option `<field>_DESC` or `<field>_ASC` as a `this.<field> <direction>` term. */
  method SortTermsOf(sort: seq<string>) returns (sortArr: seq<string>)
    ensures sortArr == SortTerms(sort)
  {
    sortArr := [];
    var i := 0;
    while i < |sort|
      invariant 0 <= i <= |sort|
      invariant |sortArr| == i
      invariant forall j :: 0 <= j < i ==> sortArr[j] == SortTerm(sort[j])
    {
      var s := sort[i];
      var key, direc;
      if Contains(s, "_DESC") {
        direc := "DESC";
        key := Split(s, "_DESC")[0];
      } else {
        direc := "ASC";
        key := Split(s, "_ASC")[0];
      }
      assert "this." + key + " " + direc == SortTerm(s);
      sortArr := sortArr + ["this." + key + " " + direc];
      i := i + 1;
    }
  }

  method TranslateCreate(env: Collaborators, nodes: seq<Node>, tree: ResolveTree)
    returns (r: Result<Translation, Error>)
    ensures r == Create(env, nodes, tree)
  {
    var parts := Split(tree.name, "create");
    if |parts| < 2 {
      return Err(MissingTypeName);
    }
    var found := FindNode(nodes, env.singular(parts[1]));
    if found.None? {
      return Err(UnknownNode(env.singular(parts[1])));
    }
    var node := found.value;

    var createStrs: seq<string> := [];
    var params: Params := [];
    var withVars: seq<string> := [];
    var index := 0;
    while index < |tree.input|
      invariant 0 <= index <= |tree.input|
      invariant CreateFold(env, node, tree.input, index, CreateAcc(createStrs, params, withVars))
             == CreateFold(env, node, tree.input, 0, CreateAcc([], [], []))
    {
      var varName := CreateVar(index);
      withVars := withVars + [varName];
      var createAndParams := env.createAndParams(tree.input[index], node, varName, withVars);
      var withStr := if |withVars| > 1 then "\nWITH " + Join(withVars[..|withVars| - 1], ", ") else "";
      createStrs := createStrs + [withStr + "\n" + createAndParams.0];
      params := Spread(params, createAndParams.1);
      index := index + 1;
    }

    var projection := env.projectionAndParams(node, tree.fieldsByTypeName, Placeholder);
    var replacedProjectionParams := RenameParams(projection.1, []);
    var projectionStr := Join(ProjectionItems(projection.0, |createStrs|), ", ");
    var cypher := Join(createStrs, "\n") + "\n\nRETURN " + projectionStr;
    r := Ok(Translation(cypher, Spread(params, replacedProjectionParams)));
  }

  method Translate(env: Collaborators, schema: Option<seq<Node>>, op: Operation, tree: ResolveTree)
    returns (r: Result<Translation, Error>)
    ensures r == Dispatch(env, schema, op, tree)
  {
    if schema.None? {
      return Err(InvalidSchema);
    }
    if op.operationType == "mutation" {
      if Contains(op.fieldName, "create") {
        r := TranslateCreate(env, schema.value, tree);
        return;
      }
    }
    r := TranslateRead(env, schema.value, tree);
  }
}
