/** `createDeleteAndParams` as the generator runs it: a reduce over the input's
    entries whose reducer walks the target types and the elements of each, pushing
    each element's lines to a local list and appending that list to the accumulator
    at the end, and recursing for nested deletes. Each method is proved to compute
    what `DeleteSpec` defines. */
module CreateDelete {
  import opened Wrappers
  import opened Text
  import opened Js
  import opened Schema
  import opened Foreign
  import opened Naming
  import opened DeleteSpec

  method CreateDeleteAndParams(env: Collaborators, ctx: Context, c: Call, deleteInput: Value)
    returns (cypher: string, params: Params)
    ensures (cypher, params) == DeleteAndParams(env, ctx, c, deleteInput)
    decreases Size(deleteInput), 0
  {
    var entries := Entries(deleteInput);
    EntriesSmaller(deleteInput);
    var res := Res([], []);
    var k := 0;
    while k < |entries|
      invariant 0 <= k <= |entries|
      invariant Fields(env, ctx, c, entries[k..], res) == Fields(env, ctx, c, entries, Res([], []))
    {
      FieldSmaller(entries, k);
      assert entries[k..][1..] == entries[k + 1..];
      res := Reduce(env, ctx, c, res, entries[k].key, entries[k].val);
      k := k + 1;
    }
    cypher := Join(res.strs, "\n");
    params := res.params;
  }

  /** The reducer. */
  method Reduce(env: Collaborators, ctx: Context, c: Call, res: Res, key: string, value: Value)
    returns (out: Res)
    ensures out == Reducer(env, ctx, c, key, value, res)
    decreases Size(value), 4
  {
    var relationField := FindRelation(c.node.relationFields, key);
    if relationField.None? {
      return res;
    }
    var rel := relationField.value;

    var refNodes := CollectRefNodes(ctx.nodes, rel, value);
    out := DeleteTargets(env, ctx, c, key, rel, value, refNodes, res);
  }

  /** `refNodes.forEach`: each target's part of the value, element by element. */
  method DeleteTargets(env: Collaborators, ctx: Context, c: Call, key: string, rel: RelationField, value: Value,
                       refNodes: seq<Node>, res: Res)
    returns (out: Res)
    ensures out == Targets(env, ctx, c, key, rel, value, refNodes, 0, res)
    decreases Size(value), 3
  {
    out := res;
    var t := 0;
    while t < |refNodes|
      invariant 0 <= t <= |refNodes|
      invariant Targets(env, ctx, c, key, rel, value, refNodes, t, out)
             == Targets(env, ctx, c, key, rel, value, refNodes, 0, res)
    {
      var refNode := refNodes[t];
      var v := TargetInput(rel, value, refNode);
      TargetInputSmaller(rel, value, refNode);
      TargetsStep(env, ctx, c, key, rel, value, refNodes, t, out);
      out := DeleteElements(env, ctx, c, key, rel, refNode, v, out);
      t := t + 1;
    }
  }

  /** The loop over the elements meant for one target node. */
  method DeleteElements(env: Collaborators, ctx: Context, c: Call, key: string, rel: RelationField, refNode: Node,
                        v: Value, res: Res)
    returns (out: Res)
    ensures out == Elements(env, ctx, c, key, rel, refNode, v, 0, res)
    decreases Size(v), 2
  {
    var deletes := Deletes(rel, v);
    out := res;
    var index := 0;
    while index < |deletes|
      invariant 0 <= index <= |deletes|
      invariant Elements(env, ctx, c, key, rel, refNode, v, index, out)
             == Elements(env, ctx, c, key, rel, refNode, v, 0, res)
    {
      DeletesSmaller(rel, v, index);
      ElementsStep(env, ctx, c, key, rel, refNode, v, index, out);
      out := DeleteElement(env, ctx, c, Site(key, rel, refNode, index), deletes[index], out);
      index := index + 1;
    }
  }

  lemma TargetsStep(env: Collaborators, ctx: Context, c: Call, key: string, rel: RelationField, value: Value,
                    refs: seq<Node>, t: nat, acc: Res)
    requires t < |refs|
    ensures Targets(env, ctx, c, key, rel, value, refs, t, acc)
         == Targets(env, ctx, c, key, rel, value, refs, t + 1,
                    Elements(env, ctx, c, key, rel, refs[t], TargetInput(rel, value, refs[t]), 0, acc))
  {
  }

  lemma ElementsStep(env: Collaborators, ctx: Context, c: Call, key: string, rel: RelationField, ref: Node,
                     tv: Value, i: nat, acc: Res)
    requires i < |Deletes(rel, tv)|
    ensures Elements(env, ctx, c, key, rel, ref, tv, i, acc)
         == Elements(env, ctx, c, key, rel, ref, tv, i + 1,
                     ElementStep(env, ctx, c, Site(key, rel, ref, i), Deletes(rel, tv)[i], acc))
  {
  }

  /** The target nodes of a relationship field. */
  method CollectRefNodes(nodes: seq<Node>, rel: RelationField, value: Value) returns (refNodes: seq<Node>)
    ensures refNodes == RefNodes(nodes, rel, value)
  {
    refNodes := ResolveNames(nodes, TargetNames(rel, value));
  }

  /** Looks the names up one at a time, keeping the nodes found in order. */
  method ResolveNames(nodes: seq<Node>, names: seq<string>) returns (refNodes: seq<Node>)
    ensures refNodes == Resolve(nodes, names)
  {
    refNodes := [];
    var n := 0;
    while n < |names|
      invariant 0 <= n <= |names|
      invariant refNodes + Resolve(nodes, names[n..]) == Resolve(nodes, names)
    {
      var found := FindNode(nodes, names[n]);
      ResolveStep(nodes, names, n);
      ghost var rest := Resolve(nodes, names[n + 1..]);
      if found.Some? {
        assert refNodes + [found.value] + rest == refNodes + ([found.value] + rest);
        refNodes := refNodes + [found.value];
      }
      n := n + 1;
    }
    assert names[n..] == [];
  }

  /** Resolving from the `n`-th name on: that name's node, if any, then the rest. */
  lemma ResolveStep(nodes: seq<Node>, names: seq<string>, n: nat)
    requires n < |names|
    ensures FindNode(nodes, names[n]).None? ==> Resolve(nodes, names[n..]) == Resolve(nodes, names[n + 1..])
    ensures FindNode(nodes, names[n]).Some? ==>
              Resolve(nodes, names[n..]) == [FindNode(nodes, names[n]).value] + Resolve(nodes, names[n + 1..])
  {
    assert names[n..][1..] == names[n + 1..];
  }

  /** The body of the loop over an element's deletes: build the element's lines, then append
      them; an element whose filter cannot be compiled returns before appending. */
  method DeleteElement(env: Collaborators, ctx: Context, c: Call, s: Site, d: Value, res: Res)
    returns (out: Res)
    ensures out == ElementStep(env, ctx, c, s, d, res)
    decreases Size(d), 1
  {
    var variableName := Var(c, s);
    var relationshipVariable := RelationshipVariable(variableName);
    var params := res.params;

    var innerStrs := ["WITH *", "CALL {"];
    innerStrs := innerStrs + ImportLines(env, ctx, c);
    innerStrs := innerStrs + [MatchLine(c.parentVar, s.rel.direction, relationshipVariable, s.rel.relType,
                                        variableName, env.labelString(s.ref))];
    ghost var head := innerStrs;

    var filtered, subquery, whereStrs, aggregationWhere;
    filtered, subquery, whereStrs, aggregationWhere, params := ConnectionFilter(env, c, s, d, params);
    if !filtered {
      innerStrs := innerStrs + [" \n}"];
      return res;
    }
    innerStrs := innerStrs + subquery;
    ghost var f := FilterOf(env, c, s, d, res.params).value;

    var guardStrs, guardParams := AuthGuards(env, ctx, c, s, whereStrs, aggregationWhere, params);
    innerStrs := innerStrs + guardStrs;
    params := guardParams;
    ghost var v := variableName;
    ghost var whereLines := WhereLines(env, f.preds + (if env.authWhere(s.ref, v).0 != "" then [env.authWhere(s.ref, v).0] else []),
                                       f.aggregate, relationshipVariable, v);
    ghost var allowLines := AllowLines(env, ctx, c, v, env.authAllow(s.ref, v, c.insideDoWhen).0);
    AppendPair(head + f.subquery, whereLines, allowLines);
    ghost var p2 := params;

    var nestedStrs, nestedParams := NestedDeletes(env, ctx, c, s, d, params);
    innerStrs := innerStrs + nestedStrs;
    params := nestedParams;

    innerStrs := innerStrs + TailLines(env, ctx, c, s);
    out := Res(res.strs + innerStrs, params);
    ElementUnfold(env, ctx, c, s, d, res, f, p2);
  }

  /** An element whose filter compiles appends its head, filter, guards, nested deletes
      and tail, in that order. */
  lemma ElementUnfold(env: Collaborators, ctx: Context, c: Call, s: Site, d: Value, res: Res, f: Filter, p2: Params)
    requires FilterOf(env, c, s, d, res.params) == Some(f)
    requires var v := Var(c, s);
             var whereAuth := env.authWhere(s.ref, v);
             var allowAuth := env.authAllow(s.ref, v, c.insideDoWhen);
             var p1 := if whereAuth.0 != "" then Spread(f.params, whereAuth.1) else f.params;
             p2 == (if allowAuth.0 != "" then Spread(p1, allowAuth.1) else p1)
    ensures var v := Var(c, s);
            var whereAuth := env.authWhere(s.ref, v);
            var n := NestedStep(env, ctx, c, s, d, p2);
            ElementStep(env, ctx, c, s, d, res)
              == Res(res.strs + (HeadLines(env, ctx, c, s) + f.subquery
                                 + WhereLines(env, f.preds + (if whereAuth.0 != "" then [whereAuth.0] else []),
                                              f.aggregate, RelationshipVariable(v), v)
                                 + AllowLines(env, ctx, c, v, env.authAllow(s.ref, v, c.insideDoWhen).0)
                                 + n.strs + TailLines(env, ctx, c, s)),
                     n.params)
  {
  }

  lemma AppendPair(x: seq<string>, y: seq<string>, z: seq<string>)
    ensures x + (y + z) == x + y + z
  {
  }

  /** The `WHERE` line, joining the filter's predicates with the `where` authorization
      rule, and the `allow` validation; returns those lines and the parameters. */
  method AuthGuards(env: Collaborators, ctx: Context, c: Call, s: Site, preds: seq<string>, aggregationWhere: bool,
                    p: Params)
    returns (strs: seq<string>, params: Params)
    ensures var v := Var(c, s);
            var whereAuth := env.authWhere(s.ref, v);
            var allowAuth := env.authAllow(s.ref, v, c.insideDoWhen);
            var p1 := if whereAuth.0 != "" then Spread(p, whereAuth.1) else p;
            && strs == WhereLines(env, preds + (if whereAuth.0 != "" then [whereAuth.0] else []), aggregationWhere,
                                  RelationshipVariable(v), v)
                       + AllowLines(env, ctx, c, v, allowAuth.0)
            && params == (if allowAuth.0 != "" then Spread(p1, allowAuth.1) else p1)
  {
    var variableName := Var(c, s);
    var relationshipVariable := RelationshipVariable(variableName);
    var whereStrs := preds;
    params := p;
    strs := [];
    var whereAuth := env.authWhere(s.ref, variableName);
    if whereAuth.0 != "" {
      whereStrs := whereStrs + [whereAuth.0];
      params := Spread(params, whereAuth.1);
    }
    assert whereStrs == preds + (if whereAuth.0 != "" then [whereAuth.0] else []);
    if |whereStrs| > 0 {
      var pred := Join(whereStrs, " AND ");
      if aggregationWhere {
        strs := strs + [env.caseWhere(pred, relationshipVariable, variableName)];
      } else {
        strs := strs + ["WHERE " + pred];
      }
    }
    assert strs == WhereLines(env, whereStrs, aggregationWhere, relationshipVariable, variableName);

    var allowAuth := env.authAllow(s.ref, variableName, c.insideDoWhen);
    if allowAuth.0 != "" {
      strs := strs + AllowLines(env, ctx, c, variableName, allowAuth.0);
      params := Spread(params, allowAuth.1);
    }
  }

  /** The `where` of an element compiled into a connection filter: the predicate, the
      aggregation subquery it needs and its parameters. `filtered` is false only when the
      compiler fails, which ends the element; a predicate compiled to the empty string keeps
      the element with an empty filter. */
  method ConnectionFilter(env: Collaborators, c: Call, s: Site, d: Value, p: Params)
    returns (filtered: bool, subquery: seq<string>, whereStrs: seq<string>, aggregationWhere: bool, params: Params)
    ensures filtered <==> FilterOf(env, c, s, d, p).Some?
    ensures filtered ==> Filter(whereStrs, subquery, aggregationWhere, params) == FilterOf(env, c, s, d, p).value
  {
    filtered := true;
    subquery := [];
    whereStrs := [];
    aggregationWhere := false;
    params := p;
    var where := Get(d, "where");
    if IsSet(where) {
      var compiled := env.connectionWhere(WhereRequestFor(c, s, where.value));
      if compiled.None? {
        filtered := false;
        return;
      }
      var wr := compiled.value;
      if wr.cypher != "" {
        whereStrs := whereStrs + [wr.cypher];
        params := Spread(params, wr.params);
        if wr.subquery != "" {
          subquery := subquery + [wr.subquery];
          aggregationWhere := true;
        }
      }
    }
  }

  /** `if (d.delete)`: the nested delete of the filtered input, then one delete per
      `_on.<Type>` override; returns the lines pushed and the new parameters. */
  method NestedDeletes(env: Collaborators, ctx: Context, c: Call, s: Site, d: Value, params: Params)
    returns (strs: seq<string>, out: Params)
    ensures Res(strs, out) == NestedStep(env, ctx, c, s, d, params)
    decreases Size(d), 0
  {
    strs := [];
    out := params;
    var nested := Get(d, "delete");
    if IsSet(nested) {
      var dd := nested.value;
      GetSmaller(d, "delete");
      var overrides := Override(s, dd);
      NestedInputSmaller(dd, overrides);
      var prefix := NestedPrefix(c.parameterPrefix, c.recursing, s.key, s.rel, s.ref.name, s.index);
      var nestedCypher, nestedParams := CreateDeleteAndParams(env, ctx, InnerCall(ctx, c, s, prefix),
                                                              NestedInput(dd, overrides));
      strs := [nestedCypher];
      out := Spread(out, nestedParams);
      assert Res(strs, out) == Res([DeleteAndParams(env, ctx, InnerCall(ctx, c, s, prefix), NestedInput(dd, overrides)).0],
                                   Spread(params, DeleteAndParams(env, ctx, InnerCall(ctx, c, s, prefix), NestedInput(dd, overrides)).1));

      if overrides.Some? {
        OverrideSmaller(s, dd);
        var r := OverrideDeletes(env, ctx, c, s, overrides.value, Res(strs, out));
        strs, out := r.strs, r.params;
      }
    }
  }

  /** `onDeletes.forEach(...)`: one nested delete per `_on.<Type>` override. */
  method OverrideDeletes(env: Collaborators, ctx: Context, c: Call, s: Site, on: Value, acc: Res)
    returns (r: Res)
    ensures r == OnDeletes(env, ctx, c, s, on, 0, acc)
    decreases Size(on), 1
  {
    var onDeletes := AsList(on);
    r := acc;
    var onIndex := 0;
    while onIndex < |onDeletes|
      invariant 0 <= onIndex <= |onDeletes|
      invariant OnDeletes(env, ctx, c, s, on, onIndex, r) == OnDeletes(env, ctx, c, s, on, 0, acc)
    {
      AsListSmaller(on, onIndex);
      var onPrefix := OnPrefix(c.parameterPrefix, c.recursing, s.key, s.rel, s.ref.name, s.index, onIndex);
      var onCypher, onParams := CreateDeleteAndParams(env, ctx, InnerCall(ctx, c, s, onPrefix), onDeletes[onIndex]);
      OnDeletesStep(env, ctx, c, s, on, onIndex, r);
      r := Res(r.strs + [onCypher], Spread(r.params, onParams));
      onIndex := onIndex + 1;
    }
  }

  lemma OnDeletesStep(env: Collaborators, ctx: Context, c: Call, s: Site, on: Value, j: nat, acc: Res)
    requires j < |AsList(on)|
    ensures var nested := DeleteAndParams(env, ctx,
                                          InnerCall(ctx, c, s, OnPrefix(c.parameterPrefix, c.recursing, s.key, s.rel,
                                                                        s.ref.name, s.index, j)),
                                          AsList(on)[j]);
            OnDeletes(env, ctx, c, s, on, j, acc)
              == OnDeletes(env, ctx, c, s, on, j + 1, Res(acc.strs + [nested.0], Spread(acc.params, nested.1)))
  {
  }

  lemma {:induction false} FieldSmaller(fields: seq<Field>, k: nat)
    requires k < |fields|
    ensures Size(fields[k].val) <= FieldsSize(fields)
  {
    if k > 0 {
      FieldSmaller(fields[1..], k - 1);
    }
  }
}
