/** What `createDeleteAndParams` computes, as functions over the delete input.
    The input is an object whose keys are relationship fields of the node being
    deleted; every element of every target it names becomes one block of lines
    that matches the related node, filters and authorizes it, runs the nested
    deletes, and detaches and deletes it inside a `CALL { … }` subquery. Lines of
    all elements are joined with newlines; parameters are merged with `{...a, ...b}`
    in the order the generator merges them. */
module DeleteSpec {
  import opened Wrappers
  import opened Text
  import opened Js
  import opened Schema
  import opened Foreign
  import opened Naming

  datatype Context = Context(nodes: seq<Node>, subscriptionsEnabled: bool)

  /** The arguments of one call other than the input and the context. */
  datatype Call = Call(
    varName: string,
    node: Node,
    parentVar: string,
    chainStr: string,
    withVars: seq<string>,
    insideDoWhen: bool,
    parameterPrefix: string,
    recursing: bool)

  /** The reducer's accumulator `{ strs, params }`. */
  datatype Res = Res(strs: seq<string>, params: Params)

  /** Where an element sits: field key, relation, target type and index in the field's list. */
  datatype Site = Site(key: string, rel: RelationField, ref: Node, index: nat)

  /** An element's filter after the connection-filter compiler: the predicates of the WHERE
      so far, the precomputed subquery lines, whether the WHERE must go through `caseWhere`,
      and the parameters. */
  datatype Filter = Filter(preds: seq<string>, subquery: seq<string>, aggregate: bool, params: Params)

  /** The lines of one element, in the order they are emitted. */
  datatype Parts = Parts(
    head: seq<string>,
    subquery: seq<string>,
    where: seq<string>,
    allow: seq<string>,
    nested: seq<string>,
    tail: seq<string>)

  datatype Emitted = Emitted(parts: Parts, params: Params)

  function Lines(e: Parts): seq<string>
  {
    e.head + e.subquery + e.where + e.allow + e.nested + e.tail
  }

  // ---------------------------------------------------------------------------------------------
  // Targets of a relationship field

  /** The type names a field's value is deleted from: the keys of a union value, an
      interface's implementations, or the field's declared type. */
  function TargetNames(rel: RelationField, value: Value): seq<string>
  {
    match rel.kind
    case Union => Keys(Entries(value))
    case Interface(impls) => impls
    case Plain => [rel.typeName]
  }

  /** The nodes of the names that resolve, in order. */
  function Resolve(nodes: seq<Node>, names: seq<string>): seq<Node>
  {
    if names == [] then []
    else
      (match FindNode(nodes, names[0]) case None => [] case Some(n) => [n]) + Resolve(nodes, names[1..])
  }

  function RefNodes(nodes: seq<Node>, rel: RelationField, value: Value): seq<Node>
  {
    Resolve(nodes, TargetNames(rel, value))
  }

  /** The part of the field's value meant for one target: a union value's entry for the type. */
  function TargetInput(rel: RelationField, value: Value, ref: Node): Value
  {
    if rel.kind.Union? then (match Get(value, ref.name) case None => Null case Some(x) => x)
    else value
  }

  /** The elements to delete: the list of a list field, the single value otherwise. */
  function Deletes(rel: RelationField, v: Value): seq<Value>
  {
    if rel.isArray then (if v.List? then v.items else []) else [v]
  }

  // ---------------------------------------------------------------------------------------------
  // The lines of one element

  function Var(c: Call, s: Site): string
  {
    VariableName(c.varName, c.chainStr, s.key, s.rel, s.ref.name, s.index)
  }

  /** `filterMetaVariable(withVars).join(", ")` */
  function VarsWithoutMeta(env: Collaborators, c: Call): string
  {
    Join(env.filterMetaVariable(c.withVars), ", ")
  }

  function ImportLines(env: Collaborators, ctx: Context, c: Call): seq<string>
  {
    if ctx.subscriptionsEnabled then
      ["WITH " + VarsWithoutMeta(env, c), "WITH " + VarsWithoutMeta(env, c) + ", []  AS meta"]
    else ["WITH " + Join(c.withVars, ", ")]
  }

  function HeadLines(env: Collaborators, ctx: Context, c: Call, s: Site): seq<string>
  {
    var v := Var(c, s);
    ["WITH *", "CALL {"] + ImportLines(env, ctx, c)
      + [MatchLine(c.parentVar, s.rel.direction, RelationshipVariable(v), s.rel.relType, v, env.labelString(s.ref))]
  }

  function WhereRequestFor(c: Call, s: Site, whereInput: Value): WhereRequest
  {
    var v := Var(c, s);
    WhereRequest(v, whereInput, s.ref, RelationshipVariable(v), s.rel,
                 WherePrefix(c.parameterPrefix, c.recursing, s.key, s.rel, s.ref.name, s.index))
  }

  /** The element's filter, or `None` when the filter compiler throws. */
  function FilterOf(env: Collaborators, c: Call, s: Site, d: Value, p: Params): Option<Filter>
  {
    var w := Get(d, "where");
    if !IsSet(w) then Some(Filter([], [], false, p))
    else
      match env.connectionWhere(WhereRequestFor(c, s, w.value))
      case None => None
      case Some(wr) =>
        if wr.cypher == "" then Some(Filter([], [], false, p))
        else if wr.subquery == "" then Some(Filter([wr.cypher], [], false, Spread(p, wr.params)))
        else Some(Filter([wr.cypher], [wr.subquery], true, Spread(p, wr.params)))
  }

  function WhereLines(env: Collaborators, preds: seq<string>, aggregate: bool, r: string, v: string): seq<string>
  {
    if preds == [] then []
    else if aggregate then [env.caseWhere(Join(preds, " AND "), r, v)]
    else ["WHERE " + Join(preds, " AND ")]
  }

  /** The quote around the error message: escaped inside a `do when`. */
  function Quote(insideDoWhen: bool): string
  {
    if insideDoWhen then "\\\"" else "\""
  }

  function AllowLines(env: Collaborators, ctx: Context, c: Call, v: string, allow: string): seq<string>
  {
    if allow == "" then []
    else
      ["WITH " + VarsWithoutMeta(env, c) + (if ctx.subscriptionsEnabled then ", meta" else "")
         + ", " + v + ", " + RelationshipVariable(v),
       "CALL apoc.util.validate(NOT (" + allow + "), " + Quote(c.insideDoWhen) + env.authForbiddenError
         + Quote(c.insideDoWhen) + ", [0])"]
  }

  /** The relationship-deleted event: from the related node `x` to the parent for an
      incoming field, from the parent to `x` otherwise. */
  function EventFor(c: Call, s: Site): RelationshipEvent
  {
    var r := RelationshipVariable(Var(c, s));
    if s.rel.direction == "IN" then
      RelationshipEvent("delete_relationship", r, "x", c.parentVar, s.rel.relType, s.ref.name, c.node.name)
    else
      RelationshipEvent("delete_relationship", r, c.parentVar, "x", s.rel.relType, c.node.name, s.ref.name)
  }

  function TailLines(env: Collaborators, ctx: Context, c: Call, s: Site): seq<string>
  {
    var v := Var(c, s);
    var r := RelationshipVariable(v);
    var td := v + "_to_delete";
    if ctx.subscriptionsEnabled then
      SubscriptionTailLines(VarsWithoutMeta(env, c), r, v, td, env.eventMeta("delete", "x", s.ref.name),
                            env.relationshipEventMeta(EventFor(c, s)))
    else PlainTailLines(r, v, td)
  }

  /** The tail with subscriptions: collect the nodes, delete them one by one gathering the
      node and relationship events, then fold the events into `meta`. */
  function SubscriptionTailLines(vwm: string, r: string, v: string, td: string, meta: string, ev: string)
    : seq<string>
  {
    ["WITH " + vwm + ", meta, " + r + ", collect(DISTINCT " + v + ") AS " + td,
     "CALL {",
     "\tWITH " + r + ", " + td + ", " + vwm,
     "\tUNWIND " + td + " AS x",
     "\tWITH [] + " + meta + " + " + ev + " AS meta, x, " + r + ", " + vwm,
     "\tDETACH DELETE x",
     "\tRETURN collect(meta) AS delete_meta",
     "}",
     "WITH delete_meta, meta",
     "RETURN REDUCE(m=meta, n IN delete_meta | m + n) AS delete_meta",
     "}",
     "WITH " + vwm + ", meta, collect(delete_meta) as delete_meta",
     "WITH " + vwm + ", REDUCE(m=meta, n IN delete_meta | m + n) AS meta"]
  }

  /** The tail without subscriptions: collect the nodes and detach-delete them. */
  function PlainTailLines(r: string, v: string, td: string): seq<string>
  {
    ["WITH " + r + ", collect(DISTINCT " + v + ") AS " + td,
     "CALL {",
     "\tWITH " + td,
     "\tUNWIND " + td + " AS x",
     "\tDETACH DELETE x",
     "}",
     "}"]
  }


  // ---------------------------------------------------------------------------------------------
  // Nested deletes

  /** `d.delete._on[<Type>]` of an interface element, when set. */
  function Override(s: Site, dd: Value): Option<Value>
  {
    if !s.rel.kind.Interface? then None
    else
      var on := Get(dd, "_on");
      if on.None? then None
      else
        var o := Get(on.value, s.ref.name);
        if IsSet(o) then Some(o.value) else None
  }

  /** Some object of the list holds `key` as an own property. */
  predicate AnyHasOwn(items: seq<Value>, key: string)
  {
    exists i :: 0 <= i < |items| && HasOwn(items[i], key)
  }

  /** A key survives into the nested delete unless it is `_on` or an override sets it. */
  predicate KeepKey(key: string, overrides: Option<Value>)
  {
    key != "_on" && !(overrides.Some? && AnyHasOwn(AsList(overrides.value), key))
  }

  function NestedFields(fields: seq<Field>, overrides: Option<Value>): seq<Field>
  {
    if fields == [] then []
    else (if KeepKey(fields[0].key, overrides) then [fields[0]] else []) + NestedFields(fields[1..], overrides)
  }

  function NestedInput(dd: Value, overrides: Option<Value>): Value
  {
    Obj(NestedFields(Entries(dd), overrides))
  }

  function InnerWithVars(ctx: Context, c: Call, s: Site): seq<string>
  {
    var v := Var(c, s);
    if ctx.subscriptionsEnabled then c.withVars + [v, RelationshipVariable(v)] else c.withVars + [v]
  }

  /** The call for a nested delete of the element, under the given parameter prefix. */
  function InnerCall(ctx: Context, c: Call, s: Site, prefix: string): Call
  {
    var v := Var(c, s);
    Call(v, s.ref, v, "", InnerWithVars(ctx, c, s), false, prefix, false)
  }

  // ---------------------------------------------------------------------------------------------
  // The generator

  /** `createDeleteAndParams`: the joined lines and the parameters. */
  function DeleteAndParams(env: Collaborators, ctx: Context, c: Call, input: Value): (string, Params)
    decreases Size(input), 6, 0
  {
    EntriesSmaller(input);
    var r := Fields(env, ctx, c, Entries(input), Res([], []));
    (Join(r.strs, "\n"), r.params)
  }

  /** The reduce over the input's entries. */
  function Fields(env: Collaborators, ctx: Context, c: Call, fields: seq<Field>, acc: Res): Res
    decreases FieldsSize(fields), 5, |fields|
  {
    if fields == [] then acc
    else Fields(env, ctx, c, fields[1..], Reducer(env, ctx, c, fields[0].key, fields[0].val, acc))
  }

  /** The reducer: a key that names no relationship field leaves the accumulator alone. */
  function Reducer(env: Collaborators, ctx: Context, c: Call, key: string, value: Value, acc: Res): Res
    decreases Size(value), 4, 0
  {
    match FindRelation(c.node.relationFields, key)
    case None => acc
    case Some(rel) => Targets(env, ctx, c, key, rel, value, RefNodes(ctx.nodes, rel, value), 0, acc)
  }

  function Targets(env: Collaborators, ctx: Context, c: Call, key: string, rel: RelationField, value: Value,
                   refs: seq<Node>, t: nat, acc: Res): Res
    decreases Size(value), 3, |refs| - t
  {
    if t >= |refs| then acc
    else
      TargetInputSmaller(rel, value, refs[t]);
      var acc' := Elements(env, ctx, c, key, rel, refs[t], TargetInput(rel, value, refs[t]), 0, acc);
      Targets(env, ctx, c, key, rel, value, refs, t + 1, acc')
  }

  function Elements(env: Collaborators, ctx: Context, c: Call, key: string, rel: RelationField, ref: Node,
                    tv: Value, i: nat, acc: Res): Res
    decreases Size(tv), 2, |Deletes(rel, tv)| - i
  {
    var ds := Deletes(rel, tv);
    if i >= |ds| then acc
    else
      DeletesSmaller(rel, tv, i);
      Elements(env, ctx, c, key, rel, ref, tv, i + 1, ElementStep(env, ctx, c, Site(key, rel, ref, i), ds[i], acc))
  }

  /** One element: its lines and parameters are added, unless its filter could not be compiled,
      in which case it adds nothing. */
  function ElementStep(env: Collaborators, ctx: Context, c: Call, s: Site, d: Value, acc: Res): Res
    decreases Size(d), 1, 0
  {
    match Element(env, ctx, c, s, d, acc.params)
    case None => acc
    case Some(e) => Res(acc.strs + Lines(e.parts), e.params)
  }

  function Element(env: Collaborators, ctx: Context, c: Call, s: Site, d: Value, p: Params): Option<Emitted>
    decreases Size(d), 0, 2
  {
    match FilterOf(env, c, s, d, p)
    case None => None
    case Some(f) =>
      var v := Var(c, s);
      var whereAuth := env.authWhere(s.ref, v);
      var preds := f.preds + (if whereAuth.0 != "" then [whereAuth.0] else []);
      var p1 := if whereAuth.0 != "" then Spread(f.params, whereAuth.1) else f.params;
      var allowAuth := env.authAllow(s.ref, v, c.insideDoWhen);
      var p2 := if allowAuth.0 != "" then Spread(p1, allowAuth.1) else p1;
      var n := NestedStep(env, ctx, c, s, d, p2);
      Some(Emitted(
        Parts(HeadLines(env, ctx, c, s), f.subquery, WhereLines(env, preds, f.aggregate, RelationshipVariable(v), v),
              AllowLines(env, ctx, c, v, allowAuth.0), n.strs, TailLines(env, ctx, c, s)),
        n.params))
  }

  /** The nested delete of an element with a truthy `delete`, followed by one delete per
      `_on.<Type>` override of an interface element. */
  function NestedStep(env: Collaborators, ctx: Context, c: Call, s: Site, d: Value, p: Params): Res
    decreases Size(d), 0, 1
  {
    var dv := Get(d, "delete");
    if !IsSet(dv) then Res([], p)
    else
      var dd := dv.value;
      GetSmaller(d, "delete");
      var ov := Override(s, dd);
      NestedInputSmaller(dd, ov);
      var prefix := NestedPrefix(c.parameterPrefix, c.recursing, s.key, s.rel, s.ref.name, s.index);
      var nested := DeleteAndParams(env, ctx, InnerCall(ctx, c, s, prefix), NestedInput(dd, ov));
      var first := Res([nested.0], Spread(p, nested.1));
      if ov.None? then first
      else
        OverrideSmaller(s, dd);
        OnDeletes(env, ctx, c, s, ov.value, 0, first)
  }

  function OnDeletes(env: Collaborators, ctx: Context, c: Call, s: Site, on: Value, j: nat, acc: Res): Res
    decreases Size(on), 7, |AsList(on)| - j
  {
    var items := AsList(on);
    if j >= |items| then acc
    else
      AsListSmaller(on, j);
      var prefix := OnPrefix(c.parameterPrefix, c.recursing, s.key, s.rel, s.ref.name, s.index, j);
      var nested := DeleteAndParams(env, ctx, InnerCall(ctx, c, s, prefix), items[j]);
      OnDeletes(env, ctx, c, s, on, j + 1, Res(acc.strs + [nested.0], Spread(acc.params, nested.1)))
  }

  // ---------------------------------------------------------------------------------------------
  // Sizes for termination

  lemma TargetInputSmaller(rel: RelationField, value: Value, ref: Node)
    ensures Size(TargetInput(rel, value, ref)) <= Size(value)
  {
    GetSmaller(value, ref.name);
  }

  lemma DeletesSmaller(rel: RelationField, v: Value, i: nat)
    requires i < |Deletes(rel, v)|
    ensures Size(Deletes(rel, v)[i]) <= Size(v)
  {
    if rel.isArray {
      ItemSmaller(v.items, i);
    }
  }

  lemma {:induction false} NestedFieldsSmaller(fields: seq<Field>, overrides: Option<Value>)
    ensures FieldsSize(NestedFields(fields, overrides)) <= FieldsSize(fields)
  {
    if fields != [] {
      NestedFieldsSmaller(fields[1..], overrides);
      var rest := NestedFields(fields[1..], overrides);
      if KeepKey(fields[0].key, overrides) {
        assert ([fields[0]] + rest)[1..] == rest;
      } else {
        assert [] + rest == rest;
      }
    }
  }

  lemma NestedInputSmaller(dd: Value, overrides: Option<Value>)
    ensures Size(NestedInput(dd, overrides)) <= Size(dd)
  {
    NestedFieldsSmaller(Entries(dd), overrides);
  }

  lemma OverrideSmaller(s: Site, dd: Value)
    ensures Override(s, dd).Some? ==> Size(Override(s, dd).value) < Size(dd)
  {
    var on := Get(dd, "_on");
    GetSmaller(dd, "_on");
    if on.Some? {
      GetSmaller(on.value, s.ref.name);
    }
  }
}
