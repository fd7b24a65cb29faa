/** Properties of the delete generator that hold for every input and whatever the
    collaborators return (beyond the stated hypotheses). */
module DeleteProperties {
  import opened Wrappers
  import opened Text
  import opened Js
  import opened Schema
  import opened Foreign
  import opened Naming
  import opened Scopes
  import opened DeleteSpec

  // ---------------------------------------------------------------------------------------------
  // Every generated subquery is closed, and parameter keys are only ever added

  /** The lines the collaborators contribute as lines of their own are not bare scope markers. */
  ghost predicate ScopeNeutral(env: Collaborators)
  {
    (forall req :: env.connectionWhere(req).Some? ==> Delta(env.connectionWhere(req).value.subquery) == 0)
    && (forall pred, r, v :: Delta(env.caseWhere(pred, r, v)) == 0)
  }

  lemma SpreadExtends(a: Params, b: Params)
    ensures Keys(a) <= Keys(Spread(a, b))
  {
    SpreadKeys(a, b);
  }

  lemma PrefixTrans(a: seq<string>, b: seq<string>, c: seq<string>)
    requires a <= b && b <= c
    ensures a <= c
  {
    assert c[..|a|] == b[..|a|];
  }

  /** The text of a (nested) delete is a single line as far as scopes go, and every scope
      it opens it closes. */
  lemma {:induction false} DeleteSound(env: Collaborators, ctx: Context, c: Call, input: Value)
    requires ScopeNeutral(env)
    ensures Delta(DeleteAndParams(env, ctx, c, input).0) == 0
    ensures Balanced(Fields(env, ctx, c, Entries(input), Res([], [])).strs)
    decreases Size(input), 6, 0
  {
    EntriesSmaller(input);
    var none: seq<string> := [];
    assert Balanced(none) by { assert none[..0] == none; }
    FieldsSound(env, ctx, c, Entries(input), Res([], []));
    JoinNeutral(Fields(env, ctx, c, Entries(input), Res([], [])).strs);
  }

  lemma {:induction false} FieldsSound(env: Collaborators, ctx: Context, c: Call, fields: seq<Field>, acc: Res)
    requires ScopeNeutral(env) && Balanced(acc.strs)
    ensures Balanced(Fields(env, ctx, c, fields, acc).strs)
    ensures Keys(acc.params) <= Keys(Fields(env, ctx, c, fields, acc).params)
    decreases FieldsSize(fields), 5, |fields|
  {
    if fields != [] {
      var acc' := Reducer(env, ctx, c, fields[0].key, fields[0].val, acc);
      ReducerSound(env, ctx, c, fields[0].key, fields[0].val, acc);
      FieldsSound(env, ctx, c, fields[1..], acc');
      PrefixTrans(Keys(acc.params), Keys(acc'.params), Keys(Fields(env, ctx, c, fields, acc).params));
    }
  }

  lemma {:induction false} ReducerSound(env: Collaborators, ctx: Context, c: Call, key: string, value: Value, acc: Res)
    requires ScopeNeutral(env) && Balanced(acc.strs)
    ensures Balanced(Reducer(env, ctx, c, key, value, acc).strs)
    ensures Keys(acc.params) <= Keys(Reducer(env, ctx, c, key, value, acc).params)
    decreases Size(value), 4, 0
  {
    match FindRelation(c.node.relationFields, key)
    case None =>
    case Some(rel) => TargetsSound(env, ctx, c, key, rel, value, RefNodes(ctx.nodes, rel, value), 0, acc);
  }

  lemma {:induction false} TargetsSound(env: Collaborators, ctx: Context, c: Call, key: string, rel: RelationField,
                                        value: Value, refs: seq<Node>, t: nat, acc: Res)
    requires ScopeNeutral(env) && Balanced(acc.strs)
    ensures Balanced(Targets(env, ctx, c, key, rel, value, refs, t, acc).strs)
    ensures Keys(acc.params) <= Keys(Targets(env, ctx, c, key, rel, value, refs, t, acc).params)
    decreases Size(value), 3, |refs| - t
  {
    if t < |refs| {
      TargetInputSmaller(rel, value, refs[t]);
      var acc' := Elements(env, ctx, c, key, rel, refs[t], TargetInput(rel, value, refs[t]), 0, acc);
      ElementsSound(env, ctx, c, key, rel, refs[t], TargetInput(rel, value, refs[t]), 0, acc);
      TargetsSound(env, ctx, c, key, rel, value, refs, t + 1, acc');
      PrefixTrans(Keys(acc.params), Keys(acc'.params), Keys(Targets(env, ctx, c, key, rel, value, refs, t, acc).params));
    }
  }

  lemma {:induction false} ElementsSound(env: Collaborators, ctx: Context, c: Call, key: string, rel: RelationField,
                                         ref: Node, tv: Value, i: nat, acc: Res)
    requires ScopeNeutral(env) && Balanced(acc.strs)
    ensures Balanced(Elements(env, ctx, c, key, rel, ref, tv, i, acc).strs)
    ensures Keys(acc.params) <= Keys(Elements(env, ctx, c, key, rel, ref, tv, i, acc).params)
    decreases Size(tv), 2, |Deletes(rel, tv)| - i
  {
    var ds := Deletes(rel, tv);
    if i < |ds| {
      DeletesSmaller(rel, tv, i);
      var acc' := ElementStep(env, ctx, c, Site(key, rel, ref, i), ds[i], acc);
      ElementStepSound(env, ctx, c, Site(key, rel, ref, i), ds[i], acc);
      assert Elements(env, ctx, c, key, rel, ref, tv, i, acc) == Elements(env, ctx, c, key, rel, ref, tv, i + 1, acc');
      ElementsSound(env, ctx, c, key, rel, ref, tv, i + 1, acc');
      PrefixTrans(Keys(acc.params), Keys(acc'.params), Keys(Elements(env, ctx, c, key, rel, ref, tv, i, acc).params));
    }
  }

  lemma {:induction false} ElementStepSound(env: Collaborators, ctx: Context, c: Call, s: Site, d: Value, acc: Res)
    requires ScopeNeutral(env) && Balanced(acc.strs)
    ensures Balanced(ElementStep(env, ctx, c, s, d, acc).strs)
    ensures Keys(acc.params) <= Keys(ElementStep(env, ctx, c, s, d, acc).params)
    decreases Size(d), 1, 0
  {
    ElementSound(env, ctx, c, s, d, acc.params);
    match Element(env, ctx, c, s, d, acc.params)
    case None =>
    case Some(e) => BalancedAppend(acc.strs, Lines(e.parts));
  }

  /** Each element's lines are balanced, and its parameters extend the ones it started from. */
  lemma {:induction false} ElementSound(env: Collaborators, ctx: Context, c: Call, s: Site, d: Value, p: Params)
    requires ScopeNeutral(env)
    ensures Element(env, ctx, c, s, d, p).Some? ==> Balanced(Lines(Element(env, ctx, c, s, d, p).value.parts))
    ensures Element(env, ctx, c, s, d, p).Some? ==> Keys(p) <= Keys(Element(env, ctx, c, s, d, p).value.params)
    decreases Size(d), 0, 2
  {
    match FilterOf(env, c, s, d, p)
    case None =>
    case Some(f) =>
      var v := Var(c, s);
      var whereAuth := env.authWhere(s.ref, v);
      var preds := f.preds + (if whereAuth.0 != "" then [whereAuth.0] else []);
      var p1 := if whereAuth.0 != "" then Spread(f.params, whereAuth.1) else f.params;
      var allowAuth := env.authAllow(s.ref, v, c.insideDoWhen);
      var p2 := if allowAuth.0 != "" then Spread(p1, allowAuth.1) else p1;
      var n := NestedStep(env, ctx, c, s, d, p2);
      NestedStepSound(env, ctx, c, s, d, p2);
      FilterSound(env, c, s, d, p);
      SpreadExtends(f.params, whereAuth.1);
      SpreadExtends(p1, allowAuth.1);
      PrefixTrans(Keys(p), Keys(f.params), Keys(p1));
      PrefixTrans(Keys(p), Keys(p1), Keys(p2));
      PrefixTrans(Keys(p), Keys(p2), Keys(n.params));
      var parts := Parts(HeadLines(env, ctx, c, s), f.subquery, WhereLines(env, preds, f.aggregate, RelationshipVariable(v), v),
                         AllowLines(env, ctx, c, v, allowAuth.0), n.strs, TailLines(env, ctx, c, s));
      assert Element(env, ctx, c, s, d, p) == Some(Emitted(parts, n.params));
      PartsBalanced(env, ctx, c, s, parts, preds, f.aggregate, allowAuth.0);
  }

  lemma PartsBalanced(env: Collaborators, ctx: Context, c: Call, s: Site, parts: Parts, preds: seq<string>,
                      aggregate: bool, allow: string)
    requires ScopeNeutral(env)
    requires parts.head == HeadLines(env, ctx, c, s) && parts.tail == TailLines(env, ctx, c, s)
    requires parts.where == WhereLines(env, preds, aggregate, RelationshipVariable(Var(c, s)), Var(c, s))
    requires parts.allow == AllowLines(env, ctx, c, Var(c, s), allow)
    requires Neutral(parts.subquery) && Neutral(parts.nested)
    ensures Balanced(Lines(parts))
  {
    WhereNeutral(env, preds, aggregate, RelationshipVariable(Var(c, s)), Var(c, s));
    AllowNeutral(env, ctx, c, Var(c, s), allow);
    var middle := parts.subquery + parts.where + parts.allow + parts.nested;
    NeutralAppend(parts.subquery, parts.where);
    NeutralAppend(parts.subquery + parts.where, parts.allow);
    NeutralAppend(parts.subquery + parts.where + parts.allow, parts.nested);
    HeadTailBalanced(env, ctx, c, s, middle);
    assert Lines(parts) == parts.head + middle + parts.tail;
  }

  lemma FilterSound(env: Collaborators, c: Call, s: Site, d: Value, p: Params)
    requires ScopeNeutral(env)
    ensures FilterOf(env, c, s, d, p).Some? ==> Neutral(FilterOf(env, c, s, d, p).value.subquery)
    ensures FilterOf(env, c, s, d, p).Some? ==> Keys(p) <= Keys(FilterOf(env, c, s, d, p).value.params)
  {
    var w := Get(d, "where");
    if IsSet(w) {
      var req := WhereRequestFor(c, s, w.value);
      if env.connectionWhere(req).Some? {
        SpreadExtends(p, env.connectionWhere(req).value.params);
      }
    }
  }

  lemma WhereNeutral(env: Collaborators, preds: seq<string>, aggregate: bool, r: string, v: string)
    requires ScopeNeutral(env)
    ensures Neutral(WhereLines(env, preds, aggregate, r, v))
  {
    if preds != [] && !aggregate {
      LineNeutral("WHERE " + Join(preds, " AND "));
    }
  }

  lemma AllowNeutral(env: Collaborators, ctx: Context, c: Call, v: string, allow: string)
    ensures Neutral(AllowLines(env, ctx, c, v, allow))
  {
    var lines := AllowLines(env, ctx, c, v, allow);
    if allow != "" {
      LineNeutral(lines[0]);
      LineNeutral(lines[1]);
    }
  }

  /** `WITH *`, `CALL {`, the imports and the match, lines that open no scope, then the tail
      that closes the element's scope. */
  lemma HeadTailBalanced(env: Collaborators, ctx: Context, c: Call, s: Site, middle: seq<string>)
    requires Neutral(middle)
    ensures Balanced(HeadLines(env, ctx, c, s) + middle + TailLines(env, ctx, c, s))
  {
    var rest := HeadRest(env, ctx, c, s);
    NeutralAppend(rest, middle);
    var tail := TailLines(env, ctx, c, s);
    var v := Var(c, s);
    if ctx.subscriptionsEnabled {
      SubscriptionTail(VarsWithoutMeta(env, c), RelationshipVariable(v), v, v + "_to_delete",
                       env.eventMeta("delete", "x", s.ref.name), env.relationshipEventMeta(EventFor(c, s)));
      SubscriptionAssembly(rest + middle, tail);
    } else {
      PlainTail(RelationshipVariable(v), v, v + "_to_delete");
      PlainAssembly(rest + middle, tail);
    }
    assert HeadLines(env, ctx, c, s) + middle + tail == ["WITH *", "CALL {"] + (rest + middle) + tail;
  }

  /** The head after `WITH *` and `CALL {`: imports and the match, none a scope marker. */
  lemma HeadRest(env: Collaborators, ctx: Context, c: Call, s: Site) returns (rest: seq<string>)
    ensures HeadLines(env, ctx, c, s) == ["WITH *", "CALL {"] + rest && Neutral(rest)
  {
    var head := HeadLines(env, ctx, c, s);
    var imports := ImportLines(env, ctx, c);
    forall i | 0 <= i < |imports| ensures Delta(imports[i]) == 0 {
      LineNeutral(imports[i]);
    }
    rest := imports + [head[|head| - 1]];
    LineNeutral(head[|head| - 1]);
    NeutralAppend(imports, [head[|head| - 1]]);
  }

  lemma PlainTail(r: string, v: string, td: string)
    ensures var tail := PlainTailLines(r, v, td);
      && |tail| == 7 && tail[1] == "CALL {" && tail[5] == "}" && tail[6] == "}"
      && Delta(tail[0]) == 0 && Delta(tail[2]) == 0 && Delta(tail[3]) == 0 && Delta(tail[4]) == 0
  {
    var tail := PlainTailLines(r, v, td);
    LineNeutral(tail[0]);
    LineNeutral(tail[2]);
    LineNeutral(tail[3]);
    LineNeutral(tail[4]);
  }

  lemma SubscriptionTail(vwm: string, r: string, v: string, td: string, meta: string, ev: string)
    ensures var tail := SubscriptionTailLines(vwm, r, v, td, meta, ev);
      && |tail| == 13 && tail[1] == "CALL {" && tail[7] == "}" && tail[10] == "}"
      && Delta(tail[0]) == 0 && Delta(tail[2]) == 0 && Delta(tail[3]) == 0 && Delta(tail[4]) == 0
      && Delta(tail[5]) == 0 && Delta(tail[6]) == 0 && Delta(tail[8]) == 0 && Delta(tail[9]) == 0
      && Delta(tail[11]) == 0 && Delta(tail[12]) == 0
  {
    var tail := SubscriptionTailLines(vwm, r, v, td, meta, ev);
    LineNeutral(tail[0]);
    LineNeutral(tail[2]);
    LineNeutral(tail[3]);
    LineNeutral(tail[4]);
    LineNeutral(tail[5]);
    LineNeutral(tail[6]);
    LineNeutral(tail[8]);
    LineNeutral(tail[9]);
    LineNeutral(tail[11]);
    LineNeutral(tail[12]);
  }

  /** A block with the plain tail's shape is balanced. */
  lemma PlainAssembly(pre: seq<string>, tail: seq<string>)
    requires Neutral(pre)
    requires |tail| == 7 && tail[1] == "CALL {" && tail[5] == "}" && tail[6] == "}"
    requires Delta(tail[0]) == 0 && Delta(tail[2]) == 0 && Delta(tail[3]) == 0 && Delta(tail[4]) == 0
    ensures Balanced(["WITH *", "CALL {"] + pre + tail)
  {
    var inner := tail[2..5];
    assert Neutral(inner) by {
      assert inner == [tail[2], tail[3], tail[4]];
    }
    NeutralAppend(pre, [tail[0]]);
    PlainShape(pre, tail[0], inner);
    assert tail == [tail[0], "CALL {"] + inner + ["}", "}"];
  }

  /** A block with the subscription tail's shape is balanced. */
  lemma SubscriptionAssembly(pre: seq<string>, tail: seq<string>)
    requires Neutral(pre)
    requires |tail| == 13 && tail[1] == "CALL {" && tail[7] == "}" && tail[10] == "}"
    requires Delta(tail[0]) == 0 && Delta(tail[2]) == 0 && Delta(tail[3]) == 0 && Delta(tail[4]) == 0
    requires Delta(tail[5]) == 0 && Delta(tail[6]) == 0 && Delta(tail[8]) == 0 && Delta(tail[9]) == 0
    requires Delta(tail[11]) == 0 && Delta(tail[12]) == 0
    ensures Balanced(["WITH *", "CALL {"] + pre + tail)
  {
    var inner, after, last := tail[2..7], tail[8..10], tail[11..];
    assert Neutral(inner) by {
      assert inner == [tail[2], tail[3], tail[4], tail[5], tail[6]];
    }
    assert Neutral(after) by {
      assert after == [tail[8], tail[9]];
    }
    assert Neutral(last) by {
      assert last == [tail[11], tail[12]];
    }
    NeutralAppend(pre, [tail[0]]);
    SubscriptionShape(pre, tail[0], inner, after, last);
    assert tail == [tail[0], "CALL {"] + inner + ["}"] + after + ["}"] + last;
  }

  lemma PlainShape(open: seq<string>, w: string, inner: seq<string>)
    requires Neutral(open + [w]) && Neutral(inner)
    ensures Balanced(["WITH *", "CALL {"] + open + ([w, "CALL {"] + inner + ["}", "}"]))
  {
    NeutralBalanced(inner);
    Wrap(inner);
    NeutralBalanced(open + [w]);
    BalancedAppend(open + [w], ["CALL {"] + inner + ["}"]);
    var body := open + [w] + (["CALL {"] + inner + ["}"]);
    Wrap(body);
    NeutralBalanced(["WITH *"]);
    BalancedAppend(["WITH *"], ["CALL {"] + body + ["}"]);
    assert ["WITH *", "CALL {"] + open + ([w, "CALL {"] + inner + ["}", "}"])
        == ["WITH *"] + (["CALL {"] + body + ["}"]);
  }

  lemma SubscriptionShape(open: seq<string>, w: string, inner: seq<string>, after: seq<string>, last: seq<string>)
    requires Neutral(open + [w]) && Neutral(inner) && Neutral(after) && Neutral(last)
    ensures Balanced(["WITH *", "CALL {"] + open
                     + ([w, "CALL {"] + inner + ["}"] + after + ["}"] + last))
  {
    var body := SubscriptionBody(open, w, inner, after);
    Wrap(body);
    NeutralBalanced(["WITH *"]);
    NeutralBalanced(last);
    BalancedAppend(["WITH *"], ["CALL {"] + body + ["}"]);
    BalancedAppend(["WITH *"] + (["CALL {"] + body + ["}"]), last);
    assert ["WITH *", "CALL {"] + open + ([w, "CALL {"] + inner + ["}"] + after + ["}"] + last)
        == ["WITH *"] + (["CALL {"] + body + ["}"]) + last;
  }

  lemma SubscriptionBody(open: seq<string>, w: string, inner: seq<string>, after: seq<string>)
    returns (body: seq<string>)
    requires Neutral(open + [w]) && Neutral(inner) && Neutral(after)
    ensures body == open + [w] + (["CALL {"] + inner + ["}"]) + after && Balanced(body)
  {
    NeutralBalanced(inner);
    Wrap(inner);
    NeutralBalanced(open + [w]);
    NeutralBalanced(after);
    BalancedAppend(open + [w], ["CALL {"] + inner + ["}"]);
    BalancedAppend(open + [w] + (["CALL {"] + inner + ["}"]), after);
    body := open + [w] + (["CALL {"] + inner + ["}"]) + after;
  }

  lemma {:induction false} NestedStepSound(env: Collaborators, ctx: Context, c: Call, s: Site, d: Value, p: Params)
    requires ScopeNeutral(env)
    ensures Neutral(NestedStep(env, ctx, c, s, d, p).strs)
    ensures Keys(p) <= Keys(NestedStep(env, ctx, c, s, d, p).params)
    decreases Size(d), 0, 1
  {
    var dv := Get(d, "delete");
    if IsSet(dv) {
      var dd := dv.value;
      GetSmaller(d, "delete");
      var ov := Override(s, dd);
      NestedInputSmaller(dd, ov);
      var prefix := NestedPrefix(c.parameterPrefix, c.recursing, s.key, s.rel, s.ref.name, s.index);
      var nested := DeleteAndParams(env, ctx, InnerCall(ctx, c, s, prefix), NestedInput(dd, ov));
      DeleteSound(env, ctx, InnerCall(ctx, c, s, prefix), NestedInput(dd, ov));
      SpreadExtends(p, nested.1);
      var first := Res([nested.0], Spread(p, nested.1));
      if ov.Some? {
        OverrideSmaller(s, dd);
        OnDeletesSound(env, ctx, c, s, ov.value, 0, first);
        PrefixTrans(Keys(p), Keys(first.params), Keys(NestedStep(env, ctx, c, s, d, p).params));
      }
    }
  }

  lemma {:induction false} OnDeletesSound(env: Collaborators, ctx: Context, c: Call, s: Site, on: Value, j: nat, acc: Res)
    requires ScopeNeutral(env) && Neutral(acc.strs)
    ensures Neutral(OnDeletes(env, ctx, c, s, on, j, acc).strs)
    ensures Keys(acc.params) <= Keys(OnDeletes(env, ctx, c, s, on, j, acc).params)
    decreases Size(on), 7, |AsList(on)| - j
  {
    var items := AsList(on);
    if j < |items| {
      AsListSmaller(on, j);
      var prefix := OnPrefix(c.parameterPrefix, c.recursing, s.key, s.rel, s.ref.name, s.index, j);
      var nested := DeleteAndParams(env, ctx, InnerCall(ctx, c, s, prefix), items[j]);
      DeleteSound(env, ctx, InnerCall(ctx, c, s, prefix), items[j]);
      NeutralAppend(acc.strs, [nested.0]);
      SpreadExtends(acc.params, nested.1);
      var acc' := Res(acc.strs + [nested.0], Spread(acc.params, nested.1));
      OnDeletesSound(env, ctx, c, s, on, j + 1, acc');
      PrefixTrans(Keys(acc.params), Keys(acc'.params), Keys(OnDeletes(env, ctx, c, s, on, j, acc).params));
    }
  }

  // ---------------------------------------------------------------------------------------------
  // The reduce over the input

  /** The entries whose key names a relationship field of the node. */
  function RelationEntries(node: Node, fields: seq<Field>): (r: seq<Field>)
    ensures forall f :: f in r <==> f in fields && IsRelation(node, f.key)
  {
    if fields == [] then []
    else (if IsRelation(node, fields[0].key) then [fields[0]] else []) + RelationEntries(node, fields[1..])
  }

  /** Keys that name no relationship field contribute nothing. */
  lemma {:induction false} NonRelationKeysIgnored(env: Collaborators, ctx: Context, c: Call, fields: seq<Field>, acc: Res)
    ensures Fields(env, ctx, c, fields, acc) == Fields(env, ctx, c, RelationEntries(c.node, fields), acc)
  {
    if fields != [] {
      NonRelationKeysIgnored(env, ctx, c, fields[1..], Reducer(env, ctx, c, fields[0].key, fields[0].val, acc));
      NonRelationKeysIgnored(env, ctx, c, fields[1..], acc);
      var rest := RelationEntries(c.node, fields[1..]);
      if IsRelation(c.node, fields[0].key) {
        assert ([fields[0]] + rest)[1..] == rest;
      } else {
        assert [] + rest == rest;
      }
    }
  }

  /** An input none of whose keys names a relationship field deletes nothing. */
  lemma NoRelationNoDelete(env: Collaborators, ctx: Context, c: Call, input: Value)
    requires forall k :: k in Keys(Entries(input)) ==> !IsRelation(c.node, k)
    ensures DeleteAndParams(env, ctx, c, input) == ("", [])
  {
    var fields := Entries(input);
    NonRelationKeysIgnored(env, ctx, c, fields, Res([], []));
    forall f | f in fields ensures !IsRelation(c.node, f.key) {
      var i :| 0 <= i < |fields| && fields[i] == f;
      assert Keys(fields)[i] == f.key;
    }
  }

  /** Fields are processed in input order: the lines and parameters of a later field follow
      those of an earlier one. */
  lemma {:induction false} FieldsAppend(env: Collaborators, ctx: Context, c: Call, a: seq<Field>, b: seq<Field>, acc: Res)
    ensures Fields(env, ctx, c, a + b, acc) == Fields(env, ctx, c, b, Fields(env, ctx, c, a, acc))
  {
    if a == [] {
      assert a + b == b;
    } else {
      assert (a + b)[1..] == a[1..] + b;
      FieldsAppend(env, ctx, c, a[1..], b, Reducer(env, ctx, c, a[0].key, a[0].val, acc));
    }
  }

  // ---------------------------------------------------------------------------------------------
  // Targets

  /** The targets are nodes of the schema named by the field, in the order of their names;
      when every name resolves there is one target per name. */
  lemma ResolveSpec(nodes: seq<Node>, names: seq<string>)
    ensures forall n :: n in Resolve(nodes, names) ==> n in nodes && n.name in names
    ensures (forall x :: x in names ==> FindNode(nodes, x).Some?) ==>
      |Resolve(nodes, names)| == |names| && forall i :: 0 <= i < |names| ==> Resolve(nodes, names)[i].name == names[i]
  {
    ResolveMembers(nodes, names);
    if forall x :: x in names ==> FindNode(nodes, x).Some? {
      ResolveAligned(nodes, names);
    }
  }

  lemma {:induction false} ResolveMembers(nodes: seq<Node>, names: seq<string>)
    ensures forall n :: n in Resolve(nodes, names) ==> n in nodes && n.name in names
  {
    if names != [] {
      ResolveMembers(nodes, names[1..]);
      var head := match FindNode(nodes, names[0]) case None => [] case Some(n) => [n];
      assert Resolve(nodes, names) == head + Resolve(nodes, names[1..]);
      assert forall x :: x in names[1..] ==> x in names;
    }
  }

  lemma {:induction false} ResolveAligned(nodes: seq<Node>, names: seq<string>)
    requires forall x :: x in names ==> FindNode(nodes, x).Some?
    ensures |Resolve(nodes, names)| == |names|
    ensures forall i :: 0 <= i < |names| ==> Resolve(nodes, names)[i].name == names[i]
  {
    if names != [] {
      assert forall x :: x in names[1..] ==> x in names;
      ResolveAligned(nodes, names[1..]);
      var r := Resolve(nodes, names);
      var rest := Resolve(nodes, names[1..]);
      assert r == [FindNode(nodes, names[0]).value] + rest;
      NamesCons(r, rest, names);
    }
  }

  /** A list of nodes named like `names[1..]`, behind a node named `names[0]`, is named like `names`. */
  lemma NamesCons(r: seq<Node>, rest: seq<Node>, names: seq<string>)
    requires names != [] && |rest| == |names| - 1 && |r| == |names| && r[1..] == rest && r[0].name == names[0]
    requires forall i :: 0 <= i < |rest| ==> rest[i].name == names[i + 1]
    ensures forall i :: 0 <= i < |names| ==> r[i].name == names[i]
  {
    forall i | 0 <= i < |names| ensures r[i].name == names[i] {
      if i > 0 {
        assert r[i] == rest[i - 1];
      }
    }
  }

  /** Union fields delete from the types named by the value's keys, interface fields from
      every implementation, other fields from the declared type. */
  lemma RefNodesSpec(nodes: seq<Node>, rel: RelationField, value: Value)
    ensures forall n :: n in RefNodes(nodes, rel, value) ==> n in nodes
    ensures rel.kind.Union? ==> forall n :: n in RefNodes(nodes, rel, value) ==> n.name in Keys(Entries(value))
    ensures rel.kind.Interface? ==> forall n :: n in RefNodes(nodes, rel, value) ==> n.name in rel.kind.implementations
    ensures rel.kind.Plain? ==> RefNodes(nodes, rel, value) == (match FindNode(nodes, rel.typeName) case None => [] case Some(n) => [n])
    ensures (forall x :: x in TargetNames(rel, value) ==> FindNode(nodes, x).Some?) ==>
      |RefNodes(nodes, rel, value)| == |TargetNames(rel, value)|
      && forall i :: 0 <= i < |TargetNames(rel, value)| ==> RefNodes(nodes, rel, value)[i].name == TargetNames(rel, value)[i]
  {
    ResolveSpec(nodes, TargetNames(rel, value));
    if rel.kind.Plain? {
      assert Resolve(nodes, [rel.typeName][1..]) == [];
    }
  }

  // ---------------------------------------------------------------------------------------------
  // One element

  /** What the filter compiler returned for the element, if a filter was given and compiled. */
  function CompiledFilter(env: Collaborators, c: Call, s: Site, d: Value): Option<WhereResult>
  {
    var w := Get(d, "where");
    if IsSet(w) then env.connectionWhere(WhereRequestFor(c, s, w.value)) else None
  }

  /** An element is dropped exactly when it has a filter that the compiler rejects; a dropped
      element adds no lines and no parameters. */
  lemma ElementDroppedIff(env: Collaborators, ctx: Context, c: Call, s: Site, d: Value, acc: Res)
    ensures Element(env, ctx, c, s, d, acc.params).None?
        <==> IsSet(Get(d, "where")) && CompiledFilter(env, c, s, d).None?
    ensures Element(env, ctx, c, s, d, acc.params).None? ==> ElementStep(env, ctx, c, s, d, acc) == acc
    ensures Element(env, ctx, c, s, d, acc.params).Some? ==>
      ElementStep(env, ctx, c, s, d, acc).strs == acc.strs + Lines(Element(env, ctx, c, s, d, acc.params).value.parts)
  {
  }

  /** The WHERE line: present exactly when the filter compiled to a predicate or authorization
      adds one; the filter's predicate comes first; it goes through `caseWhere` exactly when
      the filter brought a precomputed subquery, which is emitted just before it. */
  lemma WhereRule(env: Collaborators, ctx: Context, c: Call, s: Site, d: Value, p: Params)
    requires Element(env, ctx, c, s, d, p).Some?
    ensures var e := Element(env, ctx, c, s, d, p).value.parts;
      var v := Var(c, s);
      var cf := CompiledFilter(env, c, s, d);
      var filterPred := cf.Some? && cf.value.cypher != "";
      var auth := env.authWhere(s.ref, v).0;
      var preds := (if filterPred then [cf.value.cypher] else []) + (if auth != "" then [auth] else []);
      && (e.where != [] <==> filterPred || auth != "")
      && (e.subquery != [] <==> filterPred && cf.value.subquery != "")
      && (e.subquery != [] ==> e.subquery == [cf.value.subquery]
                               && e.where == [env.caseWhere(Join(preds, " AND "), RelationshipVariable(v), v)])
      && (e.subquery == [] && e.where != [] ==> e.where == ["WHERE " + Join(preds, " AND ")])
      && (filterPred && auth != "" ==> Join(preds, " AND ") == cf.value.cypher + " AND " + auth)
  {
    var f := FilterOf(env, c, s, d, p).value;
    var v := Var(c, s);
    var auth := env.authWhere(s.ref, v).0;
    var e := Element(env, ctx, c, s, d, p).value.parts;
    assert e.subquery == f.subquery
        && e.where == WhereLines(env, f.preds + (if auth != "" then [auth] else []), f.aggregate, RelationshipVariable(v), v);
    FilterShape(env, c, s, d, p);
    var cf := CompiledFilter(env, c, s, d);
    WhereLinesShape(env, cf.Some? && cf.value.cypher != "", if cf.Some? then cf.value.cypher else "",
                    if cf.Some? then cf.value.subquery else "", auth, RelationshipVariable(v), v);
  }

  /** The WHERE lines built from an optional filter predicate and an optional rule. */
  lemma WhereLinesShape(env: Collaborators, filterPred: bool, cypher: string, subquery: string, auth: string,
                        r: string, v: string)
    ensures var fpreds := if filterPred then [cypher] else [];
      var sub := if filterPred && subquery != "" then [subquery] else [];
      var preds := fpreds + (if auth != "" then [auth] else []);
      var w := WhereLines(env, preds, sub != [], r, v);
      && (w != [] <==> filterPred || auth != "")
      && (sub != [] ==> w == [env.caseWhere(Join(preds, " AND "), r, v)])
      && (sub == [] && w != [] ==> w == ["WHERE " + Join(preds, " AND ")])
      && (filterPred && auth != "" ==> Join(preds, " AND ") == cypher + " AND " + auth)
  {
    var preds := (if filterPred then [cypher] else []) + (if auth != "" then [auth] else []);
    if filterPred && auth != "" {
      assert preds == [cypher, auth];
      assert Join(preds, " AND ") == cypher + " AND " + Join([auth], " AND ");
    }
  }

  /** The compiled filter contributes its predicate when non-empty, and its subquery, which
      switches the WHERE to the `CASE` form, only together with a predicate. */
  lemma FilterShape(env: Collaborators, c: Call, s: Site, d: Value, p: Params)
    requires FilterOf(env, c, s, d, p).Some?
    ensures var f := FilterOf(env, c, s, d, p).value;
      var cf := CompiledFilter(env, c, s, d);
      var filterPred := cf.Some? && cf.value.cypher != "";
      && f.preds == (if filterPred then [cf.value.cypher] else [])
      && f.subquery == (if filterPred && cf.value.subquery != "" then [cf.value.subquery] else [])
      && f.aggregate == (f.subquery != [])
  {
  }

  lemma AllowRule(env: Collaborators, ctx: Context, c: Call, s: Site, d: Value, p: Params)
    requires Element(env, ctx, c, s, d, p).Some?
    ensures var e := Element(env, ctx, c, s, d, p).value.parts;
      var allow := env.authAllow(s.ref, Var(c, s), c.insideDoWhen).0;
      var q := if c.insideDoWhen then "\\\"" else "\"";
      && (e.allow != [] <==> allow != "")
      && (allow != "" ==> |e.allow| == 2 && Contains(e.allow[1], "NOT (" + allow + ")"))
      && (allow != "" ==>
            && e.allow[0] == "WITH " + Join(env.filterMetaVariable(c.withVars), ", ")
                             + (if ctx.subscriptionsEnabled then ", meta" else "")
                             + ", " + Var(c, s) + ", " + Var(c, s) + "_relationship"
            && e.allow[1] == "CALL apoc.util.validate(NOT (" + allow + "), " + q + env.authForbiddenError + q + ", [0])")
  {
    var v := Var(c, s);
    var allow := env.authAllow(s.ref, v, c.insideDoWhen).0;
    assert Element(env, ctx, c, s, d, p).value.parts.allow == AllowLines(env, ctx, c, v, allow);
    AllowLinesRule(env, ctx, c, v, allow);
    if allow != "" {
      AllowLinesExact(env, ctx, c, v, allow);
    }
  }

  /** The two lines of the `allow` check, written out. */
  lemma AllowLinesExact(env: Collaborators, ctx: Context, c: Call, v: string, allow: string)
    requires allow != ""
    ensures
      var q := if c.insideDoWhen then "\\\"" else "\"";
      && |AllowLines(env, ctx, c, v, allow)| == 2
      && AllowLines(env, ctx, c, v, allow)[0]
         == "WITH " + Join(env.filterMetaVariable(c.withVars), ", ") + (if ctx.subscriptionsEnabled then ", meta" else "")
            + ", " + v + ", " + v + "_relationship"
      && AllowLines(env, ctx, c, v, allow)[1]
         == "CALL apoc.util.validate(NOT (" + allow + "), " + q + env.authForbiddenError + q + ", [0])"
  {
  }

  lemma AllowLinesRule(env: Collaborators, ctx: Context, c: Call, v: string, allow: string)
    ensures AllowLines(env, ctx, c, v, allow) != [] <==> allow != ""
    ensures allow != "" ==>
      |AllowLines(env, ctx, c, v, allow)| == 2 && Contains(AllowLines(env, ctx, c, v, allow)[1], "NOT (" + allow + ")")
  {
    if allow != "" {
      var line := AllowLines(env, ctx, c, v, allow)[1];
      var x := "CALL apoc.util.validate(";
      var rest := ", " + Quote(c.insideDoWhen) + env.authForbiddenError + Quote(c.insideDoWhen) + ", [0])";
      var pat := "NOT (" + allow + ")";
      assert line == x + pat + rest;
      assert (x + pat + rest)[|x|..|x| + |pat|] == pat;
      assert OccursAt(line, pat, |x|);
      ContainsIff(line, pat);
    }
  }

  // ---------------------------------------------------------------------------------------------
  // Nested input

  /** The nested input keeps exactly the fields that are not `_on` and that no `_on.<Type>`
      override of the element sets, in their order. */
  lemma {:induction false} NestedFieldsSpec(fields: seq<Field>, overrides: Option<Value>)
    ensures forall f :: f in NestedFields(fields, overrides) <==> f in fields && KeepKey(f.key, overrides)
    ensures "_on" !in Keys(NestedFields(fields, overrides))
    ensures overrides.None? ==> forall f :: f in NestedFields(fields, overrides) <==> f in fields && f.key != "_on"
  {
    if fields != [] {
      NestedFieldsSpec(fields[1..], overrides);
      var r := NestedFields(fields, overrides);
      var rest := NestedFields(fields[1..], overrides);
      assert r == (if KeepKey(fields[0].key, overrides) then [fields[0]] else []) + rest;
      assert forall f :: f in fields <==> f == fields[0] || f in fields[1..];
      if "_on" in Keys(r) {
        var i :| 0 <= i < |r| && Keys(r)[i] == "_on";
        assert r[i] in r;
      }
    }
  }

  /** `if (d.delete)`: no nested lines without a truthy `delete`; otherwise one line for the
      nested delete, plus one per item of `delete._on.<Type>` when the field is an interface
      and that entry is truthy (a single object counts as a list of one). */
  lemma NestedCount(env: Collaborators, ctx: Context, c: Call, s: Site, d: Value, p: Params)
    ensures var dv := Get(d, "delete");
      var n := NestedStep(env, ctx, c, s, d, p);
      && (!IsSet(dv) ==> n.strs == [] && n.params == p)
      && (IsSet(dv) && !s.rel.kind.Interface? ==> |n.strs| == 1)
      && (IsSet(dv) && s.rel.kind.Interface? ==>
            var on := Get(dv.value, "_on");
            var entry := if on.Some? then Get(on.value, s.ref.name) else None;
            |n.strs| == 1 + (if IsSet(entry) then |AsList(entry.value)| else 0))
  {
    var dv := Get(d, "delete");
    if IsSet(dv) {
      var dd := dv.value;
      var ov := Override(s, dd);
      if ov.Some? {
        GetSmaller(d, "delete");
        NestedInputSmaller(dd, ov);
        var prefix := NestedPrefix(c.parameterPrefix, c.recursing, s.key, s.rel, s.ref.name, s.index);
        var nested := DeleteAndParams(env, ctx, InnerCall(ctx, c, s, prefix), NestedInput(dd, ov));
        OnDeletesCount(env, ctx, c, s, ov.value, 0, Res([nested.0], Spread(p, nested.1)));
      }
    }
  }

  /** The `_on` loop adds one line per remaining item. */
  lemma {:induction false} OnDeletesCount(env: Collaborators, ctx: Context, c: Call, s: Site, on: Value, j: nat,
                                          acc: Res)
    ensures |OnDeletes(env, ctx, c, s, on, j, acc).strs|
            == |acc.strs| + (if j < |AsList(on)| then |AsList(on)| - j else 0)
    decreases |AsList(on)| - j
  {
    var items := AsList(on);
    if j < |items| {
      AsListSmaller(on, j);
      var prefix := OnPrefix(c.parameterPrefix, c.recursing, s.key, s.rel, s.ref.name, s.index, j);
      var nested := DeleteAndParams(env, ctx, InnerCall(ctx, c, s, prefix), items[j]);
      OnDeletesCount(env, ctx, c, s, on, j + 1, Res(acc.strs + [nested.0], Spread(acc.params, nested.1)));
    }
  }

  // ---------------------------------------------------------------------------------------------
  // Direction

  /** The relationship event agrees with the arrow of the match: for an incoming field the
      arrow points at the parent and the event goes from the deleted node to the parent;
      otherwise the event goes from the parent to the deleted node. */
  lemma EventFollowsArrow(c: Call, s: Site)
    ensures var ev := EventFor(c, s);
      && (s.rel.direction == "IN" ==>
            InStr(s.rel.direction) == "<-" && OutStr(s.rel.direction) == "-"
            && ev.fromVariable == "x" && ev.toVariable == c.parentVar
            && ev.fromTypename == s.ref.name && ev.toTypename == c.node.name)
      && (s.rel.direction != "IN" ==>
            InStr(s.rel.direction) == "-"
            && ev.fromVariable == c.parentVar && ev.toVariable == "x"
            && ev.fromTypename == c.node.name && ev.toTypename == s.ref.name)
      && (s.rel.direction == "OUT" <==> OutStr(s.rel.direction) == "->")
      && ev.relVariable == RelationshipVariable(Var(c, s)) && ev.typename == s.rel.relType
  {
  }
}
