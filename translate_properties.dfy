/** What the translators guarantee: how sort tokens become `ORDER BY` terms, the order of
    the read clauses, that every paging clause has its parameter, the closed form of the
    batch create, that the shared projection keeps no placeholder and refers to the renamed
    parameters, and how requests are routed. */
module TranslateProperties {
  import opened Wrappers
  import opened Text
  import opened Js
  import opened Schema
  import opened Foreign
  import opened TranslateSpec

  // ---------------------------------------------------------------------------------------------
  // Sort tokens

  /** The first character of `t` occurs nowhere else in it. */
  predicate HeadUnique(t: string)
  {
    t != [] && forall o :: 0 < o < |t| ==> t[o] != t[0]
  }

  /** Appending `u`, which starts like `t` but is shorter, creates no occurrence of `t`. */
  lemma NoCrossing(f: string, u: string, t: string, j: int)
    requires HeadUnique(t) && !Contains(f, t)
    requires u != [] && u[0] == t[0]
    requires j < |f| || |u| < |t|
    ensures !OccursAt(f + u, t, j)
  {
    var s := f + u;
    ContainsIff(f, t);
    if j < 0 || j + |t| > |s| {
    } else if j + |t| <= |f| {
      assert s[j..j + |t|] == f[j..j + |t|];
      assert !OccursAt(f, t, j);
    } else {
      var o := |f| - j;
      assert s[j..j + |t|][o] == u[0] != t[o];
    }
  }

  lemma FirstAtEnd(f: string, t: string)
    requires HeadUnique(t) && !Contains(f, t)
    ensures IndexOf(f + t, t) == Some(|f|)
  {
    assert (f + t)[|f|..|f| + |t|] == t;
    assert OccursAt(f + t, t, |f|);
    forall j | 0 <= j < |f|
      ensures !OccursAt(f + t, t, j)
    {
      NoCrossing(f, t, t, j);
    }
  }

  lemma SplitHead(f: string, t: string)
    requires HeadUnique(t) && !Contains(f, t)
    ensures Split(f + t, t)[0] == f
  {
    FirstAtEnd(f, t);
    assert (f + t)[..|f|] == f;
  }

  /** `<field>_DESC` sorts the field descending. */
  lemma SortTermDescending(f: string)
    requires !Contains(f, "_DESC")
    ensures SortTerm(f + "_DESC") == "this." + f + " DESC"
  {
    assert HeadUnique("_DESC");
    SplitHead(f, "_DESC");
  }

  /** `<field>_ASC` sorts the field ascending. */
  lemma SortTermAscending(f: string)
    requires !Contains(f, "_DESC") && !Contains(f, "_ASC")
    ensures SortTerm(f + "_ASC") == "this." + f + " ASC"
  {
    assert HeadUnique("_DESC") && HeadUnique("_ASC");
    forall j
      ensures !OccursAt(f + "_ASC", "_DESC", j)
    {
      NoCrossing(f, "_ASC", "_DESC", j);
    }
    ContainsIff(f + "_ASC", "_DESC");
    SplitHead(f, "_ASC");
  }

  /** A token with neither suffix sorts the whole token ascending. */
  lemma SortTermDefault(f: string)
    requires !Contains(f, "_DESC") && !Contains(f, "_ASC")
    ensures SortTerm(f) == "this." + f + " ASC"
  {
    SplitAbsent(f, "_ASC");
  }

  // ---------------------------------------------------------------------------------------------
  // Read

  /** Dropping empty clauses keeps exactly the non-empty ones, the first one first. */
  lemma {:induction false} NonEmptySpec(lines: seq<string>)
    ensures forall x :: x in NonEmpty(lines) <==> x in lines && x != ""
    ensures |NonEmpty(lines)| <= |lines|
    ensures lines != [] && lines[0] != "" ==> NonEmpty(lines) != [] && NonEmpty(lines)[0] == lines[0]
  {
    if lines != [] {
      NonEmptySpec(lines[1..]);
      assert lines == [lines[0]] + lines[1..];
    }
  }

  /** Dropping empty clauses works piecewise, so the kept clauses stay in their order. */
  lemma {:induction false} NonEmptyAppend(a: seq<string>, b: seq<string>)
    ensures NonEmpty(a + b) == NonEmpty(a) + NonEmpty(b)
    decreases |a|
  {
    if a == [] {
      assert a + b == b;
    } else {
      assert (a + b)[1..] == a[1..] + b;
      NonEmptyAppend(a[1..], b);
    }
  }

  /** A non-empty clause sits in the result right after the non-empty clauses before it, so
      of two non-empty clauses the earlier one comes first. */
  lemma NonEmptyPosition(lines: seq<string>, i: nat, j: nat)
    requires i < j < |lines| && lines[i] != "" && lines[j] != ""
    ensures |NonEmpty(lines[..i])| < |NonEmpty(lines[..j])| < |NonEmpty(lines)|
    ensures NonEmpty(lines)[|NonEmpty(lines[..i])|] == lines[i]
    ensures NonEmpty(lines)[|NonEmpty(lines[..j])|] == lines[j]
  {
    NonEmptyAt(lines, i);
    NonEmptyAt(lines, j);
    assert lines[..j] == lines[..i] + lines[i..j];
    NonEmptyAppend(lines[..i], lines[i..j]);
    assert lines[i..j] == [lines[i]] + lines[i + 1..j];
    NonEmptyAppend([lines[i]], lines[i + 1..j]);
    assert NonEmpty([lines[i]]) == [lines[i]] by {
      assert [lines[i]][1..] == [];
    }
  }

  lemma NonEmptyAt(lines: seq<string>, i: nat)
    requires i < |lines| && lines[i] != ""
    ensures |NonEmpty(lines[..i])| < |NonEmpty(lines)|
    ensures NonEmpty(lines)[|NonEmpty(lines[..i])|] == lines[i]
  {
    assert lines == lines[..i] + ([lines[i]] + lines[i + 1..]);
    NonEmptyAppend(lines[..i], [lines[i]] + lines[i + 1..]);
    NonEmptyAppend([lines[i]], lines[i + 1..]);
    assert NonEmpty([lines[i]]) == [lines[i]] by {
      assert [lines[i]][1..] == [];
    }
  }

  /** A clause, or nothing when it is empty. */
  function Kept(clause: string): (r: seq<string>)
    ensures |r| <= 1 && (r != [] <==> clause != "")
  {
    if clause == "" then [] else [clause]
  }

  /** The read query's clauses in their fixed order: `MATCH`, the filter if there is one,
      `RETURN`, then `ORDER BY`, `SKIP` and `LIMIT` where they are given. */
  lemma ReadClauseOrder(env: Collaborators, nodes: seq<Node>, tree: ResolveTree)
    ensures Read(env, nodes, tree).Ok? ==>
      var node := FindNode(nodes, env.singular(tree.name)).value;
      var c := ReadClauses(env, node, tree);
      Read(env, nodes, tree).value.cypher
        == Join([c[0]] + Kept(c[1]) + [c[2]] + Kept(c[3]) + Kept(c[4]) + Kept(c[5]), "\n")
  {
    if Read(env, nodes, tree).Ok? {
      var node := FindNode(nodes, env.singular(tree.name)).value;
      var c := ReadClauses(env, node, tree);
      assert c == [c[0]] + [c[1]] + [c[2]] + [c[3]] + [c[4]] + [c[5]];
      NonEmptySix(c[0], c[1], c[2], c[3], c[4], c[5]);
    }
  }

  lemma NonEmptySix(c0: string, c1: string, c2: string, c3: string, c4: string, c5: string)
    ensures NonEmpty([c0] + [c1] + [c2] + [c3] + [c4] + [c5])
      == Kept(c0) + Kept(c1) + Kept(c2) + Kept(c3) + Kept(c4) + Kept(c5)
  {
    forall x
      ensures NonEmpty([x]) == Kept(x)
    {
      assert [x][1..] == [];
    }
    NonEmptyAppend([c0] + [c1] + [c2] + [c3] + [c4], [c5]);
    NonEmptyAppend([c0] + [c1] + [c2] + [c3], [c4]);
    NonEmptyAppend([c0] + [c1] + [c2], [c3]);
    NonEmptyAppend([c0] + [c1], [c2]);
    NonEmptyAppend([c0], [c1]);
  }

  lemma JoinStarts(parts: seq<string>, sep: string)
    requires parts != []
    ensures parts[0] <= Join(parts, sep)
  {
  }

  /** A read fails exactly when the root type is unknown; otherwise the query starts by
      matching that type and returns the projection. */
  lemma ReadShape(env: Collaborators, nodes: seq<Node>, tree: ResolveTree)
    ensures Read(env, nodes, tree).Err? <==> FindNode(nodes, env.singular(tree.name)).None?
    ensures Read(env, nodes, tree).Ok? ==>
      var node := FindNode(nodes, env.singular(tree.name)).value;
      var clauses := NonEmpty(ReadClauses(env, node, tree));
      "MATCH (this:" + node.name + ")" <= Read(env, nodes, tree).value.cypher
      && "RETURN this " + env.projectionAndParams(node, tree.fieldsByTypeName, "this").0 + " as this" in clauses
  {
    var found := FindNode(nodes, env.singular(tree.name));
    if found.Some? {
      var node := found.value;
      var c := ReadClauses(env, node, tree);
      NonEmptySpec(c);
      assert c[2] in c;
      JoinStarts(NonEmpty(c), "\n");
    }
  }

  /** A `SKIP`/`LIMIT` clause appears exactly when the option is given and non-zero, and then
      its parameter holds the option's value whatever the projection and filter supplied. */
  lemma ReadPaging(env: Collaborators, node: Node, tree: ResolveTree)
    ensures ReadClauses(env, node, tree)[4] != "" <==> SkipGiven(tree)
    ensures ReadClauses(env, node, tree)[5] != "" <==> LimitGiven(tree)
    ensures SkipGiven(tree) ==>
      "SKIP $this_skip" in NonEmpty(ReadClauses(env, node, tree))
      && Lookup(ReadParams(env, node, tree), "this_skip") == Some(Num(tree.options.value.skip.value))
    ensures LimitGiven(tree) ==>
      "LIMIT $this_limit" in NonEmpty(ReadClauses(env, node, tree))
      && Lookup(ReadParams(env, node, tree), "this_limit") == Some(Num(tree.options.value.limit.value))
  {
    var c := ReadClauses(env, node, tree);
    NonEmptySpec(c);
    assert c[4] in c && c[5] in c;
    var p0 := Spread([], env.projectionAndParams(node, tree.fieldsByTypeName, "this").1);
    var p1 := if WhereGiven(tree) then Spread(p0, env.whereAndParams(tree.where.value, "this").1) else p0;
    if SkipGiven(tree) {
      var v := Num(tree.options.value.skip.value);
      SetSpec(p1, "this_skip", v);
      if LimitGiven(tree) {
        SetSpec(Set(p1, "this_skip", v), "this_limit", Num(tree.options.value.limit.value));
      }
    } else if LimitGiven(tree) {
      SetSpec(p1, "this_limit", Num(tree.options.value.limit.value));
    }
  }

  /** Any other parameter comes from the filter when it supplies the key, from the
      projection otherwise; within each, the last binding of the key wins. */
  lemma ReadParamSources(env: Collaborators, node: Node, tree: ResolveTree, k: string)
    requires k != "this_skip" && k != "this_limit"
    ensures
      var projection := env.projectionAndParams(node, tree.fieldsByTypeName, "this").1;
      var where := if WhereGiven(tree) then env.whereAndParams(tree.where.value, "this").1 else [];
      Lookup(ReadParams(env, node, tree), k)
        == if k in Keys(where) then LastLookup(where, k) else LastLookup(projection, k)
  {
    var projection := env.projectionAndParams(node, tree.fieldsByTypeName, "this").1;
    var p0 := Spread([], projection);
    SpreadLookup([], projection, k);
    var p1 := p0;
    if WhereGiven(tree) {
      p1 := Spread(p0, env.whereAndParams(tree.where.value, "this").1);
      SpreadLookup(p0, env.whereAndParams(tree.where.value, "this").1, k);
    }
    var p2 := p1;
    if SkipGiven(tree) {
      p2 := Set(p1, "this_skip", Num(tree.options.value.skip.value));
      SetSpec(p1, "this_skip", Num(tree.options.value.skip.value));
    }
    if LimitGiven(tree) {
      SetSpec(p2, "this_limit", Num(tree.options.value.limit.value));
    }
  }

  // ---------------------------------------------------------------------------------------------
  // Create

  function VarNames(n: nat): (r: seq<string>)
    ensures |r| == n && forall i :: 0 <= i < n ==> r[i] == CreateVar(i)
  {
    seq(n, i requires 0 <= i < n => CreateVar(i))
  }

  /** The create of input `i`: it sees the variables of every input up to and including its own. */
  function CreatedAt(env: Collaborators, node: Node, inputs: seq<Value>, i: nat): (string, Params)
    requires i < |inputs|
  {
    env.createAndParams(inputs[i], node, CreateVar(i), VarNames(i + 1))
  }

  /** Line `i`: all earlier variables carried over with `WITH`, then the create. */
  function CreateLine(env: Collaborators, node: Node, inputs: seq<Value>, i: nat): string
    requires i < |inputs|
  {
    (if i > 0 then "\nWITH " + Join(VarNames(i), ", ") else "") + "\n" + CreatedAt(env, node, inputs, i).0
  }

  function CreateParams(env: Collaborators, node: Node, inputs: seq<Value>, n: nat): Params
    requires n <= |inputs|
  {
    if n == 0 then [] else Spread(CreateParams(env, node, inputs, n - 1), CreatedAt(env, node, inputs, n - 1).1)
  }

  /** The accumulator after the first `n` inputs, stated without the fold. */
  function Created(env: Collaborators, node: Node, inputs: seq<Value>, n: nat): CreateAcc
    requires n <= |inputs|
  {
    CreateAcc(seq(n, i requires 0 <= i < n => CreateLine(env, node, inputs, i)),
              CreateParams(env, node, inputs, n), VarNames(n))
  }

  lemma {:induction false} CreateFoldFrom(env: Collaborators, node: Node, inputs: seq<Value>, i: nat, acc: CreateAcc)
    requires i <= |inputs| && acc == Created(env, node, inputs, i)
    ensures CreateFold(env, node, inputs, i, acc) == Created(env, node, inputs, |inputs|)
    decreases |inputs| - i
  {
    if i < |inputs| {
      var next := CreateStep(env, node, acc, inputs[i], i);
      CreateStepClosed(env, node, inputs, i);
      CreateFoldFrom(env, node, inputs, i + 1, next);
    }
  }

  /** One step of the reduce extends the closed form by input `i`. */
  lemma CreateStepClosed(env: Collaborators, node: Node, inputs: seq<Value>, i: nat)
    requires i < |inputs|
    ensures CreateStep(env, node, Created(env, node, inputs, i), inputs[i], i) == Created(env, node, inputs, i + 1)
  {
    var acc := Created(env, node, inputs, i);
    var w := acc.withVars + [CreateVar(i)];
    assert w == VarNames(i + 1) && w[..|w| - 1] == VarNames(i) by { VarNamesSnoc(i); }
    CreateLinesSnoc(env, node, inputs, i);
  }

  lemma VarNamesSnoc(i: nat)
    ensures VarNames(i) + [CreateVar(i)] == VarNames(i + 1)
    ensures (VarNames(i) + [CreateVar(i)])[..i] == VarNames(i)
  {
  }

  lemma CreateLinesSnoc(env: Collaborators, node: Node, inputs: seq<Value>, i: nat)
    requires i < |inputs|
    ensures Created(env, node, inputs, i).createStrs + [CreateLine(env, node, inputs, i)]
         == Created(env, node, inputs, i + 1).createStrs
  {
  }

  /** The reduce over the inputs yields one line per input, the parameters of every create
      in order, and one variable per input. */
  lemma CreateFoldClosed(env: Collaborators, node: Node, inputs: seq<Value>)
    ensures CreateFold(env, node, inputs, 0, CreateAcc([], [], [])) == Created(env, node, inputs, |inputs|)
  {
    assert CreateAcc([], [], []) == Created(env, node, inputs, 0);
    CreateFoldFrom(env, node, inputs, 0, CreateAcc([], [], []));
  }

  /** Created variables never clash. */
  lemma CreateVarInjective(i: nat, j: nat)
    requires CreateVar(i) == CreateVar(j)
    ensures i == j
  {
    assert NatToString(i) == CreateVar(i)[4..];
    assert NatToString(j) == CreateVar(j)[4..];
    NatToStringInjective(i, j);
  }

  /** A successful create returns every created variable through the shared projection,
      and its parameters are the creates' followed by the renamed projection's. */
  lemma CreateShape(env: Collaborators, nodes: seq<Node>, tree: ResolveTree)
    ensures Create(env, nodes, tree).Ok? ==>
      var node := FindNode(nodes, env.singular(Split(tree.name, "create")[1])).value;
      var projection := env.projectionAndParams(node, tree.fieldsByTypeName, Placeholder);
      var n := |tree.input|;
      Create(env, nodes, tree).value ==
        Translation(Join(Created(env, node, tree.input, n).createStrs, "\n") + "\n\nRETURN "
                      + Join(ProjectionItems(projection.0, n), ", "),
                    Spread(CreateParams(env, node, tree.input, n), RenameParams(projection.1, [])))
  {
    var parts := Split(tree.name, "create");
    if |parts| >= 2 {
      var found := FindNode(nodes, env.singular(parts[1]));
      if found.Some? {
        CreateFoldClosed(env, found.value, tree.input);
      }
    }
  }

  // ---------------------------------------------------------------------------------------------
  // The shared projection

  /** Characters of generated variable names and renamed references. */
  predicate LowerText(s: string)
  {
    forall i :: 0 <= i < |s| ==> ('a' <= s[i] <= 'z') || ('0' <= s[i] <= '9') || s[i] == '$'
  }

  /** Characters of the placeholder. */
  predicate UpperText(s: string)
  {
    forall i :: 0 <= i < |s| ==> ('A' <= s[i] <= 'Z') || s[i] == '_'
  }

  lemma LowerUpperDisjoint(r: string, p: string)
    requires LowerText(r) && UpperText(p)
    ensures Disjoint(r, p)
  {
  }

  lemma CreateVarLower(i: nat)
    ensures LowerText(CreateVar(i))
  {
    var s := CreateVar(i);
    forall k | 0 <= k < |s|
      ensures ('a' <= s[k] <= 'z') || ('0' <= s[k] <= '9') || s[k] == '$'
    {
      if k >= 4 {
        assert s[k] == NatToString(i)[k - 4];
      }
    }
  }

  /** The projection given to created variable `i` holds no placeholder. */
  lemma NoPlaceholderLeft(projection: string, i: nat)
    ensures !Contains(Substitute(projection, i), Placeholder)
  {
    CreateVarLower(i);
    assert UpperText(Placeholder);
    LowerUpperDisjoint(CreateVar(i), Placeholder);
    ReplaceAllRemoves(ReplaceAll(projection, "$" + Placeholder, "$projection"), Placeholder, CreateVar(i));
  }

  lemma DollarFree(t: string)
    requires !Contains(t, Placeholder)
    ensures !Contains(t, "$" + Placeholder)
  {
    var pat := "$" + Placeholder;
    ContainsIff(t, Placeholder);
    forall j
      ensures !OccursAt(t, pat, j)
    {
      if 0 <= j && j + |pat| <= |t| {
        assert t[j..j + |pat|][1..] == t[j + 1..j + 1 + |Placeholder|];
        assert !OccursAt(t, Placeholder, j + 1);
      }
    }
    ContainsIff(t, pat);
  }

  /** The two replacements, piece by piece: cut the projection at its parameter references
      `$REPLACE_ME`, put the created variable for every placeholder left in each piece, and
      join the pieces again with `$projection`. */
  lemma ProjectionSubstituted(projection: string, i: nat)
    ensures var pieces := Split(projection, "$" + Placeholder);
      Join(pieces, "$" + Placeholder) == projection
      && (forall k :: 0 <= k < |pieces| ==> !Contains(pieces[k], "$" + Placeholder))
      && Substitute(projection, i)
         == Join(seq(|pieces|, k requires 0 <= k < |pieces| => ReplaceAll(pieces[k], Placeholder, CreateVar(i))),
                 "$projection")
  {
    var pieces := Split(projection, "$" + Placeholder);
    JoinSplit(projection, "$" + Placeholder);
    SplitPiecesFree(projection, "$" + Placeholder);
    assert forall k :: 0 <= k < |pieces| ==> pieces[k] in pieces;
    assert LowerText("$projection") && UpperText(Placeholder);
    LowerUpperDisjoint("$projection", Placeholder);
    ReplaceAllJoin(pieces, "$projection", Placeholder, CreateVar(i));
  }

  /** A reference right after placeholder-free text is the first one. */
  lemma ReferenceFirst(a: string, t: string)
    requires !Contains(a, Placeholder)
    ensures IndexOf(a + "$" + Placeholder + t, "$" + Placeholder) == Some(|a|)
  {
    var pat := "$" + Placeholder;
    var s := a + pat + t;
    assert s[|a|..|a| + |pat|] == pat;
    ContainsIff(a, Placeholder);
    forall j | 0 <= j < |a|
      ensures !OccursAt(s, pat, j)
    {
      if j + |pat| <= |a| {
        assert !OccursAt(a, Placeholder, j + 1);
        assert s[j + 1..j + |pat|] == a[j + 1..j + 1 + |Placeholder|];
      } else if j + |pat| <= |s| {
        assert s[j..j + |pat|][|a| - j] == '$';
        assert UpperText(Placeholder);
        assert pat[|a| - j] == Placeholder[|a| - j - 1];
      }
    }
    IndexOfFirst(s, pat, |a|);
    assert a + "$" + Placeholder + t == s;
  }

  lemma ReferenceSplit(a: string, t: string)
    requires !Contains(a, Placeholder) && !Contains(t, Placeholder)
    ensures Split(a + ("$" + Placeholder) + t, "$" + Placeholder) == [a, t]
  {
    var pat := "$" + Placeholder;
    var s := a + pat + t;
    ReferenceFirst(a, t);
    assert a + "$" + Placeholder + t == s;
    DollarFree(t);
    SplitAbsent(t, pat);
    assert s[..|a|] == a && s[|a| + |pat|..] == t;
  }

  /** A parameter reference `$REPLACE_ME<t>` between placeholder-free texts becomes
      `$projection<t>` for every created variable, and the projection's key `REPLACE_ME<t>`
      is renamed to the same `projection<t>`: the reference and its parameter keep matching. */
  lemma ParamReferenceRenamed(a: string, t: string, i: nat)
    requires !Contains(a, Placeholder) && !Contains(t, Placeholder)
    ensures Substitute(a + "$" + Placeholder + t, i) == a + "$projection" + t
    ensures RenameKey(Placeholder + t) == "projection" + t
  {
    var pat := "$" + Placeholder;
    var s := a + pat + t;
    assert a + "$" + Placeholder + t == s;
    ReferenceSplit(a, t);
    ProjectionSubstituted(s, i);
    ReplaceAllAbsent(a, Placeholder, CreateVar(i));
    ReplaceAllAbsent(t, Placeholder, CreateVar(i));
    ReplaceFirstLeading(Placeholder, t, "projection");
  }

  /** A key that no renamed field produces keeps its binding. */
  lemma {:induction false} RenameParamsOther(fields: Params, acc: Params, k: string)
    requires forall j :: 0 <= j < |fields| ==> RenameKey(fields[j].key) != k
    ensures Lookup(RenameParams(fields, acc), k) == Lookup(acc, k)
    decreases |fields|
  {
    if fields != [] {
      SetSpec(acc, RenameKey(fields[0].key), fields[0].val);
      RenameParamsOther(fields[1..], Set(acc, RenameKey(fields[0].key), fields[0].val), k);
    }
  }

  /** Every projection parameter survives under its renamed key, bound to the value of the
      last field renamed to that key. */
  lemma {:induction false} RenameParamsLast(fields: Params, acc: Params, i: nat)
    requires i < |fields|
    requires forall j :: i < j < |fields| ==> RenameKey(fields[j].key) != RenameKey(fields[i].key)
    ensures Lookup(RenameParams(fields, acc), RenameKey(fields[i].key)) == Some(fields[i].val)
    decreases |fields|
  {
    var next := Set(acc, RenameKey(fields[0].key), fields[0].val);
    if i == 0 {
      SetSpec(acc, RenameKey(fields[0].key), fields[0].val);
      RenameParamsOther(fields[1..], next, RenameKey(fields[0].key));
    } else {
      RenameParamsLast(fields[1..], next, i - 1);
    }
  }

  // ---------------------------------------------------------------------------------------------
  // Dispatch

  lemma SplitContains(s: string, sep: string)
    requires sep != [] && Contains(s, sep)
    ensures |Split(s, sep)| >= 2
  {
  }

  /** `"invalid schema"` is reported exactly when there is no schema; a create mutation whose
      field names its type always finds a type name; everything else is a read. */
  lemma DispatchRule(env: Collaborators, schema: Option<seq<Node>>, op: Operation, tree: ResolveTree)
    ensures Dispatch(env, schema, op, tree) == Err(InvalidSchema) <==> schema.None?
    ensures schema.Some? && IsCreate(op) && tree.name == op.fieldName ==>
      Dispatch(env, schema, op, tree) != Err(MissingTypeName)
    ensures schema.Some? && IsCreate(op) ==> Dispatch(env, schema, op, tree) == Create(env, schema.value, tree)
    ensures schema.Some? && !IsCreate(op) ==> Dispatch(env, schema, op, tree) == Read(env, schema.value, tree)
  {
    if schema.Some? && IsCreate(op) && tree.name == op.fieldName {
      SplitContains(tree.name, "create");
    }
  }
}
