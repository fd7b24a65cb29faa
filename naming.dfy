/** How the delete generator names things: the variable bound to each target
    element, its relationship variable, the arrow of the match pattern, and the
    dotted parameter prefix handed to the filter compiler and to nested calls.
    A prefix is a path of `.name` and `[index]` segments; reading a rendered path
    back gives the path again, so distinct input positions get distinct prefixes. */
module Naming {
  import opened Wrappers
  import opened Text
  import opened Schema

  /** The variable of element `index` of target type `refName` under field `key`:
      `<varName><index>` inside a chain, otherwise `<varName>_<key>[_<refName>]<index>`,
      the type name only for a union or interface field. */
  function VariableName(varName: string, chainStr: string, key: string, rel: RelationField,
                        refName: string, index: nat): string
  {
    if chainStr != "" then varName + NatToString(index)
    else varName + "_" + key + (if rel.kind != Plain then "_" + refName else "") + NatToString(index)
  }

  /** Elements of the same field and type get distinct variables: the index can be read back. */
  lemma VariableNameInjective(varName: string, chainStr: string, key: string, rel: RelationField,
                              refName: string, i: nat, j: nat)
    requires VariableName(varName, chainStr, key, rel, refName, i) == VariableName(varName, chainStr, key, rel, refName, j)
    ensures i == j
  {
    var stem := if chainStr != "" then varName
                else varName + "_" + key + (if rel.kind != Plain then "_" + refName else "");
    assert VariableName(varName, chainStr, key, rel, refName, i) == stem + NatToString(i);
    assert VariableName(varName, chainStr, key, rel, refName, j) == stem + NatToString(j);
    assert (stem + NatToString(i))[|stem|..] == NatToString(i);
    assert (stem + NatToString(j))[|stem|..] == NatToString(j);
    NatToStringInjective(i, j);
  }

  function RelationshipVariable(variable: string): string
  {
    variable + "_relationship"
  }

  /** Left end of the relationship pattern: `<-` only for `IN`. */
  function InStr(direction: string): string
  {
    if direction == "IN" then "<-" else "-"
  }

  /** Right end of the relationship pattern: `->` only for `OUT`. */
  function OutStr(direction: string): string
  {
    if direction == "OUT" then "->" else "-"
  }

  function MatchLine(parentVar: string, direction: string, relVar: string, relType: string,
                     variable: string, labels: string): string
  {
    "OPTIONAL MATCH (" + parentVar + ")" + InStr(direction) + "[" + relVar + ":" + relType + "]"
      + OutStr(direction) + "(" + variable + labels + ")"
  }

  /** The relationship pattern for each declared direction. */
  lemma {:induction false} MatchLineDirection(parentVar: string, direction: string, relVar: string, relType: string,
                           variable: string, labels: string)
    ensures var edge := "[" + relVar + ":" + relType + "]";
      var target := "(" + variable + labels + ")";
      MatchLine(parentVar, direction, relVar, relType, variable, labels)
        == "OPTIONAL MATCH (" + parentVar + ")"
           + (if direction == "IN" then "<-" + edge + "-"
              else if direction == "OUT" then "-" + edge + "->"
              else "-" + edge + "-")
           + target
  {
  }

  /** The text added to the parameter prefix for one element:
      `.<key>` unless recursing, `.<Type>` for a union, `[<index>]` for a list field. */
  function ElementPrefix(parameterPrefix: string, recursing: bool, key: string, rel: RelationField,
                         refName: string, index: nat): string
  {
    parameterPrefix + (if !recursing then "." + key else "")
      + (if rel.kind.Union? then "." + refName else "")
      + (if rel.isArray then "[" + NatToString(index) + "]" else "")
  }

  /** Prefix of the element's filter parameters. */
  function WherePrefix(parameterPrefix: string, recursing: bool, key: string, rel: RelationField,
                       refName: string, index: nat): string
  {
    ElementPrefix(parameterPrefix, recursing, key, rel, refName, index) + ".where"
  }

  /** Prefix of the element's nested delete. */
  function NestedPrefix(parameterPrefix: string, recursing: bool, key: string, rel: RelationField,
                        refName: string, index: nat): string
  {
    ElementPrefix(parameterPrefix, recursing, key, rel, refName, index) + ".delete"
  }

  /** Prefix of the `onIndex`-th `_on.<Type>` override of an interface element. */
  function OnPrefix(parameterPrefix: string, recursing: bool, key: string, rel: RelationField,
                    refName: string, index: nat, onIndex: nat): string
  {
    ElementPrefix(parameterPrefix, recursing, key, rel, refName, index) + OnSuffix(refName, onIndex)
  }

  function OnSuffix(refName: string, onIndex: nat): string
  {
    ".delete._on." + refName + "[" + NatToString(onIndex) + "]"
  }

  // ---------------------------------------------------------------------------------------------
  // Parameter paths

  datatype Segment = Prop(name: string) | Index(i: nat)

  function RenderSegment(s: Segment): string
  {
    match s
    case Prop(n) => "." + n
    case Index(i) => "[" + NatToString(i) + "]"
  }

  function Render(path: seq<Segment>): string
  {
    if path == [] then "" else RenderSegment(path[0]) + Render(path[1..])
  }

  /** A GraphQL name never holds `.` or `[`. */
  predicate PlainName(n: string)
  {
    forall i :: 0 <= i < |n| ==> n[i] != '.' && n[i] != '['
  }

  predicate PlainPath(path: seq<Segment>)
  {
    forall k :: 0 <= k < |path| ==> path[k].Prop? ==> PlainName(path[k].name)
  }

  /** First index at or after `k` holding `.` or `[`, or `|s|`. */
  function NameEnd(s: string, k: nat): (e: nat)
    requires k <= |s|
    ensures k <= e <= |s|
    decreases |s| - k
  {
    if k == |s| || s[k] == '.' || s[k] == '[' then k else NameEnd(s, k + 1)
  }

  /** First index at or after `k` holding `]`, or `|s|`. */
  function CloseEnd(s: string, k: nat): (e: nat)
    requires k <= |s|
    ensures k <= e <= |s|
    decreases |s| - k
  {
    if k == |s| || s[k] == ']' then k else CloseEnd(s, k + 1)
  }

  /** Reads a rendered path back. */
  function Parse(s: string): seq<Segment>
    decreases |s|
  {
    if s == [] then []
    else if s[0] == '.' then
      var e := NameEnd(s, 1);
      [Prop(s[1..e])] + Parse(s[e..])
    else if s[0] == '[' then
      var e := CloseEnd(s, 1);
      var digits := s[1..e];
      var i := if IsDigits(digits) then DigitsValue(digits) else 0;
      [Index(i)] + Parse(if e < |s| then s[e + 1..] else [])
    else []
  }

  lemma {:induction false} RenderStart(path: seq<Segment>)
    ensures Render(path) == [] || Render(path)[0] == '.' || Render(path)[0] == '['
  {
  }

  lemma {:induction false} NameEndAt(n: string, rest: string, k: nat)
    requires PlainName(n) && k <= |n|
    requires rest == [] || rest[0] == '.' || rest[0] == '['
    ensures NameEnd("." + n + rest, k + 1) == |n| + 1
    decreases |n| - k
  {
    var s := "." + n + rest;
    if k < |n| {
      assert s[k + 1] == n[k];
      NameEndAt(n, rest, k + 1);
    }
  }

  lemma {:induction false} CloseEndAt(d: string, rest: string, k: nat)
    requires IsDigits(d) && k <= |d|
    ensures CloseEnd("[" + d + "]" + rest, k + 1) == |d| + 1
    decreases |d| - k
  {
    var s := "[" + d + "]" + rest;
    if k < |d| {
      assert s[k + 1] == d[k];
      CloseEndAt(d, rest, k + 1);
    }
  }

  lemma {:induction false} ParseProp(n: string, rest: string)
    requires PlainName(n)
    requires rest == [] || rest[0] == '.' || rest[0] == '['
    ensures Parse("." + n + rest) == [Prop(n)] + Parse(rest)
  {
    var s := "." + n + rest;
    NameEndAt(n, rest, 0);
    assert s[1..|n| + 1] == n;
    assert s[|n| + 1..] == rest;
  }

  lemma {:induction false} ParseIndex(i: nat, rest: string)
    ensures Parse("[" + NatToString(i) + "]" + rest) == [Index(i)] + Parse(rest)
  {
    var d := NatToString(i);
    var s := "[" + d + "]" + rest;
    CloseEndAt(d, rest, 0);
    NatToStringValue(i);
    assert s[1..|d| + 1] == d;
    assert s[|d| + 2..] == rest;
  }

  /** Reading back a rendered path gives the path. */
  lemma {:induction false} ParseRender(path: seq<Segment>)
    requires PlainPath(path)
    ensures Parse(Render(path)) == path
  {
    if path != [] {
      var rest := Render(path[1..]);
      assert PlainPath(path[1..]) by {
        forall k | 0 <= k < |path[1..]| ensures path[1..][k].Prop? ==> PlainName(path[1..][k].name) {
          assert path[1..][k] == path[k + 1];
        }
      }
      ParseRender(path[1..]);
      RenderStart(path[1..]);
      match path[0]
      case Prop(n) =>
        assert PlainName(n) by { assert path[0].Prop?; }
        ParseProp(n, rest);
      case Index(i) =>
        ParseIndex(i, rest);
    }
  }

  /** Distinct plain paths render to distinct prefixes. */
  lemma {:induction false} RenderInjective(p: seq<Segment>, q: seq<Segment>)
    requires PlainPath(p) && PlainPath(q)
    requires Render(p) == Render(q)
    ensures p == q
  {
    ParseRender(p);
    ParseRender(q);
  }

  lemma {:induction false} RenderAppend(p: seq<Segment>, q: seq<Segment>)
    ensures Render(p + q) == Render(p) + Render(q)
  {
    if p == [] {
      assert p + q == q;
    } else {
      assert (p + q)[0] == p[0];
      assert (p + q)[1..] == p[1..] + q;
      RenderAppend(p[1..], q);
    }
  }

  /** The path of one element below the call's prefix. */
  function ElementPath(recursing: bool, key: string, rel: RelationField, refName: string, index: nat)
    : seq<Segment>
  {
    (if !recursing then [Prop(key)] else [])
      + (if rel.kind.Union? then [Prop(refName)] else [])
      + (if rel.isArray then [Index(index)] else [])
  }

  lemma {:induction false} RenderOne(g: Segment)
    ensures Render([g]) == RenderSegment(g)
  {
    assert [g][1..] == [];
  }

  lemma {:induction false} RenderOptional(present: bool, g: Segment)
    ensures Render(if present then [g] else []) == if present then RenderSegment(g) else ""
  {
    RenderOne(g);
  }

  lemma {:induction false} RenderThree(a: seq<Segment>, b: seq<Segment>, c: seq<Segment>, x: string, y: string, z: string)
    requires Render(a) == x && Render(b) == y && Render(c) == z
    ensures x + y + z == Render(a + b + c)
  {
    RenderAppend(a, b);
    RenderAppend(a + b, c);
  }

  lemma {:induction false} ElementPrefixParts(parameterPrefix: string, recursing: bool, key: string, rel: RelationField,
                           refName: string, index: nat, x: string, y: string, z: string)
    requires x == if !recursing then "." + key else ""
    requires y == if rel.kind.Union? then "." + refName else ""
    requires z == if rel.isArray then "[" + NatToString(index) + "]" else ""
    ensures ElementPrefix(parameterPrefix, recursing, key, rel, refName, index) == parameterPrefix + (x + y + z)
  {
    assert ElementPrefix(parameterPrefix, recursing, key, rel, refName, index) == parameterPrefix + x + y + z;
    Regroup4(parameterPrefix, x, y, z);
  }

  lemma Regroup4(a: string, b: string, c: string, d: string)
    ensures a + b + c + d == a + (b + c + d)
  {
  }

  lemma {:induction false} ElementPathParts(recursing: bool, key: string, rel: RelationField, refName: string, index: nat,
                         a: seq<Segment>, b: seq<Segment>, c: seq<Segment>)
    requires a == if !recursing then [Prop(key)] else []
    requires b == if rel.kind.Union? then [Prop(refName)] else []
    requires c == if rel.isArray then [Index(index)] else []
    ensures ElementPath(recursing, key, rel, refName, index) == a + b + c
  {
  }

  lemma {:induction false} ElementPrefixPath(parameterPrefix: string, recursing: bool, key: string, rel: RelationField,
                          refName: string, index: nat)
    ensures ElementPrefix(parameterPrefix, recursing, key, rel, refName, index)
            == parameterPrefix + Render(ElementPath(recursing, key, rel, refName, index))
  {
    var a: seq<Segment> := if !recursing then [Prop(key)] else [];
    var b: seq<Segment> := if rel.kind.Union? then [Prop(refName)] else [];
    var c: seq<Segment> := if rel.isArray then [Index(index)] else [];
    var x := if !recursing then "." + key else "";
    var y := if rel.kind.Union? then "." + refName else "";
    var z := if rel.isArray then "[" + NatToString(index) + "]" else "";
    RenderOptional(!recursing, Prop(key));
    RenderOptional(rel.kind.Union?, Prop(refName));
    RenderOptional(rel.isArray, Index(index));
    RenderThree(a, b, c, x, y, z);
    ElementPrefixParts(parameterPrefix, recursing, key, rel, refName, index, x, y, z);
    ElementPathParts(recursing, key, rel, refName, index, a, b, c);
  }

  lemma {:induction false} RenderSuffix(parameterPrefix: string, path: seq<Segment>, e: string, tail: seq<Segment>, t: string)
    requires e == parameterPrefix + Render(path) && Render(tail) == t
    ensures e + t == parameterPrefix + Render(path + tail)
  {
    RenderAppend(path, tail);
    Regroup(parameterPrefix, Render(path), e, Render(tail), t, Render(path + tail));
  }

  lemma {:induction false} Regroup(pp: string, a: string, e: string, b: string, t: string, ab: string)
    requires e == pp + a && b == t && ab == a + b
    ensures e + t == pp + ab
  {
  }

  /** The filter prefix is the element's path followed by `where`. */
  lemma {:induction false} WherePrefixPath(parameterPrefix: string, recursing: bool, key: string, rel: RelationField,
                        refName: string, index: nat)
    ensures WherePrefix(parameterPrefix, recursing, key, rel, refName, index)
            == parameterPrefix + Render(ElementPath(recursing, key, rel, refName, index) + [Prop("where")])
  {
    ElementPrefixPath(parameterPrefix, recursing, key, rel, refName, index);
    RenderOne(Prop("where"));
    RenderSuffix(parameterPrefix, ElementPath(recursing, key, rel, refName, index),
                 ElementPrefix(parameterPrefix, recursing, key, rel, refName, index), [Prop("where")], ".where");
  }

  /** The nested-delete prefix is the element's path followed by `delete`. */
  lemma {:induction false} NestedPrefixPath(parameterPrefix: string, recursing: bool, key: string, rel: RelationField,
                         refName: string, index: nat)
    ensures NestedPrefix(parameterPrefix, recursing, key, rel, refName, index)
            == parameterPrefix + Render(ElementPath(recursing, key, rel, refName, index) + [Prop("delete")])
  {
    ElementPrefixPath(parameterPrefix, recursing, key, rel, refName, index);
    RenderOne(Prop("delete"));
    RenderSuffix(parameterPrefix, ElementPath(recursing, key, rel, refName, index),
                 ElementPrefix(parameterPrefix, recursing, key, rel, refName, index), [Prop("delete")], ".delete");
  }

  function OnPath(refName: string, onIndex: nat): seq<Segment>
  {
    [Prop("delete"), Prop("_on"), Prop(refName), Index(onIndex)]
  }

  lemma {:induction false} RenderCons(g: Segment, rest: seq<Segment>)
    ensures Render([g] + rest) == RenderSegment(g) + Render(rest)
  {
    assert ([g] + rest)[1..] == rest;
  }

  lemma OnSuffixShape(n: string, d: string)
    ensures ".delete" + ("._on" + (("." + n) + ("[" + d + "]"))) == ".delete._on." + n + "[" + d + "]"
  {
    calc {
      ".delete" + ("._on" + (("." + n) + ("[" + d + "]")));
      (".delete" + "._on" + ".") + n + "[" + d + "]";
      { assert ".delete" + "._on" + "." == ".delete._on."; }
      ".delete._on." + n + "[" + d + "]";
    }
  }

  lemma {:induction false} RenderOnPath(refName: string, onIndex: nat)
    ensures Render(OnPath(refName, onIndex)) == OnSuffix(refName, onIndex)
  {
    var tail := [Prop(refName), Index(onIndex)];
    RenderOne(Index(onIndex));
    RenderCons(Prop(refName), [Index(onIndex)]);
    RenderCons(Prop("_on"), tail);
    RenderCons(Prop("delete"), [Prop("_on")] + tail);
    assert OnPath(refName, onIndex) == [Prop("delete")] + ([Prop("_on")] + tail);
    assert tail == [Prop(refName)] + [Index(onIndex)];
    OnSuffixShape(refName, NatToString(onIndex));
  }

  /** The prefix of an `_on` override is the element's path followed by `delete._on.<Type>[i]`. */
  lemma {:induction false} OnPrefixPath(parameterPrefix: string, recursing: bool, key: string, rel: RelationField,
                     refName: string, index: nat, onIndex: nat)
    ensures OnPrefix(parameterPrefix, recursing, key, rel, refName, index, onIndex)
            == parameterPrefix + Render(ElementPath(recursing, key, rel, refName, index) + OnPath(refName, onIndex))
  {
    ElementPrefixPath(parameterPrefix, recursing, key, rel, refName, index);
    RenderOnPath(refName, onIndex);
    RenderSuffix(parameterPrefix, ElementPath(recursing, key, rel, refName, index),
                 ElementPrefix(parameterPrefix, recursing, key, rel, refName, index), OnPath(refName, onIndex),
                 OnSuffix(refName, onIndex));
  }

  predicate PlainElement(key: string, refName: string)
  {
    PlainName(key) && PlainName(refName)
  }

  lemma {:induction false} ElementPathPlain(recursing: bool, key: string, rel: RelationField, refName: string, index: nat,
                         tail: seq<Segment>)
    requires PlainElement(key, refName) && PlainPath(tail)
    ensures PlainPath(ElementPath(recursing, key, rel, refName, index) + tail)
  {
  }

  /** Two elements of one call at different input positions get different filter prefixes. */
  lemma {:induction false} WherePrefixesDistinct(parameterPrefix: string, recursing: bool,
                                key1: string, rel1: RelationField, refName1: string, index1: nat,
                                key2: string, rel2: RelationField, refName2: string, index2: nat)
    requires PlainElement(key1, refName1) && PlainElement(key2, refName2)
    requires ElementPath(recursing, key1, rel1, refName1, index1)
             != ElementPath(recursing, key2, rel2, refName2, index2)
    ensures WherePrefix(parameterPrefix, recursing, key1, rel1, refName1, index1)
            != WherePrefix(parameterPrefix, recursing, key2, rel2, refName2, index2)
  {
    var p1 := ElementPath(recursing, key1, rel1, refName1, index1);
    var p2 := ElementPath(recursing, key2, rel2, refName2, index2);
    assert WherePrefix(parameterPrefix, recursing, key1, rel1, refName1, index1)
           == parameterPrefix + Render(p1 + [Prop("where")]) by {
      WherePrefixPath(parameterPrefix, recursing, key1, rel1, refName1, index1);
    }
    assert WherePrefix(parameterPrefix, recursing, key2, rel2, refName2, index2)
           == parameterPrefix + Render(p2 + [Prop("where")]) by {
      WherePrefixPath(parameterPrefix, recursing, key2, rel2, refName2, index2);
    }
    assert PlainPath(p1 + [Prop("where")]) by {
      LiteralsPlain();
      ElementPathPlain(recursing, key1, rel1, refName1, index1, [Prop("where")]);
    }
    assert PlainPath(p2 + [Prop("where")]) by {
      LiteralsPlain();
      ElementPathPlain(recursing, key2, rel2, refName2, index2, [Prop("where")]);
    }
    SnocInjective(p1, p2, Prop("where"), Prop("where"));
    SegmentsDiffer(parameterPrefix, p1 + [Prop("where")], p2 + [Prop("where")]);
  }

  /** Only a union's type name enters a prefix: elements of two implementations of an
      interface at the same index share their filter and nested-delete prefixes, and under
      `recursing` so do elements of two fields. */
  lemma PrefixSharing(parameterPrefix: string, recursing: bool, key1: string, key2: string, rel: RelationField,
                      refName1: string, refName2: string, index: nat)
    requires !rel.kind.Union?
    requires recursing || key1 == key2
    ensures WherePrefix(parameterPrefix, recursing, key1, rel, refName1, index)
            == WherePrefix(parameterPrefix, recursing, key2, rel, refName2, index)
    ensures NestedPrefix(parameterPrefix, recursing, key1, rel, refName1, index)
            == NestedPrefix(parameterPrefix, recursing, key2, rel, refName2, index)
  {
  }

  /** No element's filter prefix is any element's nested-delete prefix. */
  lemma {:induction false} WhereNotNestedPrefix(parameterPrefix: string, recursing: bool,
                                key1: string, rel1: RelationField, refName1: string, index1: nat,
                                key2: string, rel2: RelationField, refName2: string, index2: nat)
    requires PlainElement(key1, refName1) && PlainElement(key2, refName2)
    ensures WherePrefix(parameterPrefix, recursing, key1, rel1, refName1, index1)
            != NestedPrefix(parameterPrefix, recursing, key2, rel2, refName2, index2)
  {
    var p1 := ElementPath(recursing, key1, rel1, refName1, index1);
    var p2 := ElementPath(recursing, key2, rel2, refName2, index2);
    WhereNestedPaths(parameterPrefix, recursing, key1, rel1, refName1, index1, key2, rel2, refName2, index2);
    DifferentLast(parameterPrefix, p1, p2, "where", "delete");
  }

  /** The filter prefix of one element and the nested-delete prefix of another, as rendered
      paths of plain segments. */
  lemma WhereNestedPaths(parameterPrefix: string, recursing: bool,
                         key1: string, rel1: RelationField, refName1: string, index1: nat,
                         key2: string, rel2: RelationField, refName2: string, index2: nat)
    requires PlainElement(key1, refName1) && PlainElement(key2, refName2)
    ensures var p1 := ElementPath(recursing, key1, rel1, refName1, index1);
            var p2 := ElementPath(recursing, key2, rel2, refName2, index2);
            && WherePrefix(parameterPrefix, recursing, key1, rel1, refName1, index1)
               == parameterPrefix + Render(p1 + [Prop("where")])
            && NestedPrefix(parameterPrefix, recursing, key2, rel2, refName2, index2)
               == parameterPrefix + Render(p2 + [Prop("delete")])
            && PlainPath(p1 + [Prop("where")]) && PlainPath(p2 + [Prop("delete")])
  {
    WherePrefixPath(parameterPrefix, recursing, key1, rel1, refName1, index1);
    NestedPrefixPath(parameterPrefix, recursing, key2, rel2, refName2, index2);
    LiteralsPlain();
    ElementPathPlain(recursing, key1, rel1, refName1, index1, [Prop("where")]);
    ElementPathPlain(recursing, key2, rel2, refName2, index2, [Prop("delete")]);
  }

  /** The fixed segments `where` and `delete` are plain names. */
  lemma LiteralsPlain()
    ensures PlainPath([Prop("where")]) && PlainPath([Prop("delete")])
  {
    assert PlainName("where");
    assert PlainName("delete");
  }

  lemma DifferentLast(parameterPrefix: string, p: seq<Segment>, q: seq<Segment>, u: string, v: string)
    requires PlainPath(p + [Prop(u)]) && PlainPath(q + [Prop(v)]) && u != v
    ensures parameterPrefix + Render(p + [Prop(u)]) != parameterPrefix + Render(q + [Prop(v)])
  {
    SnocInjective(p, q, Prop(u), Prop(v));
    SegmentsDiffer(parameterPrefix, p + [Prop(u)], q + [Prop(v)]);
  }

  lemma SnocInjective(p: seq<Segment>, q: seq<Segment>, a: Segment, b: Segment)
    ensures p + [a] == q + [b] ==> p == q && a == b
  {
    if p + [a] == q + [b] {
      assert p == (p + [a])[..|p|];
      assert q == (q + [b])[..|q|];
      assert a == (p + [a])[|p|];
    }
  }

  /** Under one prefix, different plain paths give different strings. */
  lemma {:induction false} SegmentsDiffer(parameterPrefix: string, p: seq<Segment>, q: seq<Segment>)
    requires PlainPath(p) && PlainPath(q)
    ensures p != q ==> parameterPrefix + Render(p) != parameterPrefix + Render(q)
  {
    var s, t := parameterPrefix + Render(p), parameterPrefix + Render(q);
    if s == t {
      assert s[|parameterPrefix|..] == Render(p);
      assert t[|parameterPrefix|..] == Render(q);
      RenderInjective(p, q);
    }
  }
}
