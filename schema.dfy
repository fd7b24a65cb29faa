/** The parts of the schema model the generator reads: node types, their
    relationship fields and the lookups by name done with `Array.prototype.find`. */
module Schema {
  import opened Wrappers

  /** Where a relationship field points: one declared type, a union of types
      (members chosen by the input's keys), or an interface with its implementations. */
  datatype RelationKind = Plain | Union | Interface(implementations: seq<string>)

  datatype RelationField = RelationField(
    fieldName: string,
    relType: string,      // the edge label, `relationField.type`
    direction: string,    // "IN", "OUT" or anything else
    typeName: string,     // `relationField.typeMeta.name`
    isArray: bool,        // `relationField.typeMeta.array`
    kind: RelationKind)

  datatype Node = Node(name: string, relationFields: seq<RelationField>)

  /** No node before position `i` has the name: `find` stops at the first match. */
  predicate NoNodeNamedBefore(nodes: seq<Node>, name: string, i: int)
    requires i <= |nodes|
  {
    forall j :: 0 <= j < i ==> nodes[j].name != name
  }

  predicate NoFieldNamedBefore(fields: seq<RelationField>, key: string, i: int)
    requires i <= |fields|
  {
    forall j :: 0 <= j < i ==> fields[j].fieldName != key
  }

  /** `nodes.find((x) => x.name === name)` */
  function FindNode(nodes: seq<Node>, name: string): (r: Option<Node>)
    ensures r.Some? ==> r.value in nodes && r.value.name == name
    ensures r.None? <==> forall n :: n in nodes ==> n.name != name
    ensures r.Some? ==> exists i :: 0 <= i < |nodes| && nodes[i] == r.value && NoNodeNamedBefore(nodes, name, i)
  {
    if nodes == [] then None
    else if nodes[0].name == name then Some(nodes[0])
    else FindNode(nodes[1..], name)
  }

  /** `node.relationFields.find((x) => key === x.fieldName)` */
  function FindRelation(fields: seq<RelationField>, key: string): (r: Option<RelationField>)
    ensures r.Some? ==> r.value in fields && r.value.fieldName == key
    ensures r.None? <==> forall f :: f in fields ==> f.fieldName != key
    ensures r.Some? ==> exists i :: 0 <= i < |fields| && fields[i] == r.value && NoFieldNamedBefore(fields, key, i)
  {
    if fields == [] then None
    else if fields[0].fieldName == key then Some(fields[0])
    else FindRelation(fields[1..], key)
  }

  predicate IsRelation(node: Node, key: string)
  {
    FindRelation(node.relationFields, key).Some?
  }
}
