/** The code the generator calls but that is not part of this model: the
    connection-filter compiler, the authorization compiler, the case-where
    rewrite, the subscription event builders, label rendering, the read-side
    where/projection compilers, the nested create compiler and `pluralize`.
    Each is a parameter, so every property proved holds whatever they return,
    except the scope-balance lemmas, which assume the filter subquery and the
    case-where rewrite are scope-neutral (`DeleteProperties.ScopeNeutral`). */
module Foreign {
  import opened Wrappers
  import opened Js
  import opened Schema

  /** Arguments of `createConnectionWhereAndParams`; the relationship descriptor it
      receives is found from the relation field, so the field stands for it. */
  datatype WhereRequest = WhereRequest(
    nodeVariable: string,
    whereInput: Value,
    node: Node,
    relationshipVariable: string,
    relationField: RelationField,
    parameterPrefix: string)

  /** What `createConnectionWhereAndParams` returns: a predicate, an optional
      precomputed subquery (empty when absent) and the parameters. */
  datatype WhereResult = WhereResult(cypher: string, subquery: string, params: Params)

  /** Arguments of `createConnectionEventMetaObject`. */
  datatype RelationshipEvent = RelationshipEvent(
    event: string,
    relVariable: string,
    fromVariable: string,
    toVariable: string,
    typename: string,
    fromTypename: string,
    toTypename: string)

  datatype Collaborators = Collaborators(
    /** `refNode.getLabelString(context)` */
    labelString: Node -> string,
    /** `filterMetaVariable(withVars)` */
    filterMetaVariable: seq<string> -> seq<string>,
    /** `createConnectionWhereAndParams`; `None` when it throws */
    connectionWhere: WhereRequest -> Option<WhereResult>,
    /** `createAuthAndParams` for DELETE with `where: { varName, node }` */
    authWhere: (Node, string) -> (string, Params),
    /** `createAuthAndParams` for DELETE with `allow: { parentNode, varName }` and `escapeQuotes` */
    authAllow: (Node, string, bool) -> (string, Params),
    /** `caseWhere(predicate, [relationshipVariable, variableName]).build(...).cypher` */
    caseWhere: (string, string, string) -> string,
    /** `createEventMetaObject({ event, nodeVariable, typename })` */
    eventMeta: (string, string, string) -> string,
    /** `createConnectionEventMetaObject(...)` */
    relationshipEventMeta: RelationshipEvent -> string,
    /** the constant `AUTH_FORBIDDEN_ERROR` */
    authForbiddenError: string,
    /** `pluralize.singular` */
    singular: string -> string,
    /** `createWhereAndParams({ whereInput, varName })` */
    whereAndParams: (Value, string) -> (string, Params),
    /** `createProjectionAndParams({ node, neoSchema, fieldsByTypeName, varName })` */
    projectionAndParams: (Node, Value, string) -> (string, Params),
    /** `createCreateAndParams({ input, node, neoSchema, varName, withVars })` */
    createAndParams: (Value, Node, string, seq<string>) -> (string, Params))
}
