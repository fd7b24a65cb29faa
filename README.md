# Delete and top-level translation of the Neo4j GraphQL Cypher generator

This project models, in Dafny, two parts of the Neo4j GraphQL library's Cypher generator.

- `createDeleteAndParams` turns a nested delete input into Cypher lines and a parameter
  object. It walks the input's keys that name relationship fields. For each target type of a
  field (one declared type, the members of a union chosen by the input, or the
  implementations of an interface) and for each element of the field's list, it emits one
  block. The block imports the visible variables, matches the related node and filters it
  (connection filter, authorization filter, optionally through a `CASE` rewrite). It then
  checks authorization, recurses for nested deletes and `_on` overrides, and finally
  detaches and deletes the collected nodes inside `CALL { … }` subqueries. With
  subscriptions enabled it also gathers event metadata.
- `translate` routes a GraphQL request. A missing schema is an error. A mutation whose field
  contains `create` goes to `translateCreate`: one create per input, each carrying the
  earlier variables with `WITH`, and then a single projection substituted for every created
  variable. Everything else goes to `translateRead`: `MATCH`, filter, `RETURN` with the
  projection, `ORDER BY`, `SKIP` and `LIMIT`.

Layout:

- `Js` holds JavaScript values and parameter objects. Objects keep their keys in insertion
  order, as JavaScript does for keys that do not look like integers (GraphQL names never do), and `{...a, ...b}` is `Js.Spread`.
- `Schema` holds nodes and relationship fields.
- `Foreign` holds the code the generator calls but that is not modelled. Each such routine
  is a parameter, so every theorem holds whatever it returns. The exception is the
  scope-balance lemmas of `DeleteProperties`, which assume `ScopeNeutral`: the connection
  filter's subquery and the `caseWhere` rewrite neither open nor close a `CALL {` scope.
- `DeleteSpec` and `TranslateSpec` define what the generator computes.
- `CreateDelete` and `Translator` are the imperative code, with its loops, local lists
  and early returns. Each method is proved to compute exactly what the specification
  functions define.
- `DeleteProperties` and `TranslateProperties` prove what the output guarantees.
- `Naming`, `Scopes` and `Text` provide variable and parameter-path naming, bracket
  balance of `CALL {` … `}` lines, and string operations (`split`, `replace`,
  `includes`).

When the connection-filter compiler fails, the code pushes a closing fragment onto the element's local list and then returns from the callback before that list is appended to the result. The element therefore contributes no lines and no parameters (packages/graphql/src/translate/create-delete-and-params.ts:156-160).

The parameter prefixes name a target type only for a union field. Elements of two implementations of an interface at the same index therefore share their filter and nested-delete prefixes (packages/graphql/src/translate/create-delete-and-params.ts:142-144, 258-260). The model keeps this, and `Naming.PrefixSharing` states it.

## Model

| member | source | states |
|---|---|---|
| `Schema.FindNode` | packages/graphql/src/translate/create-delete-and-params.ts:72-79 | returns the first node with the requested name, as `find` does, and none exactly when no node has that name |
| `Schema.FindRelation` | packages/graphql/src/translate/create-delete-and-params.ts:61-63 | returns the first relationship field with the key as its name, as `find` does, and none exactly when no field has that name |
| `CreateDelete.CreateDeleteAndParams` | packages/graphql/src/translate/create-delete-and-params.ts:435-437 | the reduce over the input's entries returns the lines joined with newlines and the parameters `DeleteSpec.DeleteAndParams` defines |
| `CreateDelete.Reduce` | packages/graphql/src/translate/create-delete-and-params.ts:60-89 | the reducer leaves the accumulator unchanged for a key that is not a relationship field; otherwise it processes every resolved target and every element in order, as `DeleteSpec.Reducer` defines |
| `CreateDelete.CollectRefNodes` | packages/graphql/src/translate/create-delete-and-params.ts:64-80 | the targets are the union's keys, the interface's implementations or the declared type, each resolved by name in order (`DeleteSpec.RefNodes`) |
| `CreateDelete.DeleteElement` | packages/graphql/src/translate/create-delete-and-params.ts:89-425 | one element's block: head, filter, WHERE, authorization, nested deletes and tail are appended to the accumulator, or nothing when the filter compiler fails (`DeleteSpec.ElementStep`) |
| `CreateDelete.ResolveNames` | packages/graphql/src/translate/create-delete-and-params.ts:70-79 | looks each target name up in the schema's nodes, keeping the nodes found in the order of the names (`DeleteSpec.Resolve`) |
| `CreateDelete.DeleteElements` | packages/graphql/src/translate/create-delete-and-params.ts:85-89 | for one target, every element of the list (or the single value) is processed in order, as `DeleteSpec.Elements` defines |
| `CreateDelete.ConnectionFilter` | packages/graphql/src/translate/create-delete-and-params.ts:129-161 | a truthy `where` is compiled: a failed compile ends the element; a non-empty predicate is kept with its parameters, and a precomputed subquery switches to the aggregate form; anything else leaves the filter empty (`DeleteSpec.FilterOf`) |
| `CreateDelete.AuthGuards` | packages/graphql/src/translate/create-delete-and-params.ts:163-213 | the authorization filter joins the filter predicates, the WHERE line takes the `CASE` form when the filter aggregates, and a non-empty allow rule adds the validation lines; the parameters are spread in that order |
| `CreateDelete.NestedDeletes` | packages/graphql/src/translate/create-delete-and-params.ts:228-290 | `if (d.delete)`: one recursive delete of the filtered nested input, then one per `_on` override, with their parameters spread in order |
| `CreateDelete.OverrideDeletes` | packages/graphql/src/translate/create-delete-and-params.ts:266-289 | one recursive delete per `_on.<Type>` entry, with the parameter prefix naming its index |
| `DeleteProperties.DeleteSound` | packages/graphql/src/translate/create-delete-and-params.ts:435-437 | when the external compilers emit bracket-neutral text, the generated lines never close more `CALL {` scopes than they open and close all of them; the joined text is neutral as a line of an enclosing delete |
| `DeleteProperties.FieldsSound` | packages/graphql/src/translate/create-delete-and-params.ts:425-432 | every reducer step keeps the accumulated lines balanced and keeps every parameter key already bound |
| `DeleteProperties.ElementSound` | packages/graphql/src/translate/create-delete-and-params.ts:109-425 | each element's block is balanced, and it only adds parameter keys |
| `DeleteProperties.FilterSound` | packages/graphql/src/translate/create-delete-and-params.ts:127-161 | the precomputed filter subquery is bracket-neutral, and the filter only adds parameter keys |
| `DeleteProperties.NestedStepSound` | packages/graphql/src/translate/create-delete-and-params.ts:228-290 | the nested delete lines are bracket-neutral, and they only add parameter keys |
| `DeleteProperties.OnDeletesSound` | packages/graphql/src/translate/create-delete-and-params.ts:271-288 | the `_on` override deletes are bracket-neutral, and they only add parameter keys |
| `DeleteProperties.HeadRest` | packages/graphql/src/translate/create-delete-and-params.ts:110-125 | the block opens with `WITH *` and `CALL {`, followed only by neutral import and match lines |
| `DeleteProperties.PlainTail` | packages/graphql/src/translate/create-delete-and-params.ts:411-423 | without subscriptions, the tail is 7 lines: collect, `CALL {`, three neutral lines, then two closing `}` lines |
| `DeleteProperties.SubscriptionTail` | packages/graphql/src/translate/create-delete-and-params.ts:392-409 | with subscriptions, the tail is 13 lines, with `CALL {` second and `}` in positions 8 and 11, and every other line neutral |
| `DeleteProperties.RelationEntries` | packages/graphql/src/translate/create-delete-and-params.ts:60-63 | keeps exactly the input entries whose key is a relationship field of the node |
| `DeleteProperties.NonRelationKeysIgnored` | packages/graphql/src/translate/create-delete-and-params.ts:60-63 | the result is the same as for the input restricted to relationship keys |
| `DeleteProperties.NoRelationNoDelete` | packages/graphql/src/translate/create-delete-and-params.ts:432-437 | an input naming no relationship field yields empty Cypher and no parameters |
| `DeleteProperties.FieldsAppend` | packages/graphql/src/translate/create-delete-and-params.ts:435 | the reduce over two runs of entries is the reduce over the second, starting from the result of the first |
| `DeleteProperties.ResolveSpec` | packages/graphql/src/translate/create-delete-and-params.ts:71-79 | resolved targets are schema nodes whose names were requested; when every name resolves, they come one per name, in order |
| `DeleteProperties.RefNodesSpec` | packages/graphql/src/translate/create-delete-and-params.ts:64-80 | a union's targets are named by the input's keys, an interface's targets are its implementations, and a plain field targets its declared type; when every name resolves, targets come one per name, in order |
| `DeleteProperties.ElementDroppedIff` | packages/graphql/src/translate/create-delete-and-params.ts:129-160 | an element contributes nothing exactly when it has a truthy `where` the compiler rejects; otherwise its lines are appended |
| `DeleteProperties.WhereRule` | packages/graphql/src/translate/create-delete-and-params.ts:163-186 | a WHERE is emitted exactly when the compiled filter or the authorization filter is non-empty. A subquery line exists exactly when the filter has one, and then the predicate goes through `caseWhere`; otherwise it is `WHERE` plus the predicate. The filter comes before the authorization filter, joined by `AND` |
| `DeleteProperties.AllowRule` | packages/graphql/src/translate/create-delete-and-params.ts:195-213 | the authorization check is emitted exactly when the allow predicate is non-empty. It is two lines: `WITH <vars>[, meta], <v>, <v>_relationship`, then `CALL apoc.util.validate(NOT (<allow>), <q><error><q>, [0])`, where the quote `<q>` is `\"` inside a `do when` and `"` otherwise |
| `DeleteProperties.NestedFieldsSpec` | packages/graphql/src/translate/create-delete-and-params.ts:229-246 | the nested input drops `_on` and every key that an `_on` override for the target sets, and keeps all other entries |
| `DeleteProperties.NestedCount` | packages/graphql/src/translate/create-delete-and-params.ts:228-290 | without a truthy `delete` there are no nested lines and the parameters are unchanged; otherwise there is one nested-delete line, plus, for an interface field whose `delete._on.<Type>` entry is truthy, one line per item of that entry (a single object counting as one) |
| `DeleteProperties.EventFollowsArrow` | packages/graphql/src/translate/create-delete-and-params.ts:312-324 | the relationship event runs from the target to the parent when the arrow points in, and from the parent to the target otherwise; it is named by the relationship variable and type |
| `Naming.VariableNameInjective` | packages/graphql/src/translate/create-delete-and-params.ts:91-95 | distinct element indices give distinct variable names |
| `Naming.MatchLineDirection` | packages/graphql/src/translate/create-delete-and-params.ts:123-125 | the match line has `<-[r:T]-` for IN, `-[r:T]->` for OUT and `-[r:T]-` otherwise |
| `Naming.WherePrefixPath` | packages/graphql/src/translate/create-delete-and-params.ts:142-144 | the filter's parameter prefix is the caller's prefix followed by the element's path and `.where` |
| `Naming.NestedPrefixPath` | packages/graphql/src/translate/create-delete-and-params.ts:258-260 | the nested delete's prefix is the element's path followed by `.delete` |
| `Naming.OnPrefixPath` | packages/graphql/src/translate/create-delete-and-params.ts:279-283 | an override's prefix is the element's path followed by `.delete._on.<Type>[i]` |
| `Naming.ParseRender` | packages/graphql/src/translate/create-delete-and-params.ts:142-144 | parameter paths of plain names and indices read back to the path they were written from |
| `Naming.WherePrefixesDistinct` | packages/graphql/src/translate/create-delete-and-params.ts:142-144 | elements at different input paths (key, union member, index) get different filter parameter prefixes |
| `Naming.PrefixSharing` | packages/graphql/src/translate/create-delete-and-params.ts:142-144 | the prefixes name a target type only for a union: elements of two implementations of an interface at one index share their filter and nested-delete prefixes, and so do elements of two fields when `recursing` is set |
| `Naming.WhereNotNestedPrefix` | packages/graphql/src/translate/create-delete-and-params.ts:258-260 | a filter prefix never equals a nested-delete prefix |
| `Scopes.JoinNeutral` | packages/graphql/src/translate/create-delete-and-params.ts:437 | the joined text of a balanced list of lines is never a bare `CALL {` or `}`, so a nested delete's output counts as one neutral line in its parent. The balance of the nested lines themselves is `DeleteSound` on the nested call, which `NestedStepSound` combines with this |
| `Translator.TranslateRead` | packages/graphql/src/translate/translate.ts:10-84 | computes exactly `TranslateSpec.Read`: an unknown root type is an error; otherwise the non-empty clauses are joined with newlines, and the parameters are those of the projection, then the filter, then paging |
| `Translator.SortTermsOf` | packages/graphql/src/translate/translate.ts:55-68 | each sort option becomes `this.<field> <direction>`, in order (`TranslateSpec.SortTerms`) |
| `Translator.TranslateCreate` | packages/graphql/src/translate/translate.ts:86-143 | computes exactly `TranslateSpec.Create`: the reduce over the inputs, the renamed projection parameters and one substituted projection per created variable |
| `Translator.Translate` | packages/graphql/src/translate/translate.ts:145-162 | computes exactly `TranslateSpec.Dispatch` |
| `TranslateProperties.SortTermDescending` | packages/graphql/src/translate/translate.ts:59-61 | `<field>_DESC` becomes `this.<field> DESC` |
| `TranslateProperties.SortTermAscending` | packages/graphql/src/translate/translate.ts:62-65 | `<field>_ASC` becomes `this.<field> ASC` |
| `TranslateProperties.SortTermDefault` | packages/graphql/src/translate/translate.ts:62-67 | a token with neither suffix sorts the whole token ascending |
| `TranslateProperties.NonEmptySpec` | packages/graphql/src/translate/translate.ts:83 | `filter(Boolean)` keeps exactly the non-empty clauses, never adds any, and keeps a non-empty first clause first |
| `TranslateProperties.NonEmptyAppend` | packages/graphql/src/translate/translate.ts:83 | `filter(Boolean)` of two concatenated lists is the concatenation of the two filtered lists, so the kept clauses keep their order |
| `TranslateProperties.NonEmptyPosition` | packages/graphql/src/translate/translate.ts:83 | a non-empty clause lands at the index counted by the non-empty clauses before it, so of two non-empty clauses the earlier one comes first |
| `TranslateProperties.ReadClauseOrder` | packages/graphql/src/translate/translate.ts:74-83 | the read query is, joined with newlines and in this order: `MATCH`, the filter if non-empty, `RETURN`, then `ORDER BY`, `SKIP` and `LIMIT` where non-empty |
| `TranslateProperties.ReadShape` | packages/graphql/src/translate/translate.ts:14-77 | a read fails exactly when the singular of the field name is no node; otherwise the query starts by matching that node and contains the `RETURN` clause with the projection |
| `TranslateProperties.ReadPaging` | packages/graphql/src/translate/translate.ts:43-52 | a `SKIP` or `LIMIT` clause is emitted exactly when the option is present and non-zero, and then its parameter holds the option's value, overriding any projection or filter parameter of that name |
| `TranslateProperties.ReadParamSources` | packages/graphql/src/translate/translate.ts:23-41 | any other parameter comes from the filter when the filter binds it, and from the projection otherwise |
| `TranslateProperties.CreateFoldClosed` | packages/graphql/src/translate/translate.ts:98-119 | the reduce yields one line per input. Line `i` carries `WITH this0, …, this<i-1>` when `i > 0`, and the create of input `i` sees variables `this0 … this<i>`. There is one variable per input, and the creates' parameters are merged in order |
| `TranslateProperties.CreateVarInjective` | packages/graphql/src/translate/translate.ts:100 | different inputs get different variables |
| `TranslateProperties.CreateShape` | packages/graphql/src/translate/translate.ts:131-142 | a successful create returns every created variable through the substituted projection, with the creates' parameters followed by the renamed projection parameters |
| `TranslateProperties.NoPlaceholderLeft` | packages/graphql/src/translate/translate.ts:134-136 | the projection given to each created variable no longer contains `REPLACE_ME` |
| `TranslateProperties.ProjectionSubstituted` | packages/graphql/src/translate/translate.ts:135-136 | for any projection: cut it at its `$REPLACE_ME` references (the pieces hold no reference and join back to the projection), replace every remaining placeholder in each piece by the created variable, and join the pieces with `$projection`. That is the substituted projection |
| `TranslateProperties.ParamReferenceRenamed` | packages/graphql/src/translate/translate.ts:128-136 | a reference `$REPLACE_ME<t>` anywhere between placeholder-free text `a` and `t` becomes `a$projection<t>`, and the key `REPLACE_ME<t>` becomes `projection<t>`, so that reference and its renamed parameter match |
| `TranslateProperties.RenameParamsLast` | packages/graphql/src/translate/translate.ts:128-130 | every projection parameter survives under its renamed key, bound to the value of the last entry renamed to that key |
| `TranslateProperties.RenameParamsOther` | packages/graphql/src/translate/translate.ts:128-130 | keys that no entry is renamed to keep their binding |
| `TranslateProperties.DispatchRule` | packages/graphql/src/translate/translate.ts:145-162 | `invalid schema` is reported exactly when there is no schema. With a schema, a mutation whose field name contains `create` is translated as a create and every other request as a read. A create mutation whose tree is named after its field always finds a type name |

## Left out

- Logging: the `console.log` and `console.error` calls in the delete generator are not modelled.
- External routines are parameters, and their code is not part of this model. These are `createConnectionWhereAndParams`, `createAuthAndParams`, `caseWhere`, `createEventMetaObject`, `createConnectionEventMetaObject`, `filterMetaVariable`, `getLabelString`, `createWhereAndParams`, `createProjectionAndParams`, `createCreateAndParams`, `pluralize.singular` and `parseResolveInfo`.
- The connection-filter compiler failing by throwing is modelled as that parameter returning no result.
- The relationship descriptor looked up in `context.relationships` is only passed on to the connection-filter compiler. The model passes the relationship field it is found from.
- Commented-out code and the Cypher builder values `whereStatements` and `authStatements` are not modelled. They never reach the output.
- Type errors on ill-shaped input are not modelled: a missing element, a non-object where an object is read, or a non-array in an array field. The model reads such values totally: a key of a non-object is absent, a non-array value of an array field yields no elements (the source throws at `deletes.forEach`), and a non-array `_on.<Type>` entry is a one-element list, as the source makes it.
- A target type name that names no node is skipped by the delete model. For a union field the source throws at once, reading `value[refNode.name]` (create-delete-and-params.ts:86). For an interface or plain field it throws only when the field holds at least one element, when that element reads the missing node's name and labels (lines 91-104). With no elements it emits nothing for that node, as the model does.
- An unknown root type in a read or create is the error `UnknownNode`. For a read the source fails with a type error, reading the name of the missing node (translate.ts:14-17). For a create the source does not fail itself. It hands the undefined node to the external create compiler for each input (line 103) and to the projection compiler (line 122), whose code is not part of this model. The model stops with `UnknownNode` instead.
- A create field name without `create` is the error `MissingTypeName`. The source hands `undefined` to `pluralize` there.
- The create's `withVars` array is pushed to after it has been handed to `createCreateAndParams`. The model hands over the list as it is at the call, assuming the callee does not keep it.
- The schema object's class test (`instanceof NeoSchema`) is modelled as the schema being present or absent.
- Numbers are mathematical integers. Fractional `skip` and `limit` values are not modelled.
- Regular-expression replacement is modelled only for the two literal patterns the code uses (`$REPLACE_ME` and `REPLACE_ME`), as split-and-join.
- DeleteProperties.DeleteSound: bracket balance is proved on the assumption that the external filter compiler and `caseWhere` emit text that neither opens nor closes a `CALL {` scope. Their code is not part of this model.
- Scopes.JoinNeutral: a multi-line string is counted as one line. The balance of a nested delete is proved at its own level, by `DeleteProperties.DeleteSound` applied to the nested call.
