# LDAP relation reader and resolver

A Dafny model of the relation reading and resolution of the Backstage LDAP
catalog module (`read.ts`). The readers turn directory records into User and
Group entities. Each accepted record's reference attributes (`memberOf`,
`member`) are collected as raw edges keyed by the record's own DN. The
resolver then indexes every entity under its entity reference, DN, lower-cased
DN, RDN and UUID. It re-keys the edges from the three raw maps by entity
reference, dropping every edge whose source or target does not resolve. Last,
it writes memberships, parents and children back into the entity objects,
sorted, with a parent only where there is exactly one candidate.

Modules, in dependency order:

- `Wrappers`: `Option` and `Result`.
- `Text`: the ASCII part of `toLocaleLowerCase('en-US')` and the default
  string order of `Array.prototype.sort`, with the sorted list of a set.
- `Entities`: the `User` and `Group` classes, with immutable identity and
  mutable relation fields. Also directory records, configuration, and the
  default transformers.
- `Edges`: `ensureItems` on a `map<string, set<string>>` and
  `mapReferencesAttr`.
- `Read`: `readLdapUsers` and `readLdapGroups`. Each is a method over the
  records of each configured search, proved against a functional scan of
  the same records.
- `Identity`: `getValueFromMapWithInsensitiveKey` and the two identity
  tables.
- `Resolve`: the three collection loops, the three write-back loops and
  `resolveRelations`.
- `Org`: `readLdapOrg`, and two small organisations worked through end to
  end.

The directory search is a parameter, a function from base DN and search
options to the records it returns. A record is a map from attribute name to
its already decoded values. A custom transformer is a function value.

The resolver's guarantees are stated per entity, as predicates on the tables
built from the read entities:

- `MembershipsResolved`: a user's `memberOf` is the sorted list of exactly the
  groups it is related to, or the list it had if there are none.
- `ParentResolved`: a group's `parent` is its one parent candidate. A group
  with no candidate, or with several, keeps the parent it had.
- `ChildrenResolved`: a group's `children` is the sorted list of exactly the
  groups whose parent it is, or the list it had if there are none.

These hold whenever every entity's own reference finds that entity in its
table (`Resolve.OwnRefs`). The source comment at `read.ts:420-424` states
this as an expectation rather than checking it.

## Model

| member | source | states |
|---|---|---|
| Text.Lower | plugins/catalog-backend-module-ldap/src/ldap/read.ts:397 | lower-casing keeps the length and maps every character through the ASCII letter mapping |
| Text.LowerIdempotent | plugins/catalog-backend-module-ldap/src/ldap/read.ts:397 | lower-casing an already lower-cased identifier changes nothing |
| Text.LowerNoCapitals | plugins/catalog-backend-module-ldap/src/ldap/read.ts:431-433 | a DN without capital letters is its own lower-cased form |
| Text.BelowIrreflexive | plugins/catalog-backend-module-ldap/src/ldap/read.ts:536 | no string sorts before itself |
| Text.BelowTransitive | plugins/catalog-backend-module-ldap/src/ldap/read.ts:536 | the sort order is transitive |
| Text.BelowTotal | plugins/catalog-backend-module-ldap/src/ldap/read.ts:536 | any two different strings are ordered one way or the other |
| Text.ConsSorted | plugins/catalog-backend-module-ldap/src/ldap/read.ts:536 | a string below the head of a strictly sorted list extends it sorted |
| Text.Insert | plugins/catalog-backend-module-ldap/src/ldap/read.ts:536 | inserting into a strictly sorted list keeps it strictly sorted, and its elements become the old ones plus the new one |
| Text.SortSet | plugins/catalog-backend-module-ldap/src/ldap/read.ts:536 | `Array.from(set).sort()` holds each element of the set exactly once, strictly increasing |
| Text.SortedHeadLeast | plugins/catalog-backend-module-ldap/src/ldap/read.ts:536 | the head of a sorted list is below every other element |
| Text.SortedListEmpty | plugins/catalog-backend-module-ldap/src/ldap/read.ts:536 | the sorted list of a set is empty exactly when the set is |
| Text.SortedTail | plugins/catalog-backend-module-ldap/src/ldap/read.ts:536 | dropping the head of a sorted list gives the sorted list of the rest of the set |
| Text.SortedListUnique | plugins/catalog-backend-module-ldap/src/ldap/read.ts:533-552 | a set has one sorted list, so the written relation lists do not depend on the order in which the sets were filled |
| Text.SortedListSingleton | plugins/catalog-backend-module-ldap/src/ldap/read.ts:533-552 | the sorted list of a one-element set is that element alone |
| Entities.Ref | plugins/catalog-backend-module-ldap/src/ldap/read.ts:428 | an entity reference is longer than the name and ends with the lower-cased name |
| Entities.RefInjective | plugins/catalog-backend-module-ldap/src/ldap/read.ts:428 | two entities of one kind share a reference exactly when their names agree up to letter case |
| Entities.EffectiveVendor | plugins/catalog-backend-module-ldap/src/ldap/read.ts:128-134 | each configured DN or UUID attribute name replaces the vendor default; an unset one keeps the default |
| Entities.StringAttr | plugins/catalog-backend-module-ldap/src/ldap/read.ts:71-73 | a configured attribute gives a value exactly when it decodes to one value, and then gives that value |
| Entities.DefaultUserTransformer | plugins/catalog-backend-module-ldap/src/ldap/read.ts:45-104 | throws `InputError` exactly when the name attribute gives no non-empty name; otherwise a user with that name, the DN, RDN and UUID annotations, and no memberships; never skips |
| Entities.DefaultGroupTransformer | plugins/catalog-backend-module-ldap/src/ldap/read.ts:163-225 | throws `InputError` exactly when the name attribute gives no non-empty name; otherwise a group with that name, its annotations, type `unknown` when none is mapped, no parent and no children; never skips |
| Edges.EnsureItems | plugins/catalog-backend-module-ldap/src/ldap/read.ts:367-384 | an empty key leaves the map unchanged; otherwise the key is present and its set grows by exactly the non-empty values; every other key keeps its set; the edges are the old ones plus key to each non-empty value |
| Edges.References | plugins/catalog-backend-module-ldap/src/ldap/read.ts:351-364 | a record yields its edges exactly when the attribute is configured, its values decode (an empty list included) and its DN decodes to exactly one value; the key is that DN |
| Read.RecordedEdges | plugins/catalog-backend-module-ldap/src/ldap/read.ts:146-148 | recording a record's reference attribute adds exactly the edges it contributes, and its DN as a key |
| Read.UserEntriesKeepFailure | plugins/catalog-backend-module-ldap/src/ldap/read.ts:139-151 | once the user read has failed, later records change nothing |
| Read.UserEntriesFailPrefix | plugins/catalog-backend-module-ldap/src/ldap/read.ts:139-151 | a record that throws ends its search with that error |
| Read.UserConfigsFailPrefix | plugins/catalog-backend-module-ldap/src/ldap/read.ts:137-152 | a record that throws ends the whole user read with that error |
| Read.UserEntriesEdges | plugins/catalog-backend-module-ldap/src/ldap/read.ts:139-151 | one search adds exactly the edges and keys of the records the transformer accepted |
| Read.UserReadEdges | plugins/catalog-backend-module-ldap/src/ldap/read.ts:137-152 | the user reader's edges are exactly those of accepted records across all searches, so a skipped record contributes none; the keys likewise |
| Read.ReadUserEntries | plugins/catalog-backend-module-ldap/src/ldap/read.ts:139-151 | one search's callback: fails exactly as the functional scan does, with its error; otherwise appends one fresh user object per accepted record, in order, and its edges |
| Read.ReadLdapUsers | plugins/catalog-backend-module-ldap/src/ldap/read.ts:113-155 | no configuration gives no users and no edges, with no search; otherwise the result is the functional scan of every search, with each user a fresh object |
| Read.GroupEntriesKeepFailure | plugins/catalog-backend-module-ldap/src/ldap/read.ts:267-287 | once the group read has failed, later records change nothing |
| Read.GroupEntriesFailPrefix | plugins/catalog-backend-module-ldap/src/ldap/read.ts:267-287 | a record that throws ends its search with that error |
| Read.GroupConfigsFailPrefix | plugins/catalog-backend-module-ldap/src/ldap/read.ts:264-288 | a record that throws ends the whole group read with that error |
| Read.GroupEntriesEdges | plugins/catalog-backend-module-ldap/src/ldap/read.ts:267-287 | one search adds, to each of the two edge maps, exactly the edges and keys of accepted records |
| Read.GroupReadEdges | plugins/catalog-backend-module-ldap/src/ldap/read.ts:264-288 | the `memberOf` and `member` edges of the group reader are exactly those of accepted records across all searches; the keys likewise |
| Read.ReadGroupEntries | plugins/catalog-backend-module-ldap/src/ldap/read.ts:267-287 | one search's callback: fails exactly as the functional scan does, with its error; otherwise appends one fresh group object per accepted record, in order, and both kinds of edge |
| Read.ReadLdapGroups | plugins/catalog-backend-module-ldap/src/ldap/read.ts:234-295 | no configuration gives no groups and empty edge maps, with no search; otherwise the result is the functional scan of every search, with each group a fresh object |
| Identity.Lookup | plugins/catalog-backend-module-ldap/src/ldap/read.ts:392-398 | the entry under the identifier as given wins; only when that key is absent is the entry under the lower-cased identifier returned; nothing is found exactly when neither is a key |
| Identity.PutAll | plugins/catalog-backend-module-ldap/src/ldap/read.ts:428-437 | storing an entity under a list of keys adds each present key with that entity and leaves every other key as it was |
| Identity.IndexedKeys | plugins/catalog-backend-module-ldap/src/ldap/read.ts:427-450 | a key of the table is an alias of some entity, and it holds an entity it is an alias of |
| Identity.IndexedLatest | plugins/catalog-backend-module-ldap/src/ldap/read.ts:427-450 | an entity is stored under each alias that no later entity also has: the later insertion wins |
| Identity.IdentityMapFinds | plugins/catalog-backend-module-ldap/src/ldap/read.ts:425-456 | once built, the table finds each entity under each of its non-empty aliases that no later entity has, and `""` is not a key |
| Identity.IdentityMapKeys | plugins/catalog-backend-module-ldap/src/ldap/read.ts:425-456 | the keys are exactly the non-empty aliases of the entities |
| Identity.IdentityMapValues | plugins/catalog-backend-module-ldap/src/ldap/read.ts:425-456 | the table holds only entities it was built from |
| Identity.LookupFindsAlias | plugins/catalog-backend-module-ldap/src/ldap/read.ts:396-397 | an identifier that is an entity's own unshadowed alias finds that entity, even when its lower-cased form is another entity's key |
| Identity.LookupFindsByLowerCasedDn | plugins/catalog-backend-module-ldap/src/ldap/read.ts:392-435 | an identifier that lower-cases to an entity's lower-cased DN finds that entity |
| Identity.PutAliases | plugins/catalog-backend-module-ldap/src/ldap/read.ts:428-437 | the five `set` calls store the entity under reference, DN, lower-cased DN, RDN and UUID, in that order |
| Identity.IndexUsers | plugins/catalog-backend-module-ldap/src/ldap/read.ts:427-456 | the user loop and the deletes build the user identity table |
| Identity.IndexGroups | plugins/catalog-backend-module-ldap/src/ldap/read.ts:439-456 | the group loop and the deletes build the group identity table |
| Resolve.RefOf | plugins/catalog-backend-module-ldap/src/ldap/read.ts:471-530 | an identifier resolves to a non-empty entity reference or to nothing, so no edge of the merged maps has an empty end |
| Resolve.TargetsAdd | plugins/catalog-backend-module-ldap/src/ldap/read.ts:474-481 | one more target identifier adds its reference if it resolves, and nothing otherwise |
| Resolve.LinkedAdd | plugins/catalog-backend-module-ldap/src/ldap/read.ts:471-483 | one more source identifier adds exactly the edges between what it resolves to and what its targets resolve to |
| Resolve.AddEdge | plugins/catalog-backend-module-ldap/src/ldap/read.ts:477-479 | `ensureItems` with one reference adds exactly that edge and never leaves an empty set |
| Resolve.AddMemberships | plugins/catalog-backend-module-ldap/src/ldap/read.ts:474-481 | a user's raw targets add a membership for each one that resolves to a group, and nothing else |
| Resolve.CollectUserMemberOf | plugins/catalog-backend-module-ldap/src/ldap/read.ts:471-483 | the memberships added are exactly the raw user-to-group edges whose two ends resolve; dangling ones add nothing |
| Resolve.AddParents | plugins/catalog-backend-module-ldap/src/ldap/read.ts:487-500 | each raw parent that resolves adds a parent edge and the reverse child edge, and nothing else |
| Resolve.CollectGroupMemberOf | plugins/catalog-backend-module-ldap/src/ldap/read.ts:484-502 | the parent edges added are exactly the resolving group-to-parent edges; the child edges added are their reverses, so parents and children stay mirrored |
| Resolve.AddMembers | plugins/catalog-backend-module-ldap/src/ldap/read.ts:506-528 | a member that resolves to a user adds only that user's membership; otherwise one that resolves to a group adds a child edge and the reverse parent edge |
| Resolve.CollectGroupMember | plugins/catalog-backend-module-ldap/src/ldap/read.ts:503-530 | the memberships, children and parents added are exactly those of the resolving `member` edges, a user target never becoming a child; parents and children stay mirrored |
| Resolve.CollectRelations | plugins/catalog-backend-module-ldap/src/ldap/read.ts:462-530 | the three merged maps hold exactly the resolved memberships and parent relations, child edges mirror parent edges, and no key holds an empty set |
| Resolve.MemberGoesOneWay | plugins/catalog-backend-module-ldap/src/ldap/read.ts:509-526 | a `member` target that is a user becomes a membership and never a child; one that is only a group becomes a child |
| Resolve.CommitMemberOf | plugins/catalog-backend-module-ldap/src/ldap/read.ts:533-538 | each user a key resolves to gets that key's groups as a sorted list; every other user keeps its list |
| Resolve.CommitParents | plugins/catalog-backend-module-ldap/src/ldap/read.ts:539-546 | a group gets a parent only from a key with exactly one candidate, and then that candidate; every other group keeps its parent |
| Resolve.CommitChildren | plugins/catalog-backend-module-ldap/src/ldap/read.ts:547-552 | each group a key resolves to gets that key's children as a sorted list; every other group keeps its list |
| Resolve.TablesOfOwnRefs | plugins/catalog-backend-module-ldap/src/ldap/read.ts:425-456 | when every reference finds its own entity, the tables hold read entities only |
| Resolve.ResolvedUserIsRead | plugins/catalog-backend-module-ldap/src/ldap/read.ts:472-473 | an identifier that resolves as a user resolves to the reference of a user in the table |
| Resolve.ResolvedGroupIsRead | plugins/catalog-backend-module-ldap/src/ldap/read.ts:475-476 | an identifier that resolves as a group resolves to the reference of a group in the table |
| Resolve.MembershipKeyIsOwnRef | plugins/catalog-backend-module-ldap/src/ldap/read.ts:533-535 | with non-colliding identifiers, the only merged key that finds a user is that user's reference |
| Resolve.GroupKeyIsOwnRef | plugins/catalog-backend-module-ldap/src/ldap/read.ts:539-549 | with non-colliding identifiers, the only merged key that finds a group is that group's reference |
| Resolve.SizeOneIsSingleton | plugins/catalog-backend-module-ldap/src/ldap/read.ts:540-543 | a set of size one is the singleton of the value `values().next()` returns |
| Resolve.MembershipsAtOwnKey | plugins/catalog-backend-module-ldap/src/ldap/read.ts:533-538 | when only its own reference finds a user, the write-back leaves the sorted groups of that key, or the old list |
| Resolve.MembershipsFromCommit | plugins/catalog-backend-module-ldap/src/ldap/read.ts:533-538 | the memberships write-back leaves each read user with exactly its resolved groups, sorted, or its old list if it has none |
| Resolve.ParentAtOwnKey | plugins/catalog-backend-module-ldap/src/ldap/read.ts:539-546 | when only its own reference finds a group, it gets the single parent of that key, or keeps its parent |
| Resolve.ParentFromCommit | plugins/catalog-backend-module-ldap/src/ldap/read.ts:539-546 | the parents write-back sets a read group's parent exactly when it has one unique candidate, to that candidate, and otherwise leaves it untouched |
| Resolve.ChildrenAtOwnKey | plugins/catalog-backend-module-ldap/src/ldap/read.ts:547-552 | when only its own reference finds a group, it gets the sorted children of that key, or keeps its list |
| Resolve.ChildrenFromCommit | plugins/catalog-backend-module-ldap/src/ldap/read.ts:547-552 | the children write-back leaves each read group with exactly its resolved children, sorted, or its old list if it has none |
| Resolve.WriteRelations | plugins/catalog-backend-module-ldap/src/ldap/read.ts:532-552 | with non-colliding identifiers, every read user and group ends with exactly its collected relations, as the three predicates above state |
| Resolve.ResolveRelations | plugins/catalog-backend-module-ldap/src/ldap/read.ts:413-556 | when every entity's reference finds it, each user's memberships, each group's parent and each group's children are resolved against the old field values |
| Org.ReadLdapOrg | plugins/catalog-backend-module-ldap/src/ldap/read.ts:307-344 | fails exactly when a reader fails, with the users' error first; otherwise fresh entities carrying the metadata, profile and group type the readers produced, and, whenever each entity's own reference finds it in its table, with relations resolved against the read edges and the transformers' initial relation fields |
| Org.DnOnlyAliases | plugins/catalog-backend-module-ldap/src/ldap/read.ts:428-437 | an entity with only a DN is stored under its reference, its DN and its lower-cased DN |
| Org.LinkedSingle | plugins/catalog-backend-module-ldap/src/ldap/read.ts:471-502 | a single raw edge links exactly what its two identifiers resolve to |
| Org.DnOnlyGroupPair | plugins/catalog-backend-module-ldap/src/ldap/read.ts:439-456 | two groups with only lower-case DNs are each found by reference and DN, and any other identifier is no key |
| Org.AbsentFromPair | plugins/catalog-backend-module-ldap/src/ldap/read.ts:425-456 | an identifier that is no alias of either of two entities is not a key |
| Org.FirstOrgGroups | plugins/catalog-backend-module-ldap/src/ldap/read.ts:392-398 | in the first organisation the upper-case DN `CN=G2,DC=X` finds `g2` through its lower-cased form |
| Org.FirstOrgUsers | plugins/catalog-backend-module-ldap/src/ldap/read.ts:427-438 | in the first organisation `u1` is found by its reference and its DN |
| Org.FirstOrgRelations | plugins/catalog-backend-module-ldap/src/ldap/read.ts:471-502 | `u1` is a member of `g2` only, and `g1` is the parent of `g2` only |
| Org.FirstOrgOutcome | plugins/catalog-backend-module-ldap/src/ldap/read.ts:533-552 | those relations commit to `u1.memberOf == [g2]`, `g2.parent == g1`, `g1.children == [g2]`, and nothing for the others |
| Org.FirstOrgOwnRefs | plugins/catalog-backend-module-ldap/src/ldap/read.ts:420-450 | the first organisation's identifiers do not collide |
| Org.FirstOrgRelationsOfTables | plugins/catalog-backend-module-ldap/src/ldap/read.ts:471-502 | on the resolver's own tables, the first organisation's relations are exactly `u1` in `g2` and `g2` under `g1` |
| Org.FirstOrgResolved | plugins/catalog-backend-module-ldap/src/ldap/read.ts:413-552 | the resolver's guarantees for the first organisation come to the expected fields |
| Org.FirstOrg | plugins/catalog-backend-module-ldap/src/ldap/read.ts:413-552 | groups `g1` and `g2` and user `u1`: `g2`'s `memberOf` names `g1`'s DN, and `u1`'s names `g2`'s DN in upper case. Then `g2.parent == g1`, `g1.children == [g2]`, `u1.memberOf == [g2]`, and `g1` keeps no parent and `g2` no children |
| Org.SecondOrgGroups | plugins/catalog-backend-module-ldap/src/ldap/read.ts:439-456 | in the second organisation `g3` and `g4` are found by reference and DN, and `g5`'s DN finds nothing |
| Org.SecondOrgRefG3 | plugins/catalog-backend-module-ldap/src/ldap/read.ts:484-505 | `g3`'s DN resolves to `g3` |
| Org.SecondOrgRefG4 | plugins/catalog-backend-module-ldap/src/ldap/read.ts:509-518 | `g4`'s DN names no user and resolves to `g4` as a group member |
| Org.SecondOrgRefG5 | plugins/catalog-backend-module-ldap/src/ldap/read.ts:488-492 | the unread `g5`'s DN resolves to nothing |
| Org.SecondOrgRelations | plugins/catalog-backend-module-ldap/src/ldap/read.ts:484-530 | `g3` is the parent of `g4` by its `member` list, and the edge to the unread `g5` is dropped |
| Org.SecondOrgOutcome | plugins/catalog-backend-module-ldap/src/ldap/read.ts:539-552 | that relation commits to `g3.children == [g4]`, `g4.parent == g3`, and nothing for the others |
| Org.SecondOrgOwnRefs | plugins/catalog-backend-module-ldap/src/ldap/read.ts:420-450 | the second organisation's identifiers do not collide |
| Org.SecondOrgRelationsOfTables | plugins/catalog-backend-module-ldap/src/ldap/read.ts:484-530 | on the resolver's own tables, the only parent relation is `g4` under `g3` |
| Org.SecondOrgResolved | plugins/catalog-backend-module-ldap/src/ldap/read.ts:413-552 | the resolver's guarantees for the second organisation come to the expected fields |
| Org.SecondOrg | plugins/catalog-backend-module-ldap/src/ldap/read.ts:413-552 | groups `g3` and `g4`: `g3`'s `member` names `g4`, and `g4`'s `memberOf` names the unread `g5`. Then `g3.children == [g4]` and `g4.parent == g3`, the dangling reference leaves no trace, `g3` keeps no parent and `g4` no children |

## Left out

- Directory I/O (`LdapClient`, `getVendor`, `searchStreaming`): the search is a function parameter, and the vendor defaults are a value. The readers' `if (!entry)` guard has no counterpart, because every record in the model is present.
- `vendor.decodeStringAttribute` and `mapStringAttr`: `util.ts` is not part of this model. A record carries its attributes already decoded. `mapStringAttr` is taken to give a value exactly when the attribute is configured and decodes to a single value.
- The `set` overrides of the default transformers (`lodash/set` with `cloneDeep`): dynamic, path-based object updates through a library.
- `buildOrgHierarchy` (`./org`) is not part of this model. `Resolve.ResolveRelations` ends where it would be called.
- `Org.ReadLdapOrg`: does not model the final `localeCompare` sort of users and groups by name, a locale-aware collation. Its `ensures` relate the i-th entity to the i-th read record, in reading order.
- `Text.Lower`: only ASCII letters are lower-cased. The rest of Unicode case mapping in `toLocaleLowerCase('en-US')` is not modelled.
- `Text.Below`: compares Dafny characters, which matches the UTF-16 code-unit order of `Array.prototype.sort` for text in the Basic Multilingual Plane only.
- `Entities.Ref`: `stringifyEntityRef` is modelled for the default namespace only, as `kind:default/name` with the name lower-cased by `Text.Lower`, so its ASCII-only limit applies to names too.
- The logger, the `apiVersion`/`kind` fields, and the description and profile copies beyond what the transformer contracts state.
- Map and set iteration order in the resolver: each loop picks its next key or value by arbitrary choice. Every order JavaScript could use is covered, and the committed lists do not depend on it (`Text.SortedListUnique`).
- `Resolve.ResolveRelations`: its guarantees are stated only for entities whose own reference finds them in their table (`Resolve.OwnRefs`). When identifiers collide, a later insertion overwrites an earlier one, as the source comment accepts; the model does not describe the relations then.
- `plugins/catalog-backend-module-github/src/module.ts`: service wiring with no logic of this core.

Where the specification and the code differ, the model follows the code. A record whose reference attribute decodes to an empty list still contributes its DN as a key with an empty set (`Edges.References`, `Edges.EnsureItems`). The specification asks for a non-empty value list before any edge is recorded.
