/**
 * `resolveRelations`: re-keys the raw edges the readers collected by entity
 * reference, dropping every edge whose source or target is not a read
 * entity, and writes the result into the entities' relation fields.
 */
module Resolve {
  import opened Wrappers
  import opened Text
  import opened Entities
  import opened Edges
  import opened Identity

  /** The two lookup tables: `userMap` and `groupMap`. */
  datatype Tables = Tables(users: map<string, User>, groups: map<string, Group>)

  function TablesOf(users: seq<User>, groups: seq<Group>): Tables {
    Tables(UserIdentityMap(users), GroupIdentityMap(groups))
  }

  /**
   * How an identifier is resolved: as a user, as a group, or (for the target
   * of a group's `member` edge) as a group only when it does not name a user.
   */
  datatype Side = AsUser | AsGroup | AsGroupNotUser

  /** The entity reference of the entity an identifier resolves to, if any. */
  function RefOf(t: Tables, side: Side, key: string): (r: Option<string>)
    ensures r.Some? ==> r.value != ""
  {
    var user := Lookup(t.users, key);
    var group := Lookup(t.groups, key);
    match side
    case AsUser => if user.Some? then Some(UserRef(user.value)) else None
    case AsGroup => if group.Some? then Some(GroupRef(group.value)) else None
    case AsGroupNotUser => if user.None? && group.Some? then Some(GroupRef(group.value)) else None
  }

  /** The references a set of identifiers resolves to; identifiers that resolve to nothing are dropped. */
  function Targets(t: Tables, side: Side, names: set<string>): set<string> {
    set m | m in names && RefOf(t, side, m).Some? :: RefOf(t, side, m).value
  }

  /**
   * Among the raw edges of `input` whose source is in `names`, there is one
   * whose source resolves to `a` and whose target resolves to `b`.
   */
  ghost predicate Linked(t: Tables, input: EdgeMap, names: set<string>, from: Side, to: Side, a: string, b: string) {
    exists n :: n in names && n in input && RefOf(t, from, n) == Some(a) && b in Targets(t, to, input[n])
  }

  /** Every key holds at least one value: `ensureItems` is only ever called with one reference here. */
  predicate NoEmptySets(m: EdgeMap) {
    forall k :: k in m ==> m[k] != {}
  }

  /** Every parent edge `c -> p` is matched by a child edge `p -> c`, and the other way round. */
  ghost predicate Mirrored(parents: EdgeMap, children: EdgeMap) {
    forall c, p :: Related(parents, c, p) <==> Related(children, p, c)
  }

  /** User `a` is a member of group `b`: by the user's `memberOf` or by the group's `member`. */
  ghost predicate MemberOf(t: Tables, userMemberOf: EdgeMap, groupMember: EdgeMap, a: string, b: string) {
    || Linked(t, userMemberOf, userMemberOf.Keys, AsUser, AsGroup, a, b)
    || Linked(t, groupMember, groupMember.Keys, AsGroup, AsUser, b, a)
  }

  /**
   * Group `p` is a parent of group `c`: by `c`'s `memberOf`, or by `p`'s
   * `member` when that member does not also name a user.
   */
  ghost predicate ParentOf(t: Tables, groupMemberOf: EdgeMap, groupMember: EdgeMap, c: string, p: string) {
    || Linked(t, groupMemberOf, groupMemberOf.Keys, AsGroup, AsGroup, c, p)
    || Linked(t, groupMember, groupMember.Keys, AsGroup, AsGroupNotUser, p, c)
  }

  lemma TargetsAdd(t: Tables, side: Side, done: set<string>, m: string)
    ensures Targets(t, side, done + {m})
         == Targets(t, side, done) + (if RefOf(t, side, m).Some? then {RefOf(t, side, m).value} else {})
  {
  }

  lemma LinkedAdd(t: Tables, input: EdgeMap, names: set<string>, from: Side, to: Side, n: string)
    requires n in input
    ensures forall a, b ::
      Linked(t, input, names + {n}, from, to, a, b) <==>
        Linked(t, input, names, from, to, a, b) || (RefOf(t, from, n) == Some(a) && b in Targets(t, to, input[n]))
  {
  }

  /** `ensureItems(target, key, [value])` with two entity references. */
  method AddEdge(target: EdgeMap, key: string, value: string) returns (r: EdgeMap)
    requires key != "" && value != ""
    ensures NoEmptySets(target) ==> NoEmptySets(r)
    ensures forall a, b :: Related(r, a, b) <==> Related(target, a, b) || (a == key && b == value)
  {
    assert NonEmptyValues([value]) == {value};
    r := EnsureItems(target, key, [value]);
  }

  /** The inner loop over one user's raw `memberOf` targets: each one that names a group becomes a membership. */
  method AddMemberships(t: Tables, memberOf: EdgeMap, userRef: string, groupsN: set<string>) returns (memberOf': EdgeMap)
    requires userRef != ""
    ensures NoEmptySets(memberOf) ==> NoEmptySets(memberOf')
    ensures forall a, b :: Related(memberOf', a, b) <==> Related(memberOf, a, b) || (a == userRef && b in Targets(t, AsGroup, groupsN))
  {
    memberOf' := memberOf;
    var rest := groupsN;
    while rest != {}
      invariant rest <= groupsN
      invariant NoEmptySets(memberOf) ==> NoEmptySets(memberOf')
      invariant forall a, b :: Related(memberOf', a, b) <==> Related(memberOf, a, b) || (a == userRef && b in Targets(t, AsGroup, groupsN - rest))
      decreases rest
    {
      var groupN :| groupN in rest;
      TargetsAdd(t, AsGroup, groupsN - rest, groupN);
      assert groupsN - (rest - {groupN}) == (groupsN - rest) + {groupN};
      var group := Lookup(t.groups, groupN);
      if group.Some? {
        memberOf' := AddEdge(memberOf', userRef, GroupRef(group.value));
      }
      rest := rest - {groupN};
    }
  }

  /**
   * The `userMemberOf` loop: every `user -> group` edge whose ends both
   * resolve becomes an edge between their references; nothing else is added.
   */
  method CollectUserMemberOf(t: Tables, userMemberOf: EdgeMap, acc: EdgeMap) returns (r: EdgeMap)
    ensures NoEmptySets(acc) ==> NoEmptySets(r)
    ensures forall a, b :: Related(r, a, b) <==> Related(acc, a, b) || Linked(t, userMemberOf, userMemberOf.Keys, AsUser, AsGroup, a, b)
  {
    r := acc;
    var todo := userMemberOf.Keys;
    while todo != {}
      invariant todo <= userMemberOf.Keys
      invariant NoEmptySets(acc) ==> NoEmptySets(r)
      invariant forall a, b :: Related(r, a, b) <==> Related(acc, a, b) || Linked(t, userMemberOf, userMemberOf.Keys - todo, AsUser, AsGroup, a, b)
      decreases todo
    {
      var userN :| userN in todo;
      LinkedAdd(t, userMemberOf, userMemberOf.Keys - todo, AsUser, AsGroup, userN);
      assert userMemberOf.Keys - (todo - {userN}) == (userMemberOf.Keys - todo) + {userN};
      var user := Lookup(t.users, userN);
      if user.Some? {
        r := AddMemberships(t, r, UserRef(user.value), userMemberOf[userN]);
      }
      todo := todo - {userN};
    }
  }

  /**
   * The inner loop over one group's raw `memberOf` targets: each one that
   * names a group becomes a parent edge and, reversed, a child edge.
   */
  method AddParents(t: Tables, parents: EdgeMap, children: EdgeMap, groupRef: string, parentsN: set<string>)
    returns (parents': EdgeMap, children': EdgeMap)
    requires groupRef != ""
    ensures NoEmptySets(parents) ==> NoEmptySets(parents')
    ensures NoEmptySets(children) ==> NoEmptySets(children')
    ensures forall c, p :: Related(parents', c, p) <==> Related(parents, c, p) || (c == groupRef && p in Targets(t, AsGroup, parentsN))
    ensures forall c, p :: Related(children', p, c) <==> Related(children, p, c) || (c == groupRef && p in Targets(t, AsGroup, parentsN))
  {
    parents', children' := parents, children;
    var rest := parentsN;
    while rest != {}
      invariant rest <= parentsN
      invariant NoEmptySets(parents) ==> NoEmptySets(parents')
      invariant NoEmptySets(children) ==> NoEmptySets(children')
      invariant forall c, p :: Related(parents', c, p) <==> Related(parents, c, p) || (c == groupRef && p in Targets(t, AsGroup, parentsN - rest))
      invariant forall c, p :: Related(children', p, c) <==> Related(children, p, c) || (c == groupRef && p in Targets(t, AsGroup, parentsN - rest))
      decreases rest
    {
      var parentN :| parentN in rest;
      TargetsAdd(t, AsGroup, parentsN - rest, parentN);
      assert parentsN - (rest - {parentN}) == (parentsN - rest) + {parentN};
      var parentGroup := Lookup(t.groups, parentN);
      if parentGroup.Some? {
        parents' := AddEdge(parents', groupRef, GroupRef(parentGroup.value));
        children' := AddEdge(children', GroupRef(parentGroup.value), groupRef);
      }
      rest := rest - {parentN};
    }
  }

  /**
   * The `groupMemberOf` loop: every `group -> parent` edge whose ends both
   * resolve becomes a parent edge and, reversed, a child edge.
   */
  method CollectGroupMemberOf(t: Tables, groupMemberOf: EdgeMap, parents: EdgeMap, children: EdgeMap)
    returns (parents': EdgeMap, children': EdgeMap)
    ensures Mirrored(parents, children) ==> Mirrored(parents', children')
    ensures NoEmptySets(parents) ==> NoEmptySets(parents')
    ensures NoEmptySets(children) ==> NoEmptySets(children')
    ensures forall c, p :: Related(parents', c, p) <==> Related(parents, c, p) || Linked(t, groupMemberOf, groupMemberOf.Keys, AsGroup, AsGroup, c, p)
    ensures forall c, p :: Related(children', p, c) <==> Related(children, p, c) || Linked(t, groupMemberOf, groupMemberOf.Keys, AsGroup, AsGroup, c, p)
  {
    parents', children' := parents, children;
    var todo := groupMemberOf.Keys;
    while todo != {}
      invariant todo <= groupMemberOf.Keys
      invariant NoEmptySets(parents) ==> NoEmptySets(parents')
      invariant NoEmptySets(children) ==> NoEmptySets(children')
      invariant forall c, p :: Related(parents', c, p) <==> Related(parents, c, p) || Linked(t, groupMemberOf, groupMemberOf.Keys - todo, AsGroup, AsGroup, c, p)
      invariant forall c, p :: Related(children', p, c) <==> Related(children, p, c) || Linked(t, groupMemberOf, groupMemberOf.Keys - todo, AsGroup, AsGroup, c, p)
      decreases todo
    {
      var groupN :| groupN in todo;
      LinkedAdd(t, groupMemberOf, groupMemberOf.Keys - todo, AsGroup, AsGroup, groupN);
      assert groupMemberOf.Keys - (todo - {groupN}) == (groupMemberOf.Keys - todo) + {groupN};
      var group := Lookup(t.groups, groupN);
      if group.Some? {
        parents', children' := AddParents(t, parents', children', GroupRef(group.value), groupMemberOf[groupN]);
      }
      todo := todo - {groupN};
    }
  }

  /**
   * The inner loop over one group's raw `member` targets: a member that names
   * a user becomes a membership of that user and nothing else; otherwise one
   * that names a group becomes a child edge and, reversed, a parent edge.
   */
  method AddMembers(t: Tables, memberOf: EdgeMap, parents: EdgeMap, children: EdgeMap, groupRef: string, membersN: set<string>)
    returns (memberOf': EdgeMap, parents': EdgeMap, children': EdgeMap)
    requires groupRef != ""
    ensures NoEmptySets(memberOf) ==> NoEmptySets(memberOf')
    ensures NoEmptySets(parents) ==> NoEmptySets(parents')
    ensures NoEmptySets(children) ==> NoEmptySets(children')
    ensures forall a, b :: Related(memberOf', a, b) <==> Related(memberOf, a, b) || (b == groupRef && a in Targets(t, AsUser, membersN))
    ensures forall c, p :: Related(parents', c, p) <==> Related(parents, c, p) || (p == groupRef && c in Targets(t, AsGroupNotUser, membersN))
    ensures forall c, p :: Related(children', p, c) <==> Related(children, p, c) || (p == groupRef && c in Targets(t, AsGroupNotUser, membersN))
  {
    memberOf', parents', children' := memberOf, parents, children;
    var rest := membersN;
    while rest != {}
      invariant rest <= membersN
      invariant NoEmptySets(memberOf) ==> NoEmptySets(memberOf')
      invariant NoEmptySets(parents) ==> NoEmptySets(parents')
      invariant NoEmptySets(children) ==> NoEmptySets(children')
      invariant forall a, b :: Related(memberOf', a, b) <==> Related(memberOf, a, b) || (b == groupRef && a in Targets(t, AsUser, membersN - rest))
      invariant forall c, p :: Related(parents', c, p) <==> Related(parents, c, p) || (p == groupRef && c in Targets(t, AsGroupNotUser, membersN - rest))
      invariant forall c, p :: Related(children', p, c) <==> Related(children, p, c) || (p == groupRef && c in Targets(t, AsGroupNotUser, membersN - rest))
      decreases rest
    {
      var memberN :| memberN in rest;
      TargetsAdd(t, AsUser, membersN - rest, memberN);
      TargetsAdd(t, AsGroupNotUser, membersN - rest, memberN);
      assert membersN - (rest - {memberN}) == (membersN - rest) + {memberN};
      var memberUser := Lookup(t.users, memberN);
      if memberUser.Some? {
        memberOf' := AddEdge(memberOf', UserRef(memberUser.value), groupRef);
      } else {
        var memberGroup := Lookup(t.groups, memberN);
        if memberGroup.Some? {
          children' := AddEdge(children', groupRef, GroupRef(memberGroup.value));
          parents' := AddEdge(parents', GroupRef(memberGroup.value), groupRef);
        }
      }
      rest := rest - {memberN};
    }
  }

  /**
   * The `groupMember` loop: every `group -> member` edge whose group resolves
   * is handed to `AddMembers`.
   */
  method CollectGroupMember(t: Tables, groupMember: EdgeMap, memberOf: EdgeMap, parents: EdgeMap, children: EdgeMap)
    returns (memberOf': EdgeMap, parents': EdgeMap, children': EdgeMap)
    ensures Mirrored(parents, children) ==> Mirrored(parents', children')
    ensures NoEmptySets(memberOf) ==> NoEmptySets(memberOf')
    ensures NoEmptySets(parents) ==> NoEmptySets(parents')
    ensures NoEmptySets(children) ==> NoEmptySets(children')
    ensures forall a, b :: Related(memberOf', a, b) <==> Related(memberOf, a, b) || Linked(t, groupMember, groupMember.Keys, AsGroup, AsUser, b, a)
    ensures forall c, p :: Related(parents', c, p) <==> Related(parents, c, p) || Linked(t, groupMember, groupMember.Keys, AsGroup, AsGroupNotUser, p, c)
    ensures forall c, p :: Related(children', p, c) <==> Related(children, p, c) || Linked(t, groupMember, groupMember.Keys, AsGroup, AsGroupNotUser, p, c)
  {
    memberOf', parents', children' := memberOf, parents, children;
    var todo := groupMember.Keys;
    while todo != {}
      invariant todo <= groupMember.Keys
      invariant NoEmptySets(memberOf) ==> NoEmptySets(memberOf')
      invariant NoEmptySets(parents) ==> NoEmptySets(parents')
      invariant NoEmptySets(children) ==> NoEmptySets(children')
      invariant forall a, b :: Related(memberOf', a, b) <==> Related(memberOf, a, b) || Linked(t, groupMember, groupMember.Keys - todo, AsGroup, AsUser, b, a)
      invariant forall c, p :: Related(parents', c, p) <==> Related(parents, c, p) || Linked(t, groupMember, groupMember.Keys - todo, AsGroup, AsGroupNotUser, p, c)
      invariant forall c, p :: Related(children', p, c) <==> Related(children, p, c) || Linked(t, groupMember, groupMember.Keys - todo, AsGroup, AsGroupNotUser, p, c)
      decreases todo
    {
      var groupN :| groupN in todo;
      LinkedAdd(t, groupMember, groupMember.Keys - todo, AsGroup, AsUser, groupN);
      LinkedAdd(t, groupMember, groupMember.Keys - todo, AsGroup, AsGroupNotUser, groupN);
      assert groupMember.Keys - (todo - {groupN}) == (groupMember.Keys - todo) + {groupN};
      var group := Lookup(t.groups, groupN);
      if group.Some? {
        memberOf', parents', children' := AddMembers(t, memberOf', parents', children', GroupRef(group.value), groupMember[groupN]);
      }
      todo := todo - {groupN};
    }
  }

  /** `k` is one of `keys` and resolves, in `m`, to `e`. */
  ghost predicate KeyFor<T>(m: map<string, T>, keys: set<string>, k: string, e: T) {
    k in keys && Lookup(m, k) == Some(e)
  }

  /**
   * After the keys `keys` of `memberOf` were written back: when one of them
   * resolves to `u`, `u` holds the sorted groups of such a key; otherwise its
   * list is still `before`.
   */
  ghost predicate MembershipsCommitted(userMap: map<string, User>, memberOf: EdgeMap, keys: set<string>, u: User, before: seq<string>)
    reads u`memberOf
  {
    if exists k :: KeyFor(userMap, keys, k, u)
    then exists k :: KeyFor(userMap, keys, k, u) && k in memberOf && SortedList(u.memberOf, memberOf[k])
    else u.memberOf == before
  }

  /** `k` is one of `keys`, holds exactly one parent in `parents`, and resolves to `g`. */
  ghost predicate SingleParentKeyFor(groupMap: map<string, Group>, parents: EdgeMap, keys: set<string>, k: string, g: Group) {
    KeyFor(groupMap, keys, k, g) && k in parents && |parents[k]| == 1
  }

  /**
   * After the keys `keys` of `parents` were written back: when one of them
   * with a single parent resolves to `g`, `g` holds the parent of such a key;
   * otherwise its parent is still `before`.
   */
  ghost predicate ParentCommitted(groupMap: map<string, Group>, parents: EdgeMap, keys: set<string>, g: Group, before: Option<string>)
    reads g`parent
  {
    if exists k :: SingleParentKeyFor(groupMap, parents, keys, k, g)
    then g.parent.Some? && exists k :: SingleParentKeyFor(groupMap, parents, keys, k, g) && parents[k] == {g.parent.value}
    else g.parent == before
  }

  /**
   * After the keys `keys` of `children` were written back: when one of them
   * resolves to `g`, `g` holds the sorted children of such a key; otherwise
   * its list is still `before`.
   */
  ghost predicate ChildrenCommitted(groupMap: map<string, Group>, children: EdgeMap, keys: set<string>, g: Group, before: seq<string>)
    reads g`children
  {
    if exists k :: KeyFor(groupMap, keys, k, g)
    then exists k :: KeyFor(groupMap, keys, k, g) && k in children && SortedList(g.children, children[k])
    else g.children == before
  }

  /**
   * The memberships write-back: a user that a key resolves to gets that key's
   * groups as a sorted list; a user no key resolves to keeps its list.
   */
  method CommitMemberOf(userMap: map<string, User>, memberOf: EdgeMap)
    modifies userMap.Values`memberOf
    ensures forall u :: u in userMap.Values ==> MembershipsCommitted(userMap, memberOf, memberOf.Keys, u, old(u.memberOf))
  {
    var rest := memberOf.Keys;
    ghost var done: set<string> := {};
    while rest != {}
      invariant done + rest == memberOf.Keys
      invariant forall u :: u in userMap.Values ==> MembershipsCommitted(userMap, memberOf, done, u, old(u.memberOf))
      decreases rest
    {
      var userN :| userN in rest;
      var user := Lookup(userMap, userN);
      if user.Some? {
        var sorted := SortSet(memberOf[userN]);
        user.value.memberOf := sorted;
      }
      forall u | u in userMap.Values
        ensures MembershipsCommitted(userMap, memberOf, done + {userN}, u, old(u.memberOf))
      {
        if user.Some? && u == user.value {
          assert KeyFor(userMap, done + {userN}, userN, u);
        } else {
          assert forall k :: KeyFor(userMap, done + {userN}, k, u) ==> KeyFor(userMap, done, k, u);
        }
      }
      done := done + {userN};
      rest := rest - {userN};
    }
  }

  /**
   * The parents write-back: a group that a key with exactly one parent
   * resolves to gets that parent; every other group keeps its parent.
   */
  method CommitParents(groupMap: map<string, Group>, parents: EdgeMap)
    modifies groupMap.Values`parent
    ensures forall g :: g in groupMap.Values ==> ParentCommitted(groupMap, parents, parents.Keys, g, old(g.parent))
  {
    var rest := parents.Keys;
    ghost var done: set<string> := {};
    while rest != {}
      invariant done + rest == parents.Keys
      invariant forall g :: g in groupMap.Values ==> ParentCommitted(groupMap, parents, done, g, old(g.parent))
      decreases rest
    {
      var groupN :| groupN in rest;
      var parentsN := parents[groupN];
      ghost var written := false;
      var group: Option<Group> := None;
      if |parentsN| == 1 {
        group := Lookup(groupMap, groupN);
        if group.Some? {
          var p :| p in parentsN;
          assert parentsN == {p} by {
            assert |parentsN - {p}| == 0;
          }
          group.value.parent := Some(p);
          written := true;
        }
      }
      forall g | g in groupMap.Values
        ensures ParentCommitted(groupMap, parents, done + {groupN}, g, old(g.parent))
      {
        if written && g == group.value {
          assert SingleParentKeyFor(groupMap, parents, done + {groupN}, groupN, g);
        } else {
          assert forall k :: SingleParentKeyFor(groupMap, parents, done + {groupN}, k, g) ==> SingleParentKeyFor(groupMap, parents, done, k, g);
        }
      }
      done := done + {groupN};
      rest := rest - {groupN};
    }
  }

  /**
   * The children write-back: a group that a key resolves to gets that key's
   * children as a sorted list; a group no key resolves to keeps its list.
   */
  method CommitChildren(groupMap: map<string, Group>, children: EdgeMap)
    modifies groupMap.Values`children
    ensures forall g :: g in groupMap.Values ==> ChildrenCommitted(groupMap, children, children.Keys, g, old(g.children))
  {
    var rest := children.Keys;
    ghost var done: set<string> := {};
    while rest != {}
      invariant done + rest == children.Keys
      invariant forall g :: g in groupMap.Values ==> ChildrenCommitted(groupMap, children, done, g, old(g.children))
      decreases rest
    {
      var groupN :| groupN in rest;
      var group := Lookup(groupMap, groupN);
      if group.Some? {
        var sorted := SortSet(children[groupN]);
        group.value.children := sorted;
      }
      forall g | g in groupMap.Values
        ensures ChildrenCommitted(groupMap, children, done + {groupN}, g, old(g.children))
      {
        if group.Some? && g == group.value {
          assert KeyFor(groupMap, done + {groupN}, groupN, g);
        } else {
          assert forall k :: KeyFor(groupMap, done + {groupN}, k, g) ==> KeyFor(groupMap, done, k, g);
        }
      }
      done := done + {groupN};
      rest := rest - {groupN};
    }
  }

  /**
   * The three collection loops, starting from empty maps: memberships, parent
   * edges and child edges, keyed by entity reference. Parent and child edges
   * mirror each other, and no key is left with an empty set.
   */
  method CollectRelations(t: Tables, userMemberOf: EdgeMap, groupMemberOf: EdgeMap, groupMember: EdgeMap)
    returns (newUserMemberOf: EdgeMap, newGroupParents: EdgeMap, newGroupChildren: EdgeMap)
    ensures NoEmptySets(newUserMemberOf) && NoEmptySets(newGroupParents) && NoEmptySets(newGroupChildren)
    ensures forall a, b :: Related(newUserMemberOf, a, b) <==> MemberOf(t, userMemberOf, groupMember, a, b)
    ensures forall c, p :: Related(newGroupParents, c, p) <==> ParentOf(t, groupMemberOf, groupMember, c, p)
    ensures forall c, p :: Related(newGroupChildren, p, c) <==> ParentOf(t, groupMemberOf, groupMember, c, p)
    ensures Mirrored(newGroupParents, newGroupChildren)
  {
    newUserMemberOf := CollectUserMemberOf(t, userMemberOf, map[]);
    newGroupParents, newGroupChildren := CollectGroupMemberOf(t, groupMemberOf, map[], map[]);
    newUserMemberOf, newGroupParents, newGroupChildren :=
      CollectGroupMember(t, groupMember, newUserMemberOf, newGroupParents, newGroupChildren);
  }

  /**
   * A `member` of a resolved group goes exactly one way: when it names a
   * user it is a membership of that user and never a child; otherwise, when
   * it names a group, it is a child.
   */
  lemma MemberGoesOneWay(t: Tables, userMemberOf: EdgeMap, groupMemberOf: EdgeMap, groupMember: EdgeMap, n: string, m: string)
    requires n in groupMember && m in groupMember[n] && RefOf(t, AsGroup, n).Some?
    ensures var p := RefOf(t, AsGroup, n).value;
      && (RefOf(t, AsUser, m).Some? ==> MemberOf(t, userMemberOf, groupMember, RefOf(t, AsUser, m).value, p))
      && (RefOf(t, AsUser, m).Some? ==> Targets(t, AsGroupNotUser, {m}) == {})
      && (RefOf(t, AsUser, m).None? && RefOf(t, AsGroup, m).Some? ==>
            ParentOf(t, groupMemberOf, groupMember, RefOf(t, AsGroup, m).value, p))
  {
    var p := RefOf(t, AsGroup, n).value;
    if RefOf(t, AsUser, m).Some? {
      assert RefOf(t, AsUser, m).value in Targets(t, AsUser, groupMember[n]);
      assert Linked(t, groupMember, groupMember.Keys, AsGroup, AsUser, p, RefOf(t, AsUser, m).value);
    } else if RefOf(t, AsGroup, m).Some? {
      assert RefOf(t, AsGroupNotUser, m) == RefOf(t, AsGroup, m);
      assert RefOf(t, AsGroup, m).value in Targets(t, AsGroupNotUser, groupMember[n]);
      assert Linked(t, groupMember, groupMember.Keys, AsGroup, AsGroupNotUser, p, RefOf(t, AsGroup, m).value);
    }
  }

  /**
   * Each entity's own reference finds that entity in its table. Since a
   * later `set` overwrites an earlier one, this fails when a later entity has
   * the same reference (its name agrees up to letter case) or carries that
   * reference as its DN, RDN or UUID; the resolver's authors expect no such
   * collision.
   */
  ghost predicate OwnRefs(users: seq<User>, groups: seq<Group>) {
    && (forall u :: u in users ==> Lookup(UserIdentityMap(users), UserRef(u)) == Some(u))
    && (forall g :: g in groups ==> Lookup(GroupIdentityMap(groups), GroupRef(g)) == Some(g))
  }

  /**
   * `OwnRefs`, stated on the tables: each read entity's reference finds it,
   * and the tables hold read entities only.
   */
  ghost predicate OwnsRefs(t: Tables, users: seq<User>, groups: seq<Group>) {
    && (forall u :: u in users ==> Lookup(t.users, UserRef(u)) == Some(u))
    && (forall g :: g in groups ==> Lookup(t.groups, GroupRef(g)) == Some(g))
    && (forall v :: v in t.users.Values ==> v in users)
    && (forall v :: v in t.groups.Values ==> v in groups)
  }

  /** The tables built from the read entities hold read entities only. */
  lemma TablesOfOwnRefs(users: seq<User>, groups: seq<Group>)
    requires OwnRefs(users, groups)
    ensures OwnsRefs(TablesOf(users, groups), users, groups)
  {
    IdentityMapValues(UserAliases(users), users);
    IdentityMapValues(GroupAliases(groups), groups);
  }

  /** `p` is the one and only parent candidate of `c`. */
  ghost predicate UniqueParent(t: Tables, groupMemberOf: EdgeMap, groupMember: EdgeMap, c: string, p: string) {
    ParentOf(t, groupMemberOf, groupMember, c, p) && forall q :: ParentOf(t, groupMemberOf, groupMember, c, q) ==> q == p
  }

  /** `u`'s memberships are its resolved groups, sorted; a user without any keeps `before`. */
  ghost predicate MembershipsResolved(t: Tables, userMemberOf: EdgeMap, groupMember: EdgeMap, u: User, before: seq<string>)
    reads u`memberOf
  {
    if exists b :: MemberOf(t, userMemberOf, groupMember, UserRef(u), b)
    then StrictlySorted(u.memberOf) && forall b :: b in u.memberOf <==> MemberOf(t, userMemberOf, groupMember, UserRef(u), b)
    else u.memberOf == before
  }

  /** `g`'s parent is its one resolved parent; a group with none or several keeps `before`. */
  ghost predicate ParentResolved(t: Tables, groupMemberOf: EdgeMap, groupMember: EdgeMap, g: Group, before: Option<string>)
    reads g`parent
  {
    if exists p :: UniqueParent(t, groupMemberOf, groupMember, GroupRef(g), p)
    then g.parent.Some? && UniqueParent(t, groupMemberOf, groupMember, GroupRef(g), g.parent.value)
    else g.parent == before
  }

  /** `g`'s children are its resolved children, sorted; a group without any keeps `before`. */
  ghost predicate ChildrenResolved(t: Tables, groupMemberOf: EdgeMap, groupMember: EdgeMap, g: Group, before: seq<string>)
    reads g`children
  {
    if exists c :: ParentOf(t, groupMemberOf, groupMember, c, GroupRef(g))
    then StrictlySorted(g.children) && forall c :: c in g.children <==> ParentOf(t, groupMemberOf, groupMember, c, GroupRef(g))
    else g.children == before
  }

  /** A reference some identifier resolves to as a user is the reference of a user in the table. */
  lemma ResolvedUserIsRead(t: Tables, key: string)
    requires RefOf(t, AsUser, key).Some?
    ensures exists v :: v in t.users.Values && RefOf(t, AsUser, key) == Some(UserRef(v))
  {
  }

  /** A reference some identifier resolves to as a group is the reference of a group in the table. */
  lemma ResolvedGroupIsRead(t: Tables, side: Side, key: string)
    requires side != AsUser && RefOf(t, side, key).Some?
    ensures exists v :: v in t.groups.Values && RefOf(t, side, key) == Some(GroupRef(v))
  {
  }

  /**
   * With identifiers that do not collide, the only key of the collected
   * memberships that finds a user in the table is that user's reference.
   */
  lemma {:induction false} MembershipKeyIsOwnRef(t: Tables, users: seq<User>, groups: seq<Group>, userMemberOf: EdgeMap, groupMember: EdgeMap, memberOf: EdgeMap, u: User)
    requires OwnsRefs(t, users, groups) && u in users
    requires NoEmptySets(memberOf)
    requires forall a, b :: Related(memberOf, a, b) <==> MemberOf(t, userMemberOf, groupMember, a, b)
    ensures forall k :: KeyFor(t.users, memberOf.Keys, k, u) <==> k == UserRef(u) && k in memberOf
  {
    forall k | KeyFor(t.users, memberOf.Keys, k, u)
      ensures k == UserRef(u)
    {
      var b :| b in memberOf[k];
      assert Related(memberOf, k, b);
      if Linked(t, userMemberOf, userMemberOf.Keys, AsUser, AsGroup, k, b) {
        var n :| n in userMemberOf && RefOf(t, AsUser, n) == Some(k) && b in Targets(t, AsGroup, userMemberOf[n]);
        ResolvedUserIsRead(t, n);
      } else {
        var n :| n in groupMember && RefOf(t, AsGroup, n) == Some(b) && k in Targets(t, AsUser, groupMember[n]);
        var m :| m in groupMember[n] && RefOf(t, AsUser, m) == Some(k);
        ResolvedUserIsRead(t, m);
      }
    }
  }

  /**
   * With identifiers that do not collide, the only key of collected parent
   * or child edges that finds a group in the table is that group's reference.
   */
  lemma {:induction false} GroupKeyIsOwnRef(t: Tables, users: seq<User>, groups: seq<Group>, groupMemberOf: EdgeMap, groupMember: EdgeMap, m: EdgeMap, parentward: bool, g: Group)
    requires OwnsRefs(t, users, groups) && g in groups
    requires NoEmptySets(m)
    requires parentward ==> forall c, p :: Related(m, c, p) <==> ParentOf(t, groupMemberOf, groupMember, c, p)
    requires !parentward ==> forall c, p :: Related(m, p, c) <==> ParentOf(t, groupMemberOf, groupMember, c, p)
    ensures forall k :: KeyFor(t.groups, m.Keys, k, g) <==> k == GroupRef(g) && k in m
  {
    forall k | KeyFor(t.groups, m.Keys, k, g)
      ensures k == GroupRef(g)
    {
      var x :| x in m[k];
      assert Related(m, k, x);
      var c, p := if parentward then k else x, if parentward then x else k;
      assert ParentOf(t, groupMemberOf, groupMember, c, p);
      if Linked(t, groupMemberOf, groupMemberOf.Keys, AsGroup, AsGroup, c, p) {
        var n :| n in groupMemberOf && RefOf(t, AsGroup, n) == Some(c) && p in Targets(t, AsGroup, groupMemberOf[n]);
        var y :| y in groupMemberOf[n] && RefOf(t, AsGroup, y) == Some(p);
        ResolvedGroupIsRead(t, AsGroup, n);
        ResolvedGroupIsRead(t, AsGroup, y);
      } else {
        var n :| n in groupMember && RefOf(t, AsGroup, n) == Some(p) && c in Targets(t, AsGroupNotUser, groupMember[n]);
        var y :| y in groupMember[n] && RefOf(t, AsGroupNotUser, y) == Some(c);
        ResolvedGroupIsRead(t, AsGroup, n);
        ResolvedGroupIsRead(t, AsGroupNotUser, y);
      }
    }
  }

  /** A one-element set is the singleton of its element. */
  lemma SizeOneIsSingleton(s: set<string>) returns (x: string)
    requires |s| == 1
    ensures s == {x}
  {
    x :| x in s;
    assert |s - {x}| == 0;
  }

  /** The memberships write-back, when `UserRef(u)` is the only key that finds `u`. */
  lemma MembershipsAtOwnKey(userMap: map<string, User>, memberOf: EdgeMap, u: User, before: seq<string>)
    requires forall k :: KeyFor(userMap, memberOf.Keys, k, u) <==> k == UserRef(u) && k in memberOf
    requires MembershipsCommitted(userMap, memberOf, memberOf.Keys, u, before)
    ensures UserRef(u) in memberOf ==> SortedList(u.memberOf, memberOf[UserRef(u)])
    ensures UserRef(u) !in memberOf ==> u.memberOf == before
  {
    if UserRef(u) in memberOf {
      assert KeyFor(userMap, memberOf.Keys, UserRef(u), u);
    }
  }

  /** What the memberships write-back leaves in a user, once keys are known to be own references. */
  lemma MembershipsFromCommit(t: Tables, users: seq<User>, groups: seq<Group>, userMemberOf: EdgeMap, groupMember: EdgeMap, memberOf: EdgeMap, u: User, before: seq<string>)
    requires OwnsRefs(t, users, groups) && u in users
    requires NoEmptySets(memberOf)
    requires forall a, b :: Related(memberOf, a, b) <==> MemberOf(t, userMemberOf, groupMember, a, b)
    requires MembershipsCommitted(t.users, memberOf, memberOf.Keys, u, before)
    ensures MembershipsResolved(t, userMemberOf, groupMember, u, before)
  {
    MembershipKeyIsOwnRef(t, users, groups, userMemberOf, groupMember, memberOf, u);
    MembershipsAtOwnKey(t.users, memberOf, u, before);
    if UserRef(u) in memberOf {
      var b :| b in memberOf[UserRef(u)];
      assert Related(memberOf, UserRef(u), b);
    }
  }

  /** The parents write-back, when `GroupRef(g)` is the only key that finds `g`. */
  lemma ParentAtOwnKey(groupMap: map<string, Group>, parents: EdgeMap, g: Group, before: Option<string>)
    requires forall k :: KeyFor(groupMap, parents.Keys, k, g) <==> k == GroupRef(g) && k in parents
    requires ParentCommitted(groupMap, parents, parents.Keys, g, before)
    ensures GroupRef(g) in parents && |parents[GroupRef(g)]| == 1 ==> g.parent.Some? && parents[GroupRef(g)] == {g.parent.value}
    ensures !(GroupRef(g) in parents && |parents[GroupRef(g)]| == 1) ==> g.parent == before
  {
    if GroupRef(g) in parents && |parents[GroupRef(g)]| == 1 {
      assert SingleParentKeyFor(groupMap, parents, parents.Keys, GroupRef(g), g);
    }
  }

  /** What the parents write-back leaves in a group, once keys are known to be own references. */
  lemma ParentFromCommit(t: Tables, users: seq<User>, groups: seq<Group>, groupMemberOf: EdgeMap, groupMember: EdgeMap, parents: EdgeMap, g: Group, before: Option<string>)
    requires OwnsRefs(t, users, groups) && g in groups
    requires NoEmptySets(parents)
    requires forall c, p :: Related(parents, c, p) <==> ParentOf(t, groupMemberOf, groupMember, c, p)
    requires ParentCommitted(t.groups, parents, parents.Keys, g, before)
    ensures ParentResolved(t, groupMemberOf, groupMember, g, before)
  {
    GroupKeyIsOwnRef(t, users, groups, groupMemberOf, groupMember, parents, true, g);
    ParentAtOwnKey(t.groups, parents, g, before);
    var c := GroupRef(g);
    if c in parents && |parents[c]| == 1 {
      var p := SizeOneIsSingleton(parents[c]);
      assert UniqueParent(t, groupMemberOf, groupMember, c, p);
    } else {
      forall p | ParentOf(t, groupMemberOf, groupMember, c, p)
        ensures !UniqueParent(t, groupMemberOf, groupMember, c, p)
      {
        assert Related(parents, c, p);
        assert |parents[c] - {p}| == |parents[c]| - 1;
        var q :| q in parents[c] - {p};
        assert ParentOf(t, groupMemberOf, groupMember, c, q);
      }
    }
  }

  /** The children write-back, when `GroupRef(g)` is the only key that finds `g`. */
  lemma ChildrenAtOwnKey(groupMap: map<string, Group>, children: EdgeMap, g: Group, before: seq<string>)
    requires forall k :: KeyFor(groupMap, children.Keys, k, g) <==> k == GroupRef(g) && k in children
    requires ChildrenCommitted(groupMap, children, children.Keys, g, before)
    ensures GroupRef(g) in children ==> SortedList(g.children, children[GroupRef(g)])
    ensures GroupRef(g) !in children ==> g.children == before
  {
    if GroupRef(g) in children {
      assert KeyFor(groupMap, children.Keys, GroupRef(g), g);
    }
  }

  /** What the children write-back leaves in a group, once keys are known to be own references. */
  lemma ChildrenFromCommit(t: Tables, users: seq<User>, groups: seq<Group>, groupMemberOf: EdgeMap, groupMember: EdgeMap, children: EdgeMap, g: Group, before: seq<string>)
    requires OwnsRefs(t, users, groups) && g in groups
    requires NoEmptySets(children)
    requires forall c, p :: Related(children, p, c) <==> ParentOf(t, groupMemberOf, groupMember, c, p)
    requires ChildrenCommitted(t.groups, children, children.Keys, g, before)
    ensures ChildrenResolved(t, groupMemberOf, groupMember, g, before)
  {
    GroupKeyIsOwnRef(t, users, groups, groupMemberOf, groupMember, children, false, g);
    ChildrenAtOwnKey(t.groups, children, g, before);
    if GroupRef(g) in children {
      var c :| c in children[GroupRef(g)];
      assert Related(children, GroupRef(g), c);
    }
  }

  /**
   * The write-back of the collected relations into the entities. When
   * every entity's reference finds it, each entity ends up with exactly its
   * collected relations.
   */
  method WriteRelations(
    t: Tables, ghost users: seq<User>, ghost groups: seq<Group>,
    ghost userMemberOf: EdgeMap, ghost groupMemberOf: EdgeMap, ghost groupMember: EdgeMap,
    newUserMemberOf: EdgeMap, newGroupParents: EdgeMap, newGroupChildren: EdgeMap)
    requires NoEmptySets(newUserMemberOf) && NoEmptySets(newGroupParents) && NoEmptySets(newGroupChildren)
    requires forall a, b :: Related(newUserMemberOf, a, b) <==> MemberOf(t, userMemberOf, groupMember, a, b)
    requires forall c, p :: Related(newGroupParents, c, p) <==> ParentOf(t, groupMemberOf, groupMember, c, p)
    requires forall c, p :: Related(newGroupChildren, p, c) <==> ParentOf(t, groupMemberOf, groupMember, c, p)
    modifies t.users.Values`memberOf, t.groups.Values`parent, t.groups.Values`children
    ensures OwnsRefs(t, users, groups) ==> forall u :: u in users ==>
      MembershipsResolved(t, userMemberOf, groupMember, u, old(u.memberOf))
    ensures OwnsRefs(t, users, groups) ==> forall g :: g in groups ==>
      && ParentResolved(t, groupMemberOf, groupMember, g, old(g.parent))
      && ChildrenResolved(t, groupMemberOf, groupMember, g, old(g.children))
  {
    CommitMemberOf(t.users, newUserMemberOf);
    if OwnsRefs(t, users, groups) {
      forall u | u in users
        ensures MembershipsResolved(t, userMemberOf, groupMember, u, old(u.memberOf))
      {
        MembershipsFromCommit(t, users, groups, userMemberOf, groupMember, newUserMemberOf, u, old(u.memberOf));
      }
    }

    CommitParents(t.groups, newGroupParents);
    if OwnsRefs(t, users, groups) {
      forall g | g in groups
        ensures ParentResolved(t, groupMemberOf, groupMember, g, old(g.parent))
      {
        ParentFromCommit(t, users, groups, groupMemberOf, groupMember, newGroupParents, g, old(g.parent));
      }
    }

    CommitChildren(t.groups, newGroupChildren);
    if OwnsRefs(t, users, groups) {
      forall g | g in groups
        ensures ChildrenResolved(t, groupMemberOf, groupMember, g, old(g.children))
      {
        ChildrenFromCommit(t, users, groups, groupMemberOf, groupMember, newGroupChildren, g, old(g.children));
      }
    }
  }

  /**
   * `resolveRelations`: builds the two tables, collects the edges the
   * readers found, re-keyed by entity reference, and writes them into the
   * entities. When identifiers do not collide, afterwards every user lists,
   * sorted, exactly the groups it is resolved to be a member of; every group
   * lists, sorted, exactly its resolved children; a group with exactly one
   * resolved parent has that parent; everything else keeps its value.
   */
  method ResolveRelations(groups: seq<Group>, users: seq<User>, userMemberOf: EdgeMap, groupMemberOf: EdgeMap, groupMember: EdgeMap)
    modifies users, groups
    ensures OwnRefs(users, groups) ==> forall u :: u in users ==>
      MembershipsResolved(TablesOf(users, groups), userMemberOf, groupMember, u, old(u.memberOf))
    ensures OwnRefs(users, groups) ==> forall g :: g in groups ==>
      && ParentResolved(TablesOf(users, groups), groupMemberOf, groupMember, g, old(g.parent))
      && ChildrenResolved(TablesOf(users, groups), groupMemberOf, groupMember, g, old(g.children))
  {
    var userMap := IndexUsers(users);
    var groupMap := IndexGroups(groups);
    var t := Tables(userMap, groupMap);
    var newUserMemberOf, newGroupParents, newGroupChildren := CollectRelations(t, userMemberOf, groupMemberOf, groupMember);

    IdentityMapValues(UserAliases(users), users);
    IdentityMapValues(GroupAliases(groups), groups);
    if OwnRefs(users, groups) {
      TablesOfOwnRefs(users, groups);
    }
    WriteRelations(t, users, groups, userMemberOf, groupMemberOf, groupMember, newUserMemberOf, newGroupParents, newGroupChildren);
    // buildOrgHierarchy(groups) is not part of this model.
  }
}
