/**
 * The identity lookup tables of the resolver: every user and every group is
 * findable by its entity reference, its DN, its lower-cased DN, its RDN and
 * its UUID, in two separate maps; lookup tries the identifier as given and
 * then lower-cased.
 */
module Identity {
  import opened Wrappers
  import opened Text
  import opened Entities

  /**
   * `getValueFromMapWithInsensitiveKey`: the entry under the identifier as
   * given, otherwise the entry under its lower-cased form. (Entity objects are
   * never falsy, so an entry found under the first key is always returned.)
   */
  function Lookup<T(==)>(m: map<string, T>, key: string): (r: Option<T>)
    ensures r.Some? ==> r.value in m.Values
    ensures r.None? <==> key !in m && Lower(key) !in m
    ensures key in m ==> r == Some(m[key])
    ensures key !in m && Lower(key) in m ==> r == Some(m[Lower(key)])
  {
    if key in m then Some(m[key])
    else if Lower(key) in m then Some(m[Lower(key)])
    else None
  }

  /** `dn?.toLocaleLowerCase('en-US')` */
  function LowerOpt(s: Option<string>): Option<string> {
    match s
    case Some(v) => Some(Lower(v))
    case None => None
  }

  /**
   * The keys an entity is stored under, in the order they are set: entity
   * reference, DN, lower-cased DN, RDN, UUID.
   */
  function Aliases(ref: string, a: Annotations): seq<Option<string>> {
    [Some(ref), a.dn, LowerOpt(a.dn), a.rdn, a.uuid]
  }

  /**
   * `map.set(key, e)`. A missing annotation is stored under `undefined` in the
   * source and deleted again before any lookup; here it is not stored at all.
   */
  function Put<T>(m: map<string, T>, key: Option<string>, e: T): map<string, T> {
    if key.Some? then m[key.value := e] else m
  }

  /** Stores `e` under each present key, in order. */
  function PutAll<T>(m: map<string, T>, keys: seq<Option<string>>, e: T): (r: map<string, T>)
    ensures forall k :: k in r <==> k in m || Some(k) in keys
    ensures forall k :: Some(k) in keys ==> r[k] == e
    ensures forall k :: k in m && Some(k) !in keys ==> r[k] == m[k]
    decreases |keys|
  {
    if keys == [] then m
    else PutAll(Put(m, keys[0], e), keys[1..], e)
  }

  /** The table after the entities `es`, with alias lists `aliases`, were stored one after the other. */
  function Indexed<T>(aliases: seq<seq<Option<string>>>, es: seq<T>): map<string, T>
    requires |aliases| == |es|
    decreases |es|
  {
    if es == [] then map[]
    else
      var n := |es| - 1;
      PutAll(Indexed(aliases[..n], es[..n]), aliases[n], es[n])
  }

  /** The lookup table once the empty key is deleted. */
  function IdentityMap<T>(aliases: seq<seq<Option<string>>>, es: seq<T>): map<string, T>
    requires |aliases| == |es|
  {
    Indexed(aliases, es) - {""}
  }

  function UserAliases(users: seq<User>): (r: seq<seq<Option<string>>>)
    ensures |r| == |users|
    ensures forall i :: 0 <= i < |users| ==> r[i] == Aliases(UserRef(users[i]), users[i].metadata.annotations)
  {
    seq(|users|, i requires 0 <= i < |users| => Aliases(UserRef(users[i]), users[i].metadata.annotations))
  }

  function GroupAliases(groups: seq<Group>): (r: seq<seq<Option<string>>>)
    ensures |r| == |groups|
    ensures forall i :: 0 <= i < |groups| ==> r[i] == Aliases(GroupRef(groups[i]), groups[i].metadata.annotations)
  {
    seq(|groups|, i requires 0 <= i < |groups| => Aliases(GroupRef(groups[i]), groups[i].metadata.annotations))
  }

  /** `userMap` once built. */
  function UserIdentityMap(users: seq<User>): map<string, User> {
    IdentityMap(UserAliases(users), users)
  }

  /** `groupMap` once built. */
  function GroupIdentityMap(groups: seq<Group>): map<string, Group> {
    IdentityMap(GroupAliases(groups), groups)
  }

  /** Every key of the table is an alias of some entity, and holds an entity it is an alias of. */
  lemma {:induction false} IndexedKeys<T>(aliases: seq<seq<Option<string>>>, es: seq<T>, k: string)
    requires |aliases| == |es|
    ensures k in Indexed(aliases, es) <==> exists i :: 0 <= i < |es| && Some(k) in aliases[i]
    ensures k in Indexed(aliases, es) ==> exists i :: 0 <= i < |es| && Some(k) in aliases[i] && Indexed(aliases, es)[k] == es[i]
    decreases |es|
  {
    if es != [] {
      var n := |es| - 1;
      IndexedKeys(aliases[..n], es[..n], k);
      if k in Indexed(aliases, es) && Some(k) !in aliases[n] {
        var i :| 0 <= i < n && Some(k) in aliases[..n][i] && Indexed(aliases[..n], es[..n])[k] == es[..n][i];
        assert Some(k) in aliases[i] && Indexed(aliases, es)[k] == es[i];
      }
    }
  }

  /** An entity is found under each of its aliases that no later entity also has. */
  lemma {:induction false} IndexedLatest<T>(aliases: seq<seq<Option<string>>>, es: seq<T>, i: nat, k: string)
    requires |aliases| == |es| && i < |es|
    requires Some(k) in aliases[i]
    requires forall j :: i < j < |es| ==> Some(k) !in aliases[j]
    ensures k in Indexed(aliases, es) && Indexed(aliases, es)[k] == es[i]
    decreases |es|
  {
    var n := |es| - 1;
    if i < n {
      IndexedLatest(aliases[..n], es[..n], i, k);
    }
  }

  /**
   * After the table is built, every entity is found under each of its
   * non-empty aliases unless a later entity has the same alias, and the empty
   * string is never a key.
   */
  lemma IdentityMapFinds<T>(aliases: seq<seq<Option<string>>>, es: seq<T>, i: nat, k: string)
    requires |aliases| == |es| && i < |es|
    requires Some(k) in aliases[i] && k != ""
    requires forall j :: i < j < |es| ==> Some(k) !in aliases[j]
    ensures k in IdentityMap(aliases, es) && IdentityMap(aliases, es)[k] == es[i]
    ensures "" !in IdentityMap(aliases, es)
  {
    IndexedLatest(aliases, es, i, k);
  }

  /**
   * The table holds only non-empty aliases, each under an entity it is an
   * alias of, and every non-empty alias of every entity is a key.
   */
  lemma IdentityMapKeys<T>(aliases: seq<seq<Option<string>>>, es: seq<T>, k: string)
    requires |aliases| == |es|
    ensures k in IdentityMap(aliases, es) <==> k != "" && exists i :: 0 <= i < |es| && Some(k) in aliases[i]
    ensures k in IdentityMap(aliases, es) ==>
      exists i :: 0 <= i < |es| && Some(k) in aliases[i] && IdentityMap(aliases, es)[k] == es[i]
  {
    IndexedKeys(aliases, es, k);
  }

  /** Every entity in the table is one of the entities it was built from. */
  lemma IdentityMapValues<T>(aliases: seq<seq<Option<string>>>, es: seq<T>)
    requires |aliases| == |es|
    ensures forall k :: k in IdentityMap(aliases, es) ==> IdentityMap(aliases, es)[k] in es
  {
    forall k | k in IdentityMap(aliases, es)
      ensures IdentityMap(aliases, es)[k] in es
    {
      IdentityMapKeys(aliases, es, k);
    }
  }

  /**
   * An identifier that differs from an entity's DN only in letter case finds
   * that entity, as long as the entity still owns its lower-cased DN and the
   * identifier is not itself the key of some other entity.
   */
  lemma LookupFindsByLowerCasedDn<T>(aliases: seq<seq<Option<string>>>, es: seq<T>, i: nat, dn: string, key: string)
    requires |aliases| == |es| && i < |es|
    requires LowerOpt(Some(dn)) in aliases[i] && dn != ""
    requires forall j :: i < j < |es| ==> Some(Lower(dn)) !in aliases[j]
    requires Lower(key) == Lower(dn)
    requires key in IdentityMap(aliases, es) ==> IdentityMap(aliases, es)[key] == es[i]
    ensures Lookup(IdentityMap(aliases, es), key) == Some(es[i])
  {
    IdentityMapFinds(aliases, es, i, Lower(dn));
  }

  /**
   * An identifier that is one of an entity's own aliases, held by no later
   * entity, finds that entity, even when its lower-cased form is the key of
   * another entity: the identifier as given is tried first.
   */
  lemma LookupFindsAlias<T>(aliases: seq<seq<Option<string>>>, es: seq<T>, i: nat, k: string)
    requires |aliases| == |es| && i < |es|
    requires Some(k) in aliases[i] && k != ""
    requires forall j :: i < j < |es| ==> Some(k) !in aliases[j]
    ensures Lookup(IdentityMap(aliases, es), k) == Some(es[i])
  {
    IdentityMapFinds(aliases, es, i, k);
  }

  /** The five `set` calls of one loop iteration store the entity under its alias list. */
  lemma PutAliases<T>(m: map<string, T>, ref: string, a: Annotations, e: T)
    ensures PutAll(m, Aliases(ref, a), e)
         == Put(Put(Put(Put(m[ref := e], a.dn, e), LowerOpt(a.dn), e), a.rdn, e), a.uuid, e)
  {
    var m1 := m[ref := e];
    var m2 := Put(m1, a.dn, e);
    var m3 := Put(m2, LowerOpt(a.dn), e);
    var m4 := Put(m3, a.rdn, e);
    AliasesSplit(ref, a);
    PutAllStep(m, Some(ref), [a.dn] + ([LowerOpt(a.dn)] + ([a.rdn] + ([a.uuid] + []))), e);
    PutAllStep(m1, a.dn, [LowerOpt(a.dn)] + ([a.rdn] + ([a.uuid] + [])), e);
    PutAllStep(m2, LowerOpt(a.dn), [a.rdn] + ([a.uuid] + []), e);
    PutAllStep(m3, a.rdn, [a.uuid] + [], e);
    PutAllStep(m4, a.uuid, [], e);
  }

  /** The alias list, one key at a time. */
  lemma AliasesSplit(ref: string, a: Annotations)
    ensures Aliases(ref, a) == [Some(ref)] + ([a.dn] + ([LowerOpt(a.dn)] + ([a.rdn] + ([a.uuid] + []))))
  {
  }

  /** Storing under a first key, then under the rest. */
  lemma PutAllStep<T>(m: map<string, T>, k: Option<string>, keys: seq<Option<string>>, e: T)
    ensures PutAll(m, [k] + keys, e) == PutAll(Put(m, k, e), keys, e)
  {
    assert ([k] + keys)[1..] == keys;
  }

  /** Storing one more entity extends the table built so far. */
  lemma IndexedStep<T>(aliases: seq<seq<Option<string>>>, es: seq<T>, i: nat)
    requires |aliases| == |es| && i < |es|
    ensures Indexed(aliases[..i + 1], es[..i + 1]) == PutAll(Indexed(aliases[..i], es[..i]), aliases[i], es[i])
  {
    assert aliases[..i + 1][..i] == aliases[..i];
    assert es[..i + 1][..i] == es[..i];
  }

  /**
   * The user loop of the table build: each user is stored under its
   * reference, DN, lower-cased DN, RDN and UUID; then the empty key goes.
   */
  method IndexUsers(users: seq<User>) returns (userMap: map<string, User>)
    ensures userMap == UserIdentityMap(users)
  {
    userMap := map[];
    for i := 0 to |users|
      invariant userMap == Indexed(UserAliases(users)[..i], users[..i])
    {
      var user := users[i];
      var a := user.metadata.annotations;
      PutAliases(userMap, UserRef(user), a, user);
      IndexedStep(UserAliases(users), users, i);
      userMap := userMap[UserRef(user) := user];
      userMap := Put(userMap, a.dn, user);
      userMap := Put(userMap, LowerOpt(a.dn), user);
      userMap := Put(userMap, a.rdn, user);
      userMap := Put(userMap, a.uuid, user);
    }
    assert UserAliases(users)[..|users|] == UserAliases(users);
    assert users[..|users|] == users;
    userMap := userMap - {""};
  }

  /**
   * The group loop of the table build: each group is stored under its
   * reference, DN, lower-cased DN, RDN and UUID; then the empty key goes.
   */
  method IndexGroups(groups: seq<Group>) returns (groupMap: map<string, Group>)
    ensures groupMap == GroupIdentityMap(groups)
  {
    groupMap := map[];
    for i := 0 to |groups|
      invariant groupMap == Indexed(GroupAliases(groups)[..i], groups[..i])
    {
      var group := groups[i];
      var a := group.metadata.annotations;
      PutAliases(groupMap, GroupRef(group), a, group);
      IndexedStep(GroupAliases(groups), groups, i);
      groupMap := groupMap[GroupRef(group) := group];
      groupMap := Put(groupMap, a.dn, group);
      groupMap := Put(groupMap, LowerOpt(a.dn), group);
      groupMap := Put(groupMap, a.rdn, group);
      groupMap := Put(groupMap, a.uuid, group);
    }
    assert GroupAliases(groups)[..|groups|] == GroupAliases(groups);
    assert groups[..|groups|] == groups;
    groupMap := groupMap - {""};
  }
}
