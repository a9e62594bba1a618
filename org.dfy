/**
 * `readLdapOrg`: reads users, then groups, then resolves the relations
 * between them; and two small organisations worked through end to end.
 */
module Org {
  import opened Wrappers
  import opened Text
  import opened Entities
  import opened Edges
  import opened Read
  import opened Identity
  import opened Resolve

  /**
   * `readLdapOrg`: the users' reader runs first and the groups' reader only
   * when it succeeded; the first `InputError` is the result. Otherwise the
   * entities are those the readers made, with their relations resolved.
   */
  method ReadLdapOrg(search: Search, vendorDefaults: Vendor, userConfig: seq<UserConfig>, groupConfig: seq<GroupConfig>,
                     vendorConfig: Option<VendorConfig>, userTransformer: Option<UserTransformer>,
                     groupTransformer: Option<GroupTransformer>)
    returns (r: Result<(seq<User>, seq<Group>), InputError>)
    ensures var us := UsersReadSpec(search, vendorDefaults, userConfig, vendorConfig, userTransformer);
      var gs := GroupsReadSpec(search, vendorDefaults, groupConfig, vendorConfig, groupTransformer);
      && (r.Failure? <==> us.Failure? || gs.Failure?)
      && (r.Failure? ==> r.error == (if us.Failure? then us.error else gs.error))
      && (r.Success? ==> |r.value.0| == |us.value.users| && |r.value.1| == |gs.value.groups|)
    ensures r.Success? ==>
      var us := UsersReadSpec(search, vendorDefaults, userConfig, vendorConfig, userTransformer).value;
      var gs := GroupsReadSpec(search, vendorDefaults, groupConfig, vendorConfig, groupTransformer).value;
      var (users, groups) := r.value;
      && (forall i :: 0 <= i < |users| ==>
            fresh(users[i]) && users[i].metadata == us.users[i].metadata && users[i].profile == us.users[i].profile)
      && (forall i :: 0 <= i < |groups| ==>
            && fresh(groups[i]) && groups[i].metadata == gs.groups[i].metadata
            && groups[i].groupType == gs.groups[i].groupType && groups[i].profile == gs.groups[i].profile)
      && (OwnRefs(users, groups) ==> forall i :: 0 <= i < |users| ==>
            MembershipsResolved(TablesOf(users, groups), us.userMemberOf, gs.groupMember, users[i], us.users[i].memberOf))
      && (OwnRefs(users, groups) ==> forall i :: 0 <= i < |groups| ==>
            && ParentResolved(TablesOf(users, groups), gs.groupMemberOf, gs.groupMember, groups[i], gs.groups[i].parent)
            && ChildrenResolved(TablesOf(users, groups), gs.groupMemberOf, gs.groupMember, groups[i], gs.groups[i].children))
  {
    var usersRead := ReadLdapUsers(search, vendorDefaults, userConfig, vendorConfig, userTransformer);
    if usersRead.Failure? {
      return Failure(usersRead.error);
    }
    var groupsRead := ReadLdapGroups(search, vendorDefaults, groupConfig, vendorConfig, groupTransformer);
    if groupsRead.Failure? {
      return Failure(groupsRead.error);
    }
    var (users, userMemberOf) := usersRead.value;
    var (groups, groupMemberOf, groupMember) := groupsRead.value;
    ResolveRelations(groups, users, userMemberOf, groupMemberOf, groupMember);
    return Success((users, groups));
  }

  function NoProfile(): Profile {
    Profile(None, None, None)
  }

  /** A group as the default transformer makes it from a record with a name and a DN only. */
  function PlainGroup(name: string, dn: string): GroupData {
    GroupData(Metadata(name, None, Annotations(Some(dn), None, None)), "unknown", NoProfile(), None, [])
  }

  /** A user as the default transformer makes it from a record with a name and a DN only. */
  function PlainUser(name: string, dn: string): UserData {
    UserData(Metadata(name, None, Annotations(Some(dn), None, None)), NoProfile(), [])
  }

  /** The aliases of an entity that has a DN and no RDN or UUID. */
  lemma DnOnlyAliases(ref: string, a: Annotations, dn: string)
    requires a == Annotations(Some(dn), None, None)
    ensures Aliases(ref, a) == [Some(ref), Some(dn), Some(Lower(dn)), None, None]
  {
  }

  /**
   * A single raw edge `n -> {m}` links exactly the entity `n` resolves to with
   * the entity `m` resolves to.
   */
  lemma LinkedSingle(t: Tables, n: string, m: string, from: Side, to: Side)
    ensures forall a, b ::
      Linked(t, map[n := {m}], map[n := {m}].Keys, from, to, a, b) <==> RefOf(t, from, n) == Some(a) && RefOf(t, to, m) == Some(b)
  {
    TargetsAdd(t, to, {}, m);
    assert {} + {m} == {m};
  }

  lemma LowerG1() ensures Lower("cn=g1,dc=x") == "cn=g1,dc=x" { LowerNoCapitals("cn=g1,dc=x"); }
  lemma LowerG2() ensures Lower("cn=g2,dc=x") == "cn=g2,dc=x" { LowerNoCapitals("cn=g2,dc=x"); }
  lemma LowerG3() ensures Lower("cn=g3,dc=x") == "cn=g3,dc=x" { LowerNoCapitals("cn=g3,dc=x"); }
  lemma LowerG4() ensures Lower("cn=g4,dc=x") == "cn=g4,dc=x" { LowerNoCapitals("cn=g4,dc=x"); }
  lemma LowerG5() ensures Lower("cn=g5,dc=x") == "cn=g5,dc=x" { LowerNoCapitals("cn=g5,dc=x"); }

  /** The group names of both organisations are their own lower-cased forms. */
  lemma LowerNames()
    ensures Lower("g1") == "g1" && Lower("g2") == "g2" && Lower("g3") == "g3" && Lower("g4") == "g4"
  {
    LowerNoCapitals("g1");
    LowerNoCapitals("g2");
    LowerNoCapitals("g3");
    LowerNoCapitals("g4");
  }

  /** Two groups whose names differ even when lower-cased have different references, both starting with `g`. */
  lemma GroupRefsDiffer(g: Group, h: Group)
    requires Lower(g.metadata.name) != Lower(h.metadata.name)
    ensures GroupRef(g) != GroupRef(h) && GroupRef(g)[0] == 'g' && GroupRef(h)[0] == 'g'
  {
    RefInjective(GroupKind, g.metadata.name, h.metadata.name);
  }

  lemma LowerUpperG2()
    ensures Lower("CN=G2,DC=X") == "cn=g2,dc=x"
  {
    var s, t := "CN=G2,DC=X", "cn=g2,dc=x";
    assert forall i :: 0 <= i < |s| ==> LowerChar(s[i]) == t[i];
  }

  /**
   * The group table of two groups that each carry only a DN, already in
   * lower case: each is found by its reference and its DN, and an identifier
   * that is none of these is not a key.
   */
  lemma DnOnlyGroupPair(g1: Group, g2: Group, dn1: string, dn2: string, other: string)
    requires g1.metadata.annotations == Annotations(Some(dn1), None, None)
    requires g2.metadata.annotations == Annotations(Some(dn2), None, None)
    requires dn1 != "" && dn2 != "" && Lower(dn1) == dn1 && Lower(dn2) == dn2
    requires GroupRef(g1) != GroupRef(g2) && GroupRef(g1) != dn2 && dn1 != GroupRef(g2) && dn1 != dn2
    requires other != GroupRef(g1) && other != dn1 && other != GroupRef(g2) && other != dn2
    ensures Lookup(GroupIdentityMap([g1, g2]), GroupRef(g1)) == Some(g1)
    ensures Lookup(GroupIdentityMap([g1, g2]), GroupRef(g2)) == Some(g2)
    ensures Lookup(GroupIdentityMap([g1, g2]), dn1) == Some(g1)
    ensures Lookup(GroupIdentityMap([g1, g2]), dn2) == Some(g2)
    ensures dn1 in GroupIdentityMap([g1, g2]) && GroupIdentityMap([g1, g2])[dn1] == g1
    ensures dn2 in GroupIdentityMap([g1, g2]) && GroupIdentityMap([g1, g2])[dn2] == g2
    ensures other !in GroupIdentityMap([g1, g2])
  {
    var ga := GroupAliases([g1, g2]);
    DnOnlyAliases(GroupRef(g1), g1.metadata.annotations, dn1);
    DnOnlyAliases(GroupRef(g2), g2.metadata.annotations, dn2);
    DnOnlyGroupFound(ga, [g1, g2], 0, GroupRef(g1), dn1);
    DnOnlyGroupFound(ga, [g1, g2], 1, GroupRef(g2), dn2);
    AbsentFromPair(ga, [g1, g2], other);
  }

  /** An identifier that is no alias of either of two entities is not a key. */
  lemma AbsentFromPair<T>(aliases: seq<seq<Option<string>>>, es: seq<T>, k: string)
    requires |aliases| == |es| == 2
    requires Some(k) !in aliases[0] && Some(k) !in aliases[1]
    ensures k !in IdentityMap(aliases, es)
  {
    IdentityMapKeys(aliases, es, k);
  }

  /** Two groups found by their own references. */
  lemma PairOwnRefs(m: map<string, Group>, g1: Group, g2: Group)
    requires Lookup(m, GroupRef(g1)) == Some(g1) && Lookup(m, GroupRef(g2)) == Some(g2)
    ensures forall g :: g in [g1, g2] ==> Lookup(m, GroupRef(g)) == Some(g)
  {
  }

  /** An entity whose reference and DN no later entity has is found by both. */
  lemma DnOnlyGroupFound(ga: seq<seq<Option<string>>>, gs: seq<Group>, i: nat, ref: string, dn: string)
    requires |ga| == |gs| && i < |gs|
    requires ga[i] == [Some(ref), Some(dn), Some(Lower(dn)), None, None]
    requires ref != "" && dn != ""
    requires forall j :: i < j < |gs| ==> Some(ref) !in ga[j] && Some(dn) !in ga[j]
    ensures Lookup(IdentityMap(ga, gs), ref) == Some(gs[i])
    ensures Lookup(IdentityMap(ga, gs), dn) == Some(gs[i])
    ensures dn in IdentityMap(ga, gs) && IdentityMap(ga, gs)[dn] == gs[i]
  {
    IdentityMapFinds(ga, gs, i, ref);
    IdentityMapFinds(ga, gs, i, dn);
  }

  /** The user table of the first organisation. */
  lemma FirstOrgUsers(u1: User)
    requires u1.metadata == PlainUser("u1", "cn=u1,dc=x").metadata
    ensures Lookup(UserIdentityMap([u1]), UserRef(u1)) == Some(u1)
    ensures Lookup(UserIdentityMap([u1]), "cn=u1,dc=x") == Some(u1)
  {
    var ua := UserAliases([u1]);
    DnOnlyAliases(UserRef(u1), u1.metadata.annotations, "cn=u1,dc=x");
    IdentityMapFinds(ua, [u1], 0, UserRef(u1));
    IdentityMapFinds(ua, [u1], 0, "cn=u1,dc=x");
  }

  /** The group table of the first organisation; `g2`'s DN is found in upper case too. */
  lemma FirstOrgGroups(g1: Group, g2: Group)
    requires g1.metadata == PlainGroup("g1", "cn=g1,dc=x").metadata
    requires g2.metadata == PlainGroup("g2", "cn=g2,dc=x").metadata
    ensures Lookup(GroupIdentityMap([g1, g2]), GroupRef(g1)) == Some(g1)
    ensures Lookup(GroupIdentityMap([g1, g2]), GroupRef(g2)) == Some(g2)
    ensures Lookup(GroupIdentityMap([g1, g2]), "cn=g1,dc=x") == Some(g1)
    ensures Lookup(GroupIdentityMap([g1, g2]), "cn=g2,dc=x") == Some(g2)
    ensures Lookup(GroupIdentityMap([g1, g2]), "CN=G2,DC=X") == Some(g2)
  {
    LowerG1();
    LowerG2();
    LowerNames();
    GroupRefsDiffer(g1, g2);
    DnOnlyGroupPair(g1, g2, "cn=g1,dc=x", "cn=g2,dc=x", "CN=G2,DC=X");
    LowerUpperG2();
  }

  /** The relations of the first organisation: `u1` is in `g2`, and `g1` is the parent of `g2`. */
  lemma FirstOrgRelations(t: Tables, u1: User, g1: Group, g2: Group)
    requires Lookup(t.users, "cn=u1,dc=x") == Some(u1)
    requires Lookup(t.groups, "cn=g1,dc=x") == Some(g1)
    requires Lookup(t.groups, "cn=g2,dc=x") == Some(g2)
    requires Lookup(t.groups, "CN=G2,DC=X") == Some(g2)
    ensures forall a, b ::
      MemberOf(t, map["cn=u1,dc=x" := {"CN=G2,DC=X"}], map[], a, b) <==> a == UserRef(u1) && b == GroupRef(g2)
    ensures forall c, p ::
      ParentOf(t, map["cn=g2,dc=x" := {"cn=g1,dc=x"}], map[], c, p) <==> c == GroupRef(g2) && p == GroupRef(g1)
  {
    LinkedSingle(t, "cn=u1,dc=x", "CN=G2,DC=X", AsUser, AsGroup);
    LinkedSingle(t, "cn=g2,dc=x", "cn=g1,dc=x", AsGroup, AsGroup);
  }

  /** What the resolver's guarantees come to for the first organisation. */
  lemma FirstOrgOutcome(t: Tables, userMemberOf: EdgeMap, groupMemberOf: EdgeMap, u1: User, g1: Group, g2: Group)
    requires GroupRef(g1) != GroupRef(g2)
    requires forall a, b :: MemberOf(t, userMemberOf, map[], a, b) <==> a == UserRef(u1) && b == GroupRef(g2)
    requires forall c, p :: ParentOf(t, groupMemberOf, map[], c, p) <==> c == GroupRef(g2) && p == GroupRef(g1)
    requires MembershipsResolved(t, userMemberOf, map[], u1, [])
    requires ParentResolved(t, groupMemberOf, map[], g1, None) && ParentResolved(t, groupMemberOf, map[], g2, None)
    requires ChildrenResolved(t, groupMemberOf, map[], g1, []) && ChildrenResolved(t, groupMemberOf, map[], g2, [])
    ensures u1.memberOf == [GroupRef(g2)]
    ensures g2.parent == Some(GroupRef(g1)) && g1.children == [GroupRef(g2)]
    ensures g1.parent == None && g2.children == []
  {
    assert MemberOf(t, userMemberOf, map[], UserRef(u1), GroupRef(g2));
    SortedListSingleton(u1.memberOf, GroupRef(g2));
    assert UniqueParent(t, groupMemberOf, map[], GroupRef(g2), GroupRef(g1));
    assert ParentOf(t, groupMemberOf, map[], GroupRef(g2), GroupRef(g1));
    SortedListSingleton(g1.children, GroupRef(g2));
  }

  /**
   * The resolver's guarantees, as it states them for the first organisation,
   * come to the expected relations.
   */
  lemma FirstOrgResolved(u1: User, g1: Group, g2: Group, userMemberOf: EdgeMap, groupMemberOf: EdgeMap)
    requires u1.metadata == PlainUser("u1", "cn=u1,dc=x").metadata
    requires g1.metadata == PlainGroup("g1", "cn=g1,dc=x").metadata
    requires g2.metadata == PlainGroup("g2", "cn=g2,dc=x").metadata
    requires userMemberOf == map["cn=u1,dc=x" := {"CN=G2,DC=X"}]
    requires groupMemberOf == map["cn=g2,dc=x" := {"cn=g1,dc=x"}]
    requires OwnRefs([u1], [g1, g2]) ==> MembershipsResolved(TablesOf([u1], [g1, g2]), userMemberOf, map[], u1, [])
    requires OwnRefs([u1], [g1, g2]) ==>
      && ParentResolved(TablesOf([u1], [g1, g2]), groupMemberOf, map[], g1, None)
      && ParentResolved(TablesOf([u1], [g1, g2]), groupMemberOf, map[], g2, None)
      && ChildrenResolved(TablesOf([u1], [g1, g2]), groupMemberOf, map[], g1, [])
      && ChildrenResolved(TablesOf([u1], [g1, g2]), groupMemberOf, map[], g2, [])
    ensures u1.memberOf == [GroupRef(g2)]
    ensures g2.parent == Some(GroupRef(g1)) && g1.children == [GroupRef(g2)]
    ensures g1.parent == None && g2.children == []
  {
    FirstOrgOwnRefs(u1, g1, g2);
    FirstOrgRelationsOfTables(u1, g1, g2);
    LowerNames();
    GroupRefsDiffer(g1, g2);
    FirstOrgOutcome(TablesOf([u1], [g1, g2]), userMemberOf, groupMemberOf, u1, g1, g2);
  }

  /** In the first organisation every entity's reference finds it. */
  lemma FirstOrgOwnRefs(u1: User, g1: Group, g2: Group)
    requires u1.metadata == PlainUser("u1", "cn=u1,dc=x").metadata
    requires g1.metadata == PlainGroup("g1", "cn=g1,dc=x").metadata
    requires g2.metadata == PlainGroup("g2", "cn=g2,dc=x").metadata
    ensures OwnRefs([u1], [g1, g2])
  {
    FirstOrgUsers(u1);
    FirstOrgGroups(g1, g2);
    PairOwnRefs(GroupIdentityMap([g1, g2]), g1, g2);
    forall u | u in [u1]
      ensures Lookup(UserIdentityMap([u1]), UserRef(u)) == Some(u)
    {
      assert u == u1;
    }
  }

  /** The relations of the first organisation, on the tables the resolver builds. */
  lemma FirstOrgRelationsOfTables(u1: User, g1: Group, g2: Group)
    requires u1.metadata == PlainUser("u1", "cn=u1,dc=x").metadata
    requires g1.metadata == PlainGroup("g1", "cn=g1,dc=x").metadata
    requires g2.metadata == PlainGroup("g2", "cn=g2,dc=x").metadata
    ensures forall a, b ::
      MemberOf(TablesOf([u1], [g1, g2]), map["cn=u1,dc=x" := {"CN=G2,DC=X"}], map[], a, b) <==> a == UserRef(u1) && b == GroupRef(g2)
    ensures forall c, p ::
      ParentOf(TablesOf([u1], [g1, g2]), map["cn=g2,dc=x" := {"cn=g1,dc=x"}], map[], c, p) <==> c == GroupRef(g2) && p == GroupRef(g1)
  {
    FirstOrgUsers(u1);
    FirstOrgGroups(g1, g2);
    FirstOrgRelations(TablesOf([u1], [g1, g2]), u1, g1, g2);
  }

  /**
   * Groups `g1` and `g2` and user `u1`: `g2`'s `memberOf` names `g1`'s DN, and
   * `u1`'s `memberOf` names `g2`'s DN in upper case. `g2`'s parent becomes
   * `g1`, `g1`'s children become `[g2]` and `u1`'s memberships `[g2]`; the
   * case mismatch does not matter.
   */
  method FirstOrg() returns (u1: User, g1: Group, g2: Group)
    ensures u1.memberOf == [GroupRef(g2)]
    ensures g2.parent == Some(GroupRef(g1)) && g1.children == [GroupRef(g2)]
    ensures g1.parent == None && g2.children == []
  {
    g1 := new Group(PlainGroup("g1", "cn=g1,dc=x"));
    g2 := new Group(PlainGroup("g2", "cn=g2,dc=x"));
    u1 := new User(PlainUser("u1", "cn=u1,dc=x"));
    var userMemberOf: EdgeMap := map["cn=u1,dc=x" := {"CN=G2,DC=X"}];
    var groupMemberOf: EdgeMap := map["cn=g2,dc=x" := {"cn=g1,dc=x"}];
    ResolveRelations([g1, g2], [u1], userMemberOf, groupMemberOf, map[]);
    assert u1 in [u1] && g1 in [g1, g2] && g2 in [g1, g2];
    FirstOrgResolved(u1, g1, g2, userMemberOf, groupMemberOf);
  }

  /** The group table of the second organisation; `g5` is not in it. */
  lemma SecondOrgGroups(g3: Group, g4: Group)
    requires g3.metadata == PlainGroup("g3", "cn=g3,dc=x").metadata
    requires g4.metadata == PlainGroup("g4", "cn=g4,dc=x").metadata
    ensures Lookup(GroupIdentityMap([g3, g4]), GroupRef(g3)) == Some(g3)
    ensures Lookup(GroupIdentityMap([g3, g4]), GroupRef(g4)) == Some(g4)
    ensures Lookup(GroupIdentityMap([g3, g4]), "cn=g3,dc=x") == Some(g3)
    ensures Lookup(GroupIdentityMap([g3, g4]), "cn=g4,dc=x") == Some(g4)
    ensures Lookup(GroupIdentityMap([g3, g4]), "cn=g5,dc=x") == None
  {
    LowerG3();
    LowerG4();
    LowerNames();
    GroupRefsDiffer(g3, g4);
    DnOnlyGroupPair(g3, g4, "cn=g3,dc=x", "cn=g4,dc=x", "cn=g5,dc=x");
    LowerG5();
  }

  /** With no users read, the user table is empty. */
  lemma NoUsers()
    ensures UserIdentityMap([]) == map[]
  {
  }

  /**
   * The relations of the second organisation: `g3` is the parent of `g4` by
   * its `member` list, and `g4`'s `memberOf` edge to the unread `g5` is dropped.
   */
  lemma SecondOrgRelations(t: Tables, g3: Group, g4: Group)
    requires RefOf(t, AsGroup, "cn=g3,dc=x") == Some(GroupRef(g3))
    requires RefOf(t, AsGroupNotUser, "cn=g4,dc=x") == Some(GroupRef(g4))
    requires RefOf(t, AsGroup, "cn=g5,dc=x") == None
    ensures forall c, p ::
      ParentOf(t, map["cn=g4,dc=x" := {"cn=g5,dc=x"}], map["cn=g3,dc=x" := {"cn=g4,dc=x"}], c, p) <==> c == GroupRef(g4) && p == GroupRef(g3)
  {
    LinkedSingle(t, "cn=g4,dc=x", "cn=g5,dc=x", AsGroup, AsGroup);
    LinkedSingle(t, "cn=g3,dc=x", "cn=g4,dc=x", AsGroup, AsGroupNotUser);
  }

  /** What the resolver's guarantees come to for the second organisation. */
  lemma SecondOrgOutcome(t: Tables, groupMemberOf: EdgeMap, groupMember: EdgeMap, g3: Group, g4: Group)
    requires GroupRef(g3) != GroupRef(g4)
    requires forall c, p :: ParentOf(t, groupMemberOf, groupMember, c, p) <==> c == GroupRef(g4) && p == GroupRef(g3)
    requires ParentResolved(t, groupMemberOf, groupMember, g3, None) && ParentResolved(t, groupMemberOf, groupMember, g4, None)
    requires ChildrenResolved(t, groupMemberOf, groupMember, g3, []) && ChildrenResolved(t, groupMemberOf, groupMember, g4, [])
    ensures g3.children == [GroupRef(g4)] && g4.parent == Some(GroupRef(g3))
    ensures g3.parent == None && g4.children == []
  {
    assert UniqueParent(t, groupMemberOf, groupMember, GroupRef(g4), GroupRef(g3));
    assert ParentOf(t, groupMemberOf, groupMember, GroupRef(g4), GroupRef(g3));
    SortedListSingleton(g3.children, GroupRef(g4));
  }

  /**
   * The resolver's guarantees, as it states them for the second
   * organisation, come to the expected relations.
   */
  lemma SecondOrgResolved(g3: Group, g4: Group, groupMemberOf: EdgeMap, groupMember: EdgeMap)
    requires g3.metadata == PlainGroup("g3", "cn=g3,dc=x").metadata
    requires g4.metadata == PlainGroup("g4", "cn=g4,dc=x").metadata
    requires groupMemberOf == map["cn=g4,dc=x" := {"cn=g5,dc=x"}]
    requires groupMember == map["cn=g3,dc=x" := {"cn=g4,dc=x"}]
    requires ParentResolved(TablesOf([], [g3, g4]), groupMemberOf, groupMember, g3, None)
    requires ParentResolved(TablesOf([], [g3, g4]), groupMemberOf, groupMember, g4, None)
    requires ChildrenResolved(TablesOf([], [g3, g4]), groupMemberOf, groupMember, g3, [])
    requires ChildrenResolved(TablesOf([], [g3, g4]), groupMemberOf, groupMember, g4, [])
    ensures g3.children == [GroupRef(g4)] && g4.parent == Some(GroupRef(g3))
    ensures g3.parent == None && g4.children == []
  {
    SecondOrgRelationsOfTables(g3, g4);
    LowerNames();
    GroupRefsDiffer(g3, g4);
    SecondOrgOutcome(TablesOf([], [g3, g4]), groupMemberOf, groupMember, g3, g4);
  }

  /** In the second organisation every entity's reference finds it. */
  lemma SecondOrgOwnRefs(g3: Group, g4: Group)
    requires g3.metadata == PlainGroup("g3", "cn=g3,dc=x").metadata
    requires g4.metadata == PlainGroup("g4", "cn=g4,dc=x").metadata
    ensures OwnRefs([], [g3, g4])
  {
    SecondOrgGroups(g3, g4);
    PairOwnRefs(GroupIdentityMap([g3, g4]), g3, g4);
  }

  /** `g3`'s DN resolves to `g3` on the tables the resolver builds. */
  lemma SecondOrgRefG3(g3: Group, g4: Group)
    requires g3.metadata == PlainGroup("g3", "cn=g3,dc=x").metadata
    requires g4.metadata == PlainGroup("g4", "cn=g4,dc=x").metadata
    ensures RefOf(TablesOf([], [g3, g4]), AsGroup, "cn=g3,dc=x") == Some(GroupRef(g3))
  {
    SecondOrgGroups(g3, g4);
    NoUsers();
  }

  /** `g4`'s DN resolves to `g4`, and to no user, on the tables the resolver builds. */
  lemma SecondOrgRefG4(g3: Group, g4: Group)
    requires g3.metadata == PlainGroup("g3", "cn=g3,dc=x").metadata
    requires g4.metadata == PlainGroup("g4", "cn=g4,dc=x").metadata
    ensures RefOf(TablesOf([], [g3, g4]), AsGroupNotUser, "cn=g4,dc=x") == Some(GroupRef(g4))
  {
    SecondOrgGroups(g3, g4);
    NoUsers();
  }

  /** The unread `g5`'s DN resolves to nothing on the tables the resolver builds. */
  lemma SecondOrgRefG5(g3: Group, g4: Group)
    requires g3.metadata == PlainGroup("g3", "cn=g3,dc=x").metadata
    requires g4.metadata == PlainGroup("g4", "cn=g4,dc=x").metadata
    ensures RefOf(TablesOf([], [g3, g4]), AsGroup, "cn=g5,dc=x") == None
  {
    SecondOrgGroups(g3, g4);
  }

  /** The relations of the second organisation, on the tables the resolver builds. */
  lemma SecondOrgRelationsOfTables(g3: Group, g4: Group)
    requires g3.metadata == PlainGroup("g3", "cn=g3,dc=x").metadata
    requires g4.metadata == PlainGroup("g4", "cn=g4,dc=x").metadata
    ensures forall c, p ::
      (ParentOf(TablesOf([], [g3, g4]), map["cn=g4,dc=x" := {"cn=g5,dc=x"}], map["cn=g3,dc=x" := {"cn=g4,dc=x"}], c, p)
       <==> c == GroupRef(g4) && p == GroupRef(g3))
  {
    SecondOrgRefG3(g3, g4);
    SecondOrgRefG4(g3, g4);
    SecondOrgRefG5(g3, g4);
    SecondOrgRelations(TablesOf([], [g3, g4]), g3, g4);
  }

  /**
   * Groups `g3` and `g4`: `g3`'s `member` names `g4`, and `g4`'s `memberOf`
   * names `g5`, which was not read. `g3`'s children become `[g4]`, `g4`'s
   * parent becomes `g3`, and the dangling reference leaves no trace.
   */
  method SecondOrg() returns (g3: Group, g4: Group)
    ensures g3.children == [GroupRef(g4)] && g4.parent == Some(GroupRef(g3))
    ensures g3.parent == None && g4.children == []
  {
    g3 := new Group(PlainGroup("g3", "cn=g3,dc=x"));
    g4 := new Group(PlainGroup("g4", "cn=g4,dc=x"));
    var groupMemberOf: EdgeMap := map["cn=g4,dc=x" := {"cn=g5,dc=x"}];
    var groupMember: EdgeMap := map["cn=g3,dc=x" := {"cn=g4,dc=x"}];
    ResolveRelations([g3, g4], [], map[], groupMemberOf, groupMember);
    SecondOrgOwnRefs(g3, g4);
    assert g3 in [g3, g4] && g4 in [g3, g4];
    SecondOrgResolved(g3, g4, groupMemberOf, groupMember);
  }
}
