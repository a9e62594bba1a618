/**
 * The raw readers: every configured search is streamed record by record; each
 * record the transformer accepts becomes an entity, and its reference
 * attributes are recorded as raw edges keyed by the record's own DN.
 */
module Read {
  import opened Wrappers
  import opened Entities
  import opened Edges

  /** `client.searchStreaming`: the records under a base DN that match the options, in order. */
  type Search = (string, SearchOptions) -> seq<Entry>

  type UserTransformer = (Vendor, UserConfig, Entry) -> Transformed<UserData>

  type GroupTransformer = (Vendor, GroupConfig, Entry) -> Transformed<GroupData>

  /** `opts?.transformer ?? defaultUserTransformer` */
  function ChosenUserTransformer(custom: Option<UserTransformer>): UserTransformer {
    if custom.Some? then custom.value else DefaultUserTransformer
  }

  /** `opts?.transformer ?? defaultGroupTransformer` */
  function ChosenGroupTransformer(custom: Option<GroupTransformer>): GroupTransformer {
    if custom.Some? then custom.value else DefaultGroupTransformer
  }

  datatype UsersRead = UsersRead(users: seq<UserData>, userMemberOf: EdgeMap)

  datatype GroupsRead = GroupsRead(groups: seq<GroupData>, groupMemberOf: EdgeMap, groupMember: EdgeMap)

  // ---------------------------------------------------------------------------
  // Users
  // ---------------------------------------------------------------------------

  /** One record through the user reader's search callback; a thrown error ends the read. */
  function UserStep(vendor: Vendor, transform: UserTransformer, cfg: UserConfig,
                    acc: Result<UsersRead, InputError>, entry: Entry): Result<UsersRead, InputError>
  {
    match acc
    case Failure(e) => Failure(e)
    case Success(read) =>
      match transform(vendor, cfg, entry)
      case Reject(e) => Failure(e)
      case Skip => acc
      case Emit(u) =>
        Success(UsersRead(read.users + [u], Recorded(read.userMemberOf, vendor, entry, cfg.attributes.memberOf)))
  }

  /** The records of one search, in order, after `acc`. */
  function ScanUserEntries(vendor: Vendor, transform: UserTransformer, cfg: UserConfig,
                           entries: seq<Entry>, acc: Result<UsersRead, InputError>): Result<UsersRead, InputError>
    decreases |entries|
  {
    if entries == [] then acc
    else
      var before := ScanUserEntries(vendor, transform, cfg, entries[..|entries| - 1], acc);
      UserStep(vendor, transform, cfg, before, entries[|entries| - 1])
  }

  /** All configured searches, one after the other. */
  function ScanUserConfigs(search: Search, vendor: Vendor, transform: UserTransformer,
                           configs: seq<UserConfig>): Result<UsersRead, InputError>
    decreases |configs|
  {
    if configs == [] then Success(UsersRead([], map[]))
    else
      var cfg := configs[|configs| - 1];
      var before := ScanUserConfigs(search, vendor, transform, configs[..|configs| - 1]);
      ScanUserEntries(vendor, transform, cfg, search(cfg.dn, cfg.options), before)
  }

  /** What `readLdapUsers` returns, as values. */
  ghost function UsersReadSpec(search: Search, vendorDefaults: Vendor, userConfig: seq<UserConfig>,
                               vendorConfig: Option<VendorConfig>, transformer: Option<UserTransformer>): Result<UsersRead, InputError>
  {
    ScanUserConfigs(search, EffectiveVendor(vendorDefaults, vendorConfig), ChosenUserTransformer(transformer), userConfig)
  }

  lemma {:induction false} UserEntriesKeepFailure(vendor: Vendor, transform: UserTransformer, cfg: UserConfig,
                                                  entries: seq<Entry>, e: InputError)
    ensures ScanUserEntries(vendor, transform, cfg, entries, Failure(e)) == Failure(e)
    decreases |entries|
  {
    if entries != [] {
      UserEntriesKeepFailure(vendor, transform, cfg, entries[..|entries| - 1], e);
    }
  }

  /** Once a record throws, the rest of its search changes nothing. */
  lemma {:induction false} UserEntriesFailPrefix(vendor: Vendor, transform: UserTransformer, cfg: UserConfig,
                                                 entries: seq<Entry>, n: nat, acc: Result<UsersRead, InputError>)
    requires n <= |entries|
    requires ScanUserEntries(vendor, transform, cfg, entries[..n], acc).Failure?
    ensures ScanUserEntries(vendor, transform, cfg, entries, acc) == ScanUserEntries(vendor, transform, cfg, entries[..n], acc)
    decreases |entries|
  {
    if n < |entries| {
      var m := |entries| - 1;
      assert entries[..m][..n] == entries[..n];
      UserEntriesFailPrefix(vendor, transform, cfg, entries[..m], n, acc);
    } else {
      assert entries[..n] == entries;
    }
  }

  /** Once a record throws, the remaining searches change nothing. */
  lemma {:induction false} UserConfigsFailPrefix(search: Search, vendor: Vendor, transform: UserTransformer,
                                                 configs: seq<UserConfig>, n: nat)
    requires n <= |configs|
    requires ScanUserConfigs(search, vendor, transform, configs[..n]).Failure?
    ensures ScanUserConfigs(search, vendor, transform, configs) == ScanUserConfigs(search, vendor, transform, configs[..n])
    decreases |configs|
  {
    if n < |configs| {
      var m := |configs| - 1;
      assert configs[..m][..n] == configs[..n];
      UserConfigsFailPrefix(search, vendor, transform, configs[..m], n);
      var cfg := configs[m];
      UserEntriesKeepFailure(vendor, transform, cfg, search(cfg.dn, cfg.options),
                             ScanUserConfigs(search, vendor, transform, configs[..m]).error);
    } else {
      assert configs[..n] == configs;
    }
  }

  /** Recording a record's attribute adds exactly the edges it contributes. */
  lemma RecordedEdges(m: EdgeMap, vendor: Vendor, entry: Entry, attributeName: string)
    ensures forall k, v :: Related(Recorded(m, vendor, entry, attributeName), k, v) <==>
      Related(m, k, v) || Contributes(vendor, entry, attributeName, k, v)
    ensures forall k :: k in Recorded(m, vendor, entry, attributeName) <==>
      k in m || ContributesKey(vendor, entry, attributeName, k)
  {
  }

  /** A record of one search that the transformer accepts and whose memberships name `k -> v`. */
  ghost predicate UserEdgeIn(vendor: Vendor, transform: UserTransformer, cfg: UserConfig,
                             entries: seq<Entry>, k: string, v: string)
  {
    exists entry :: entry in entries && transform(vendor, cfg, entry).Emit?
      && Contributes(vendor, entry, cfg.attributes.memberOf, k, v)
  }

  /** A record of one search that the transformer accepts and whose own DN is `k`. */
  ghost predicate UserKeyIn(vendor: Vendor, transform: UserTransformer, cfg: UserConfig,
                            entries: seq<Entry>, k: string)
  {
    exists entry :: entry in entries && transform(vendor, cfg, entry).Emit?
      && ContributesKey(vendor, entry, cfg.attributes.memberOf, k)
  }

  lemma {:induction false} UserEntriesEdges(vendor: Vendor, transform: UserTransformer, cfg: UserConfig,
                                            entries: seq<Entry>, acc: Result<UsersRead, InputError>)
    requires ScanUserEntries(vendor, transform, cfg, entries, acc).Success?
    ensures acc.Success?
    ensures var r := ScanUserEntries(vendor, transform, cfg, entries, acc).value;
      forall k, v :: Related(r.userMemberOf, k, v) <==>
        Related(acc.value.userMemberOf, k, v) || UserEdgeIn(vendor, transform, cfg, entries, k, v)
    ensures var r := ScanUserEntries(vendor, transform, cfg, entries, acc).value;
      forall k :: k in r.userMemberOf <==>
        k in acc.value.userMemberOf || UserKeyIn(vendor, transform, cfg, entries, k)
    decreases |entries|
  {
    if entries != [] {
      var m := |entries| - 1;
      var prefix := entries[..m];
      var last := entries[m];
      var before := ScanUserEntries(vendor, transform, cfg, prefix, acc);
      if before.Failure? {
        UserEntriesKeepFailure(vendor, transform, cfg, [last], before.error);
        assert false;
      }
      UserEntriesEdges(vendor, transform, cfg, prefix, acc);
      var after := ScanUserEntries(vendor, transform, cfg, entries, acc).value;
      assert entries == prefix + [last];
      RecordedEdges(before.value.userMemberOf, vendor, last, cfg.attributes.memberOf);
      forall k, v
        ensures UserEdgeIn(vendor, transform, cfg, entries, k, v) <==>
          UserEdgeIn(vendor, transform, cfg, prefix, k, v)
          || (transform(vendor, cfg, last).Emit? && Contributes(vendor, last, cfg.attributes.memberOf, k, v))
      {
      }
      forall k
        ensures UserKeyIn(vendor, transform, cfg, entries, k) <==>
          UserKeyIn(vendor, transform, cfg, prefix, k)
          || (transform(vendor, cfg, last).Emit? && ContributesKey(vendor, last, cfg.attributes.memberOf, k))
      {
      }
    }
  }

  /** A record of any configured search that the transformer accepts and whose memberships name `k -> v`. */
  ghost predicate UserEdgeRead(search: Search, vendor: Vendor, transform: UserTransformer,
                               configs: seq<UserConfig>, k: string, v: string)
  {
    exists cfg :: cfg in configs && UserEdgeIn(vendor, transform, cfg, search(cfg.dn, cfg.options), k, v)
  }

  /** A record of any configured search that the transformer accepts and whose own DN is `k`. */
  ghost predicate UserKeyRead(search: Search, vendor: Vendor, transform: UserTransformer,
                              configs: seq<UserConfig>, k: string)
  {
    exists cfg :: cfg in configs && UserKeyIn(vendor, transform, cfg, search(cfg.dn, cfg.options), k)
  }

  /**
   * The user reader's edges are exactly those of the records the transformer
   * accepted whose membership attribute is configured and decodes and whose
   * DN decodes to a single, non-empty value; that DN is the key.
   */
  lemma {:induction false} UserReadEdges(search: Search, vendor: Vendor, transform: UserTransformer,
                                         configs: seq<UserConfig>)
    requires ScanUserConfigs(search, vendor, transform, configs).Success?
    ensures var r := ScanUserConfigs(search, vendor, transform, configs).value;
      forall k, v :: Related(r.userMemberOf, k, v) <==> UserEdgeRead(search, vendor, transform, configs, k, v)
    ensures var r := ScanUserConfigs(search, vendor, transform, configs).value;
      forall k :: k in r.userMemberOf <==> UserKeyRead(search, vendor, transform, configs, k)
    decreases |configs|
  {
    if configs != [] {
      var m := |configs| - 1;
      var prefix := configs[..m];
      var cfg := configs[m];
      var before := ScanUserConfigs(search, vendor, transform, prefix);
      UserEntriesEdges(vendor, transform, cfg, search(cfg.dn, cfg.options), before);
      UserReadEdges(search, vendor, transform, prefix);
      assert configs == prefix + [cfg];
      forall k, v
        ensures UserEdgeRead(search, vendor, transform, configs, k, v) <==>
          UserEdgeRead(search, vendor, transform, prefix, k, v)
          || UserEdgeIn(vendor, transform, cfg, search(cfg.dn, cfg.options), k, v)
      {
      }
      forall k
        ensures UserKeyRead(search, vendor, transform, configs, k) <==>
          UserKeyRead(search, vendor, transform, prefix, k)
          || UserKeyIn(vendor, transform, cfg, search(cfg.dn, cfg.options), k)
      {
      }
    }
  }

  /**
   * The search callback of `readLdapUsers` over the records of one search:
   * each record the transformer accepts becomes a fresh user object appended
   * to `users`, and its memberships are recorded; a thrown error ends the read.
   */
  method ReadUserEntries(vendor: Vendor, transform: UserTransformer, cfg: UserConfig, entries: seq<Entry>,
                         users: seq<User>, userMemberOf: EdgeMap, ghost data: seq<UserData>)
    returns (r: Result<(seq<User>, EdgeMap), InputError>, ghost data': seq<UserData>)
    requires |users| == |data| && forall j :: 0 <= j < |users| ==> users[j].Holds(data[j])
    ensures var spec := ScanUserEntries(vendor, transform, cfg, entries, Success(UsersRead(data, userMemberOf)));
      && (r.Failure? <==> spec.Failure?)
      && (r.Failure? ==> r.error == spec.error)
      && (r.Success? ==> spec.value == UsersRead(data', r.value.1))
    ensures r.Success? ==>
      && |r.value.0| == |data'| && |users| <= |r.value.0| && r.value.0[..|users|] == users
      && (forall j :: 0 <= j < |r.value.0| ==> r.value.0[j].Holds(data'[j]))
      && (forall j :: |users| <= j < |r.value.0| ==> fresh(r.value.0[j]))
  {
    ghost var acc := Success(UsersRead(data, userMemberOf));
    var entities := users;
    var memberOf := userMemberOf;
    data' := data;
    for j := 0 to |entries|
      invariant ScanUserEntries(vendor, transform, cfg, entries[..j], acc) == Success(UsersRead(data', memberOf))
      invariant |entities| == |data'| && |users| <= |entities| && entities[..|users|] == users
      invariant forall k :: 0 <= k < |entities| ==> entities[k].Holds(data'[k])
      invariant forall k :: |users| <= k < |entities| ==> fresh(entities[k])
    {
      var entry := entries[j];
      assert entries[..j + 1][..j] == entries[..j];
      var outcome := transform(vendor, cfg, entry);
      match outcome {
        case Reject(e) =>
          UserEntriesFailPrefix(vendor, transform, cfg, entries, j + 1, acc);
          return Failure(e), data';
        case Skip =>
        case Emit(d) =>
          match References(vendor, entry, cfg.attributes.memberOf) {
            case Some((myDn, vs)) =>
              memberOf := EnsureItems(memberOf, myDn, vs);
            case None =>
          }
          var u := new User(d);
          entities := entities + [u];
          data' := data' + [d];
      }
    }
    assert entries[..|entries|] == entries;
    return Success((entities, memberOf)), data';
  }

  /**
   * `readLdapUsers`: no configuration, no search; otherwise every search is
   * streamed and each accepted record becomes a fresh user object, in order.
   */
  method ReadLdapUsers(search: Search, vendorDefaults: Vendor, userConfig: seq<UserConfig>,
                       vendorConfig: Option<VendorConfig>, transformer: Option<UserTransformer>)
    returns (r: Result<(seq<User>, EdgeMap), InputError>)
    ensures userConfig == [] ==> r == Success(([], map[]))
    ensures var spec := UsersReadSpec(search, vendorDefaults, userConfig, vendorConfig, transformer);
      && (r.Failure? <==> spec.Failure?)
      && (r.Failure? ==> r.error == spec.error)
      && (r.Success? ==> r.value.1 == spec.value.userMemberOf && |r.value.0| == |spec.value.users|)
    ensures r.Success? ==> forall i :: 0 <= i < |r.value.0| ==>
      fresh(r.value.0[i]) && r.value.0[i].Holds(UsersReadSpec(search, vendorDefaults, userConfig, vendorConfig, transformer).value.users[i])
  {
    if |userConfig| == 0 {
      return Success(([], map[]));
    }
    var entities: seq<User> := [];
    var userMemberOf: EdgeMap := map[];
    ghost var data: seq<UserData> := [];
    var vendor := EffectiveVendor(vendorDefaults, vendorConfig);
    var transform := ChosenUserTransformer(transformer);

    for i := 0 to |userConfig|
      invariant ScanUserConfigs(search, vendor, transform, userConfig[..i]) == Success(UsersRead(data, userMemberOf))
      invariant |entities| == |data|
      invariant forall j :: 0 <= j < |entities| ==> fresh(entities[j]) && entities[j].Holds(data[j])
    {
      var cfg := userConfig[i];
      var entries := search(cfg.dn, cfg.options);
      assert userConfig[..i + 1][..i] == userConfig[..i];
      var read, data' := ReadUserEntries(vendor, transform, cfg, entries, entities, userMemberOf, data);
      if read.Failure? {
        UserConfigsFailPrefix(search, vendor, transform, userConfig, i + 1);
        return Failure(read.error);
      }
      forall j | 0 <= j < |entities|
        ensures read.value.0[j] == entities[j]
      {
        assert read.value.0[..|entities|][j] == entities[j];
      }
      entities, userMemberOf, data := read.value.0, read.value.1, data';
    }
    assert userConfig[..|userConfig|] == userConfig;
    return Success((entities, userMemberOf));
  }

  // ---------------------------------------------------------------------------
  // Groups
  // ---------------------------------------------------------------------------

  /** The two reference attributes of a group record. */
  datatype GroupReference = MemberOfReference | MembersReference

  function ReferenceAttribute(cfg: GroupConfig, which: GroupReference): string {
    if which == MemberOfReference then cfg.attributes.memberOf else cfg.attributes.members
  }

  /** `groupMemberOf` or `groupMember`, whichever `which` names. */
  function GroupEdges(read: GroupsRead, which: GroupReference): EdgeMap {
    if which == MemberOfReference then read.groupMemberOf else read.groupMember
  }

  /** One record through the group reader's search callback; a thrown error ends the read. */
  function GroupStep(vendor: Vendor, transform: GroupTransformer, cfg: GroupConfig,
                     acc: Result<GroupsRead, InputError>, entry: Entry): Result<GroupsRead, InputError>
  {
    match acc
    case Failure(e) => Failure(e)
    case Success(read) =>
      match transform(vendor, cfg, entry)
      case Reject(e) => Failure(e)
      case Skip => acc
      case Emit(g) =>
        Success(GroupsRead(
          read.groups + [g],
          Recorded(read.groupMemberOf, vendor, entry, cfg.attributes.memberOf),
          Recorded(read.groupMember, vendor, entry, cfg.attributes.members)))
  }

  /** The records of one search, in order, after `acc`. */
  function ScanGroupEntries(vendor: Vendor, transform: GroupTransformer, cfg: GroupConfig,
                            entries: seq<Entry>, acc: Result<GroupsRead, InputError>): Result<GroupsRead, InputError>
    decreases |entries|
  {
    if entries == [] then acc
    else
      var before := ScanGroupEntries(vendor, transform, cfg, entries[..|entries| - 1], acc);
      GroupStep(vendor, transform, cfg, before, entries[|entries| - 1])
  }

  /** All configured searches, one after the other. */
  function ScanGroupConfigs(search: Search, vendor: Vendor, transform: GroupTransformer,
                            configs: seq<GroupConfig>): Result<GroupsRead, InputError>
    decreases |configs|
  {
    if configs == [] then Success(GroupsRead([], map[], map[]))
    else
      var cfg := configs[|configs| - 1];
      var before := ScanGroupConfigs(search, vendor, transform, configs[..|configs| - 1]);
      ScanGroupEntries(vendor, transform, cfg, search(cfg.dn, cfg.options), before)
  }

  /** What `readLdapGroups` returns, as values. */
  ghost function GroupsReadSpec(search: Search, vendorDefaults: Vendor, groupConfig: seq<GroupConfig>,
                                vendorConfig: Option<VendorConfig>, transformer: Option<GroupTransformer>): Result<GroupsRead, InputError>
  {
    ScanGroupConfigs(search, EffectiveVendor(vendorDefaults, vendorConfig), ChosenGroupTransformer(transformer), groupConfig)
  }

  lemma {:induction false} GroupEntriesKeepFailure(vendor: Vendor, transform: GroupTransformer, cfg: GroupConfig,
                                                   entries: seq<Entry>, e: InputError)
    ensures ScanGroupEntries(vendor, transform, cfg, entries, Failure(e)) == Failure(e)
    decreases |entries|
  {
    if entries != [] {
      GroupEntriesKeepFailure(vendor, transform, cfg, entries[..|entries| - 1], e);
    }
  }

  /** Once a record throws, the rest of its search changes nothing. */
  lemma {:induction false} GroupEntriesFailPrefix(vendor: Vendor, transform: GroupTransformer, cfg: GroupConfig,
                                                  entries: seq<Entry>, n: nat, acc: Result<GroupsRead, InputError>)
    requires n <= |entries|
    requires ScanGroupEntries(vendor, transform, cfg, entries[..n], acc).Failure?
    ensures ScanGroupEntries(vendor, transform, cfg, entries, acc) == ScanGroupEntries(vendor, transform, cfg, entries[..n], acc)
    decreases |entries|
  {
    if n < |entries| {
      var m := |entries| - 1;
      assert entries[..m][..n] == entries[..n];
      GroupEntriesFailPrefix(vendor, transform, cfg, entries[..m], n, acc);
    } else {
      assert entries[..n] == entries;
    }
  }

  /** Once a record throws, the remaining searches change nothing. */
  lemma {:induction false} GroupConfigsFailPrefix(search: Search, vendor: Vendor, transform: GroupTransformer,
                                                  configs: seq<GroupConfig>, n: nat)
    requires n <= |configs|
    requires ScanGroupConfigs(search, vendor, transform, configs[..n]).Failure?
    ensures ScanGroupConfigs(search, vendor, transform, configs) == ScanGroupConfigs(search, vendor, transform, configs[..n])
    decreases |configs|
  {
    if n < |configs| {
      var m := |configs| - 1;
      assert configs[..m][..n] == configs[..n];
      GroupConfigsFailPrefix(search, vendor, transform, configs[..m], n);
      var cfg := configs[m];
      GroupEntriesKeepFailure(vendor, transform, cfg, search(cfg.dn, cfg.options),
                              ScanGroupConfigs(search, vendor, transform, configs[..m]).error);
    } else {
      assert configs[..n] == configs;
    }
  }

  /** A record of one search that the transformer accepts and whose `which` attribute names `k -> v`. */
  ghost predicate GroupEdgeIn(vendor: Vendor, transform: GroupTransformer, cfg: GroupConfig,
                              entries: seq<Entry>, which: GroupReference, k: string, v: string)
  {
    exists entry :: entry in entries && transform(vendor, cfg, entry).Emit?
      && Contributes(vendor, entry, ReferenceAttribute(cfg, which), k, v)
  }

  /** A record of one search that the transformer accepts and whose own DN keys its `which` attribute. */
  ghost predicate GroupKeyIn(vendor: Vendor, transform: GroupTransformer, cfg: GroupConfig,
                             entries: seq<Entry>, which: GroupReference, k: string)
  {
    exists entry :: entry in entries && transform(vendor, cfg, entry).Emit?
      && ContributesKey(vendor, entry, ReferenceAttribute(cfg, which), k)
  }

  lemma {:induction false} GroupEntriesEdges(vendor: Vendor, transform: GroupTransformer, cfg: GroupConfig,
                                             entries: seq<Entry>, acc: Result<GroupsRead, InputError>, which: GroupReference)
    requires ScanGroupEntries(vendor, transform, cfg, entries, acc).Success?
    ensures acc.Success?
    ensures var r := ScanGroupEntries(vendor, transform, cfg, entries, acc).value;
      forall k, v :: Related(GroupEdges(r, which), k, v) <==>
        Related(GroupEdges(acc.value, which), k, v) || GroupEdgeIn(vendor, transform, cfg, entries, which, k, v)
    ensures var r := ScanGroupEntries(vendor, transform, cfg, entries, acc).value;
      forall k :: k in GroupEdges(r, which) <==>
        k in GroupEdges(acc.value, which) || GroupKeyIn(vendor, transform, cfg, entries, which, k)
    decreases |entries|
  {
    if entries != [] {
      var m := |entries| - 1;
      var prefix := entries[..m];
      var last := entries[m];
      var before := ScanGroupEntries(vendor, transform, cfg, prefix, acc);
      if before.Failure? {
        GroupEntriesKeepFailure(vendor, transform, cfg, [last], before.error);
        assert false;
      }
      GroupEntriesEdges(vendor, transform, cfg, prefix, acc, which);
      assert entries == prefix + [last];
      RecordedEdges(GroupEdges(before.value, which), vendor, last, ReferenceAttribute(cfg, which));
      forall k, v
        ensures GroupEdgeIn(vendor, transform, cfg, entries, which, k, v) <==>
          GroupEdgeIn(vendor, transform, cfg, prefix, which, k, v)
          || (transform(vendor, cfg, last).Emit? && Contributes(vendor, last, ReferenceAttribute(cfg, which), k, v))
      {
      }
      forall k
        ensures GroupKeyIn(vendor, transform, cfg, entries, which, k) <==>
          GroupKeyIn(vendor, transform, cfg, prefix, which, k)
          || (transform(vendor, cfg, last).Emit? && ContributesKey(vendor, last, ReferenceAttribute(cfg, which), k))
      {
      }
    }
  }

  /** A record of any configured search that the transformer accepts and whose `which` attribute names `k -> v`. */
  ghost predicate GroupEdgeRead(search: Search, vendor: Vendor, transform: GroupTransformer,
                                configs: seq<GroupConfig>, which: GroupReference, k: string, v: string)
  {
    exists cfg :: cfg in configs && GroupEdgeIn(vendor, transform, cfg, search(cfg.dn, cfg.options), which, k, v)
  }

  /** A record of any configured search that the transformer accepts and whose own DN keys its `which` attribute. */
  ghost predicate GroupKeyRead(search: Search, vendor: Vendor, transform: GroupTransformer,
                               configs: seq<GroupConfig>, which: GroupReference, k: string)
  {
    exists cfg :: cfg in configs && GroupKeyIn(vendor, transform, cfg, search(cfg.dn, cfg.options), which, k)
  }

  /**
   * Each of the group reader's two edge maps holds exactly the edges of the
   * records the transformer accepted whose attribute is configured and decodes
   * and whose DN decodes to a single, non-empty value; that DN is the key.
   */
  lemma {:induction false} GroupReadEdges(search: Search, vendor: Vendor, transform: GroupTransformer,
                                          configs: seq<GroupConfig>, which: GroupReference)
    requires ScanGroupConfigs(search, vendor, transform, configs).Success?
    ensures var r := ScanGroupConfigs(search, vendor, transform, configs).value;
      forall k, v :: Related(GroupEdges(r, which), k, v) <==> GroupEdgeRead(search, vendor, transform, configs, which, k, v)
    ensures var r := ScanGroupConfigs(search, vendor, transform, configs).value;
      forall k :: k in GroupEdges(r, which) <==> GroupKeyRead(search, vendor, transform, configs, which, k)
    decreases |configs|
  {
    if configs != [] {
      var m := |configs| - 1;
      var prefix := configs[..m];
      var cfg := configs[m];
      var before := ScanGroupConfigs(search, vendor, transform, prefix);
      GroupEntriesEdges(vendor, transform, cfg, search(cfg.dn, cfg.options), before, which);
      GroupReadEdges(search, vendor, transform, prefix, which);
      assert configs == prefix + [cfg];
      forall k, v
        ensures GroupEdgeRead(search, vendor, transform, configs, which, k, v) <==>
          GroupEdgeRead(search, vendor, transform, prefix, which, k, v)
          || GroupEdgeIn(vendor, transform, cfg, search(cfg.dn, cfg.options), which, k, v)
      {
      }
      forall k
        ensures GroupKeyRead(search, vendor, transform, configs, which, k) <==>
          GroupKeyRead(search, vendor, transform, prefix, which, k)
          || GroupKeyIn(vendor, transform, cfg, search(cfg.dn, cfg.options), which, k)
      {
      }
    }
  }

  /**
   * The search callback of `readLdapGroups` over the records of one search:
   * each record the transformer accepts becomes a fresh group object appended
   * to `groups`, and its two reference attributes are recorded; a thrown
   * error ends the read.
   */
  method ReadGroupEntries(vendor: Vendor, transform: GroupTransformer, cfg: GroupConfig, entries: seq<Entry>,
                          groups: seq<Group>, groupMemberOf: EdgeMap, groupMember: EdgeMap, ghost data: seq<GroupData>)
    returns (r: Result<(seq<Group>, EdgeMap, EdgeMap), InputError>, ghost data': seq<GroupData>)
    requires |groups| == |data| && forall j :: 0 <= j < |groups| ==> groups[j].Holds(data[j])
    ensures var spec := ScanGroupEntries(vendor, transform, cfg, entries, Success(GroupsRead(data, groupMemberOf, groupMember)));
      && (r.Failure? <==> spec.Failure?)
      && (r.Failure? ==> r.error == spec.error)
      && (r.Success? ==> spec.value == GroupsRead(data', r.value.1, r.value.2))
    ensures r.Success? ==>
      && |r.value.0| == |data'| && |groups| <= |r.value.0| && r.value.0[..|groups|] == groups
      && (forall j :: 0 <= j < |r.value.0| ==> r.value.0[j].Holds(data'[j]))
      && (forall j :: |groups| <= j < |r.value.0| ==> fresh(r.value.0[j]))
  {
    ghost var acc := Success(GroupsRead(data, groupMemberOf, groupMember));
    var entities := groups;
    var memberOf := groupMemberOf;
    var members := groupMember;
    data' := data;
    for j := 0 to |entries|
      invariant ScanGroupEntries(vendor, transform, cfg, entries[..j], acc) == Success(GroupsRead(data', memberOf, members))
      invariant |entities| == |data'| && |groups| <= |entities| && entities[..|groups|] == groups
      invariant forall k :: 0 <= k < |entities| ==> entities[k].Holds(data'[k])
      invariant forall k :: |groups| <= k < |entities| ==> fresh(entities[k])
    {
      var entry := entries[j];
      assert entries[..j + 1][..j] == entries[..j];
      var outcome := transform(vendor, cfg, entry);
      match outcome {
        case Reject(e) =>
          GroupEntriesFailPrefix(vendor, transform, cfg, entries, j + 1, acc);
          return Failure(e), data';
        case Skip =>
        case Emit(d) =>
          match References(vendor, entry, cfg.attributes.memberOf) {
            case Some((myDn, vs)) =>
              memberOf := EnsureItems(memberOf, myDn, vs);
            case None =>
          }
          match References(vendor, entry, cfg.attributes.members) {
            case Some((myDn, vs)) =>
              members := EnsureItems(members, myDn, vs);
            case None =>
          }
          var g := new Group(d);
          entities := entities + [g];
          data' := data' + [d];
      }
    }
    assert entries[..|entries|] == entries;
    return Success((entities, memberOf, members)), data';
  }

  /**
   * `readLdapGroups`: no configuration, no search; otherwise every search is
   * streamed and each accepted record becomes a fresh group object, in order.
   */
  method ReadLdapGroups(search: Search, vendorDefaults: Vendor, groupConfig: seq<GroupConfig>,
                        vendorConfig: Option<VendorConfig>, transformer: Option<GroupTransformer>)
    returns (r: Result<(seq<Group>, EdgeMap, EdgeMap), InputError>)
    ensures groupConfig == [] ==> r == Success(([], map[], map[]))
    ensures var spec := GroupsReadSpec(search, vendorDefaults, groupConfig, vendorConfig, transformer);
      && (r.Failure? <==> spec.Failure?)
      && (r.Failure? ==> r.error == spec.error)
      && (r.Success? ==> r.value.1 == spec.value.groupMemberOf && r.value.2 == spec.value.groupMember)
      && (r.Success? ==> |r.value.0| == |spec.value.groups|)
    ensures r.Success? ==> forall i :: 0 <= i < |r.value.0| ==>
      fresh(r.value.0[i]) && r.value.0[i].Holds(GroupsReadSpec(search, vendorDefaults, groupConfig, vendorConfig, transformer).value.groups[i])
  {
    if |groupConfig| == 0 {
      return Success(([], map[], map[]));
    }
    var groups: seq<Group> := [];
    var groupMemberOf: EdgeMap := map[];
    var groupMember: EdgeMap := map[];
    ghost var data: seq<GroupData> := [];
    var vendor := EffectiveVendor(vendorDefaults, vendorConfig);
    var transform := ChosenGroupTransformer(transformer);

    for i := 0 to |groupConfig|
      invariant ScanGroupConfigs(search, vendor, transform, groupConfig[..i]) == Success(GroupsRead(data, groupMemberOf, groupMember))
      invariant |groups| == |data|
      invariant forall j :: 0 <= j < |groups| ==> fresh(groups[j]) && groups[j].Holds(data[j])
    {
      var cfg := groupConfig[i];
      var entries := search(cfg.dn, cfg.options);
      assert groupConfig[..i + 1][..i] == groupConfig[..i];
      var read, data' := ReadGroupEntries(vendor, transform, cfg, entries, groups, groupMemberOf, groupMember, data);
      if read.Failure? {
        GroupConfigsFailPrefix(search, vendor, transform, groupConfig, i + 1);
        return Failure(read.error);
      }
      forall j | 0 <= j < |groups|
        ensures read.value.0[j] == groups[j]
      {
        assert read.value.0[..|groups|][j] == groups[j];
      }
      groups, groupMemberOf, groupMember, data := read.value.0, read.value.1, read.value.2, data';
    }
    assert groupConfig[..|groupConfig|] == groupConfig;
    return Success((groups, groupMemberOf, groupMember));
  }
}
