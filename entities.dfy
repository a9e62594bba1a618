/**
 * Users and groups as the LDAP ingestion produces them, the directory records
 * they come from, the reader configuration, and the default transformations
 * from a record to an entity.
 */
module Entities {
  import opened Wrappers
  import opened Text

  datatype Kind = UserKind | GroupKind

  /**
   * `stringifyEntityRef` of an entity in the default namespace: the kind, the
   * namespace and the name, each lower-cased the `en-US` way.
   */
  function Ref(kind: Kind, name: string): (r: string)
    ensures |r| > |name| && r[|r| - |name|..] == Lower(name)
  {
    (if kind == UserKind then "user" else "group") + ":default/" + Lower(name)
  }

  /** Two entities of one kind share a reference exactly when their names agree up to letter case. */
  lemma RefInjective(kind: Kind, a: string, b: string)
    ensures Ref(kind, a) == Ref(kind, b) <==> Lower(a) == Lower(b)
  {
    if Ref(kind, a) == Ref(kind, b) {
      var p := if kind == UserKind then "user:default/" else "group:default/";
      assert Ref(kind, a) == p + Lower(a) && Ref(kind, b) == p + Lower(b);
      assert Lower(a) == (p + Lower(a))[|p|..] && Lower(b) == (p + Lower(b))[|p|..];
    }
  }

  /**
   * The DN, RDN and UUID annotations of an entity; `None` where the
   * transformer found no single value to put there.
   */
  datatype Annotations = Annotations(dn: Option<string>, rdn: Option<string>, uuid: Option<string>)

  datatype Metadata = Metadata(name: string, description: Option<string>, annotations: Annotations)

  datatype Profile = Profile(displayName: Option<string>, email: Option<string>, picture: Option<string>)

  /** A user entity as a transformer returns it, relations as it left them. */
  datatype UserData = UserData(metadata: Metadata, profile: Profile, memberOf: seq<string>)

  /** A group entity as a transformer returns it, relations as it left them. */
  datatype GroupData = GroupData(
    metadata: Metadata,
    groupType: string,
    profile: Profile,
    parent: Option<string>,
    children: seq<string>)

  /**
   * A user entity object. Its identity never changes after reading; the
   * resolver assigns its group memberships in place.
   */
  class User {
    const metadata: Metadata
    const profile: Profile
    var memberOf: seq<string>

    constructor (data: UserData)
      ensures metadata == data.metadata && profile == data.profile && memberOf == data.memberOf
    {
      metadata := data.metadata;
      profile := data.profile;
      memberOf := data.memberOf;
    }

    /** This object carries the fields of `data`. */
    ghost predicate Holds(data: UserData)
      reads this
    {
      metadata == data.metadata && profile == data.profile && memberOf == data.memberOf
    }
  }

  /**
   * A group entity object. Its identity never changes after reading; the
   * resolver assigns its parent and children in place.
   */
  class Group {
    const metadata: Metadata
    const groupType: string
    const profile: Profile
    var parent: Option<string>
    var children: seq<string>

    constructor (data: GroupData)
      ensures metadata == data.metadata && groupType == data.groupType && profile == data.profile
      ensures parent == data.parent && children == data.children
    {
      metadata := data.metadata;
      groupType := data.groupType;
      profile := data.profile;
      parent := data.parent;
      children := data.children;
    }

    /** This object carries the fields of `data`. */
    ghost predicate Holds(data: GroupData)
      reads this
    {
      && metadata == data.metadata && groupType == data.groupType && profile == data.profile
      && parent == data.parent && children == data.children
    }
  }

  function UserRef(u: User): string {
    Ref(UserKind, u.metadata.name)
  }

  function GroupRef(g: Group): string {
    Ref(GroupKind, g.metadata.name)
  }

  /**
   * A directory record, its attributes already decoded by the vendor: an
   * attribute that is absent or does not decode is not a key.
   */
  datatype Entry = Entry(attributes: map<string, seq<string>>)

  /** The attribute names that differ between directory vendors. */
  datatype Vendor = Vendor(dnAttributeName: string, uuidAttributeName: string)

  /** Overrides of the vendor's attribute names from the configuration. */
  datatype VendorConfig = VendorConfig(dnAttributeName: Option<string>, uuidAttributeName: Option<string>)

  /** Each configured name replaces the vendor default; an unset one keeps it. */
  function EffectiveVendor(defaults: Vendor, config: Option<VendorConfig>): (v: Vendor)
    ensures config.Some? && config.value.dnAttributeName.Some? ==> v.dnAttributeName == config.value.dnAttributeName.value
    ensures (config.None? || config.value.dnAttributeName.None?) ==> v.dnAttributeName == defaults.dnAttributeName
    ensures config.Some? && config.value.uuidAttributeName.Some? ==> v.uuidAttributeName == config.value.uuidAttributeName.value
    ensures (config.None? || config.value.uuidAttributeName.None?) ==> v.uuidAttributeName == defaults.uuidAttributeName
  {
    match config
    case None => defaults
    case Some(c) =>
      Vendor(
        if c.dnAttributeName.Some? then c.dnAttributeName.value else defaults.dnAttributeName,
        if c.uuidAttributeName.Some? then c.uuidAttributeName.value else defaults.uuidAttributeName)
  }

  /** `vendor.decodeStringAttribute`: the decoded values, or `None`. */
  function DecodeStringAttribute(entry: Entry, attributeName: string): Option<seq<string>> {
    if attributeName in entry.attributes then Some(entry.attributes[attributeName]) else None
  }

  /**
   * `mapStringAttr`: the single value of a configured attribute. An attribute
   * name of "" stands for one that is not configured.
   */
  function StringAttr(entry: Entry, attributeName: string): (r: Option<string>)
    ensures r.Some? <==> attributeName != "" && attributeName in entry.attributes && |entry.attributes[attributeName]| == 1
    ensures r.Some? ==> entry.attributes[attributeName] == [r.value]
  {
    if attributeName != "" then
      match DecodeStringAttribute(entry, attributeName)
      case Some(values) => if |values| == 1 then Some(values[0]) else None
      case None => None
    else None
  }

  datatype SearchOptions = SearchOptions(scope: string, filter: string, attributes: seq<string>)

  /** Which directory attribute fills which user field; "" where none is configured. */
  datatype UserAttributeMap = UserAttributeMap(
    rdn: string,
    name: string,
    description: string,
    displayName: string,
    email: string,
    picture: string,
    memberOf: string)

  /** Which directory attribute fills which group field; "" where none is configured. */
  datatype GroupAttributeMap = GroupAttributeMap(
    rdn: string,
    name: string,
    description: string,
    groupType: string,
    displayName: string,
    email: string,
    picture: string,
    memberOf: string,
    members: string)

  datatype UserConfig = UserConfig(dn: string, options: SearchOptions, attributes: UserAttributeMap)

  datatype GroupConfig = GroupConfig(dn: string, options: SearchOptions, attributes: GroupAttributeMap)

  /** The `InputError` a transformer throws: a required attribute gave no name. */
  datatype InputError = MissingAttribute(kind: Kind, attributeName: string)

  /** What a transformer does with one record: make an entity, skip it, or throw. */
  datatype Transformed<T> = Emit(entity: T) | Skip | Reject(error: InputError)

  /** The identity annotations both default transformers copy from a record. */
  function AnnotationsOf(vendor: Vendor, entry: Entry, rdnAttribute: string): Annotations {
    Annotations(
      dn := StringAttr(entry, vendor.dnAttributeName),
      rdn := StringAttr(entry, rdnAttribute),
      uuid := StringAttr(entry, vendor.uuidAttributeName))
  }

  /** A name attribute missing, ambiguous or empty gives no name. */
  predicate HasName(entry: Entry, nameAttribute: string) {
    var name := StringAttr(entry, nameAttribute);
    name.Some? && name.value != ""
  }

  /**
   * `defaultUserTransformer`: a user named by the name attribute, with its
   * annotations and profile, and no memberships yet; an `InputError` rather
   * than a user with an empty name.
   */
  function DefaultUserTransformer(vendor: Vendor, config: UserConfig, entry: Entry): (r: Transformed<UserData>)
    ensures !r.Skip?
    ensures r.Reject? <==> !HasName(entry, config.attributes.name)
    ensures r.Reject? ==> r.error == MissingAttribute(UserKind, config.attributes.name)
    ensures r.Emit? ==> Some(r.entity.metadata.name) == StringAttr(entry, config.attributes.name)
    ensures r.Emit? ==> r.entity.metadata.name != "" && r.entity.memberOf == []
    ensures r.Emit? ==> r.entity.metadata.annotations == AnnotationsOf(vendor, entry, config.attributes.rdn)
  {
    var m := config.attributes;
    var name := StringAttr(entry, m.name);
    if name.None? || name.value == "" then
      Reject(MissingAttribute(UserKind, m.name))
    else
      Emit(UserData(
        Metadata(name.value, StringAttr(entry, m.description), AnnotationsOf(vendor, entry, m.rdn)),
        Profile(StringAttr(entry, m.displayName), StringAttr(entry, m.email), StringAttr(entry, m.picture)),
        []))
  }

  /**
   * `defaultGroupTransformer`: a group named by the name attribute, of the
   * configured type or "unknown", with no parent and no children yet; an
   * `InputError` rather than a group with an empty name.
   */
  function DefaultGroupTransformer(vendor: Vendor, config: GroupConfig, entry: Entry): (r: Transformed<GroupData>)
    ensures !r.Skip?
    ensures r.Reject? <==> !HasName(entry, config.attributes.name)
    ensures r.Reject? ==> r.error == MissingAttribute(GroupKind, config.attributes.name)
    ensures r.Emit? ==> Some(r.entity.metadata.name) == StringAttr(entry, config.attributes.name)
    ensures r.Emit? ==> r.entity.metadata.name != "" && r.entity.parent.None? && r.entity.children == []
    ensures r.Emit? ==> r.entity.metadata.annotations == AnnotationsOf(vendor, entry, config.attributes.rdn)
    ensures r.Emit? && StringAttr(entry, config.attributes.groupType).None? ==> r.entity.groupType == "unknown"
  {
    var m := config.attributes;
    var name := StringAttr(entry, m.name);
    if name.None? || name.value == "" then
      Reject(MissingAttribute(GroupKind, m.name))
    else
      var groupType := StringAttr(entry, m.groupType);
      Emit(GroupData(
        Metadata(name.value, StringAttr(entry, m.description), AnnotationsOf(vendor, entry, m.rdn)),
        if groupType.Some? then groupType.value else "unknown",
        Profile(StringAttr(entry, m.displayName), StringAttr(entry, m.email), StringAttr(entry, m.picture)),
        None,
        []))
  }
}
