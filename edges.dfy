/**
 * Raw relation edges: identifier -> identifiers it refers to, as the readers
 * collect them and as the resolver re-keys them by entity reference.
 */
module Edges {
  import opened Wrappers
  import opened Entities

  /** A `Map<string, Set<string>>` of relation edges. */
  type EdgeMap = map<string, set<string>>

  /** `m` records an edge from `a` to `b`. */
  predicate Related(m: EdgeMap, a: string, b: string) {
    a in m && b in m[a]
  }

  /** The values of a list that are not the empty string. */
  function NonEmptyValues(values: seq<string>): set<string> {
    set v | v in values && v != ""
  }

  /** The map `ensureItems(target, key, values)` leaves behind. */
  function WithItems(target: EdgeMap, key: string, values: seq<string>): EdgeMap {
    if key == "" then target
    else target[key := (if key in target then target[key] else {}) + NonEmptyValues(values)]
  }

  /**
   * `ensureItems`: with a non-empty key, makes sure the key is present and
   * adds to its set every non-empty value; an empty key changes nothing.
   */
  method EnsureItems(target: EdgeMap, key: string, values: seq<string>) returns (r: EdgeMap)
    ensures key == "" ==> r == target
    ensures key != "" ==> r.Keys == target.Keys + {key}
    ensures key != "" ==> r[key] == (if key in target then target[key] else {}) + NonEmptyValues(values)
    ensures forall k :: k in target && k != key ==> r[k] == target[k]
    ensures forall a, b :: Related(r, a, b) <==> Related(target, a, b) || (key != "" && a == key && b in NonEmptyValues(values))
    ensures r == WithItems(target, key, values)
  {
    r := target;
    if key != "" {
      var items := if key in r then r[key] else {};
      r := r[key := items];
      for i := 0 to |values|
        invariant r.Keys == target.Keys + {key}
        invariant r[key] == items + NonEmptyValues(values[..i])
        invariant forall k :: k in target && k != key ==> r[k] == target[k]
      {
        assert values[..i + 1] == values[..i] + [values[i]];
        if values[i] != "" {
          r := r[key := r[key] + {values[i]}];
        }
      }
      assert values[..|values|] == values;
    }
  }

  /**
   * `mapReferencesAttr`: the record's own DN with the values of a reference
   * attribute, when the attribute is configured, its values decode (an empty
   * list included) and the DN attribute decodes to exactly one value.
   */
  function References(vendor: Vendor, entry: Entry, attributeName: string): (r: Option<(string, seq<string>)>)
    ensures r.Some? <==>
      && attributeName != ""
      && attributeName in entry.attributes
      && vendor.dnAttributeName in entry.attributes
      && |entry.attributes[vendor.dnAttributeName]| == 1
    ensures r.Some? ==> r.value == (entry.attributes[vendor.dnAttributeName][0], entry.attributes[attributeName])
  {
    if attributeName != "" then
      var values := DecodeStringAttribute(entry, attributeName);
      var dn := DecodeStringAttribute(entry, vendor.dnAttributeName);
      if values.Some? && dn.Some? && |dn.value| == 1 then Some((dn.value[0], values.value)) else None
    else None
  }

  /** The map after one record's reference attribute is recorded into `m`. */
  function Recorded(m: EdgeMap, vendor: Vendor, entry: Entry, attributeName: string): EdgeMap {
    match References(vendor, entry, attributeName)
    case Some((dn, values)) => WithItems(m, dn, values)
    case None => m
  }

  /** A record's reference attribute yields the edge `dn -> v`. */
  predicate Contributes(vendor: Vendor, entry: Entry, attributeName: string, dn: string, v: string) {
    var refs := References(vendor, entry, attributeName);
    refs.Some? && refs.value.0 == dn && dn != "" && v in refs.value.1 && v != ""
  }

  /** A record's reference attribute makes `dn` a key, even with no values. */
  predicate ContributesKey(vendor: Vendor, entry: Entry, attributeName: string, dn: string) {
    var refs := References(vendor, entry, attributeName);
    refs.Some? && refs.value.0 == dn && dn != ""
  }
}
