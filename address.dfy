/** `formatAddress`: a one-line address from an element's `addr:*` tags. */
module Address {
  import opened Text
  import opened Pubs

  const SENTINEL: string := "Address not available"
  const SEPARATOR: string := ", "

  /** The address tags, in the order the address lists them. */
  const ADDRESS_KEYS: seq<string> := ["addr:housenumber", "addr:street", "addr:city", "addr:postcode"]

  /** The truthy values among `keys`, in the order of `keys`. */
  function PresentFields(tags: Tags, keys: seq<string>): (fields: seq<string>)
    ensures |fields| <= |keys|
  {
    if keys == [] then []
    else if TagTruthy(tags, keys[0]) then [tags[keys[0]]] + PresentFields(tags, keys[1..])
    else PresentFields(tags, keys[1..])
  }

  /** The address that `formatAddress` gives for `tags`; it is never empty. */
  function AddressOf(tags: Tags): (address: string)
    ensures address != ""
  {
    var parts := PresentFields(tags, ADDRESS_KEYS);
    if |parts| > 0 then
      PresentFieldsAreTruthyValues(tags, ADDRESS_KEYS, 0);
      JoinNonEmpty(parts, SEPARATOR, 0);
      Join(parts, SEPARATOR)
    else SENTINEL
  }

  /** Builds the address by pushing each truthy address tag in turn. */
  method FormatAddress(tags: Tags) returns (address: string)
    ensures address == AddressOf(tags)
  {
    var parts: seq<string> := [];
    if TagTruthy(tags, "addr:housenumber") {
      parts := parts + [tags["addr:housenumber"]];
    }
    if TagTruthy(tags, "addr:street") {
      parts := parts + [tags["addr:street"]];
    }
    if TagTruthy(tags, "addr:city") {
      parts := parts + [tags["addr:city"]];
    }
    if TagTruthy(tags, "addr:postcode") {
      parts := parts + [tags["addr:postcode"]];
    }
    PresentFieldsAddressKeys(tags);
    assert parts == PresentFields(tags, ADDRESS_KEYS);
    address := if |parts| > 0 then Join(parts, SEPARATOR) else SENTINEL;
  }

  /** The present address fields, spelled out tag by tag. */
  lemma PresentFieldsAddressKeys(tags: Tags)
    ensures PresentFields(tags, ADDRESS_KEYS) ==
      (if TagTruthy(tags, "addr:housenumber") then [tags["addr:housenumber"]] else []) +
      (if TagTruthy(tags, "addr:street") then [tags["addr:street"]] else []) +
      (if TagTruthy(tags, "addr:city") then [tags["addr:city"]] else []) +
      (if TagTruthy(tags, "addr:postcode") then [tags["addr:postcode"]] else [])
  {
    var k := ADDRESS_KEYS;
    assert k[1..][1..][1..][1..] == [];
    assert PresentFields(tags, k[1..][1..][1..]) ==
      (if TagTruthy(tags, "addr:postcode") then [tags["addr:postcode"]] else []);
    assert PresentFields(tags, k[1..][1..]) ==
      (if TagTruthy(tags, "addr:city") then [tags["addr:city"]] else []) +
      PresentFields(tags, k[1..][1..][1..]);
    assert PresentFields(tags, k[1..]) ==
      (if TagTruthy(tags, "addr:street") then [tags["addr:street"]] else []) +
      PresentFields(tags, k[1..][1..]);
  }

  /** Every present field is a non-empty value of one of the keys. */
  lemma {:induction false} PresentFieldsAreTruthyValues(tags: Tags, keys: seq<string>, i: nat)
    requires i < |PresentFields(tags, keys)|
    ensures PresentFields(tags, keys)[i] != ""
    ensures exists j :: 0 <= j < |keys| && TagTruthy(tags, keys[j]) && PresentFields(tags, keys)[i] == tags[keys[j]]
    decreases |keys|
  {
    var p := PresentFields(tags, keys);
    if TagTruthy(tags, keys[0]) && i == 0 {
      assert p[0] == tags[keys[0]];
    } else {
      var i' := if TagTruthy(tags, keys[0]) then i - 1 else i;
      PresentFieldsAreTruthyValues(tags, keys[1..], i');
      var j :| 0 <= j < |keys[1..]| && TagTruthy(tags, keys[1..][j]) && PresentFields(tags, keys[1..])[i'] == tags[keys[1..][j]];
      assert keys[1..][j] == keys[j + 1];
    }
  }

  /** No field is present exactly when none of the keys has a truthy tag. */
  lemma {:induction false} PresentFieldsEmptyIff(tags: Tags, keys: seq<string>)
    ensures PresentFields(tags, keys) == [] <==> forall j :: 0 <= j < |keys| ==> !TagTruthy(tags, keys[j])
    decreases |keys|
  {
    if keys != [] {
      PresentFieldsEmptyIff(tags, keys[1..]);
      assert forall j :: 1 <= j < |keys| ==> keys[j] == keys[1..][j - 1];
    }
  }

  /** Tags other than `keys` have no influence on the present fields. */
  lemma {:induction false} PresentFieldsIgnoresOtherTags(tags: Tags, keys: seq<string>, k: string, v: string)
    requires k !in keys
    ensures PresentFields(tags[k := v], keys) == PresentFields(tags, keys)
    decreases |keys|
  {
    if keys != [] {
      assert k != keys[0];
      PresentFieldsIgnoresOtherTags(tags, keys[1..], k, v);
    }
  }

  /** No address tag is truthy: the address is the sentinel. */
  lemma AddressWithoutFields(tags: Tags)
    requires forall j :: 0 <= j < |ADDRESS_KEYS| ==> !TagTruthy(tags, ADDRESS_KEYS[j])
    ensures AddressOf(tags) == SENTINEL
  {
    PresentFieldsEmptyIff(tags, ADDRESS_KEYS);
  }

  /**
   * Some address tag is truthy: the address is the present fields, in
   * housenumber, street, city, postcode order, joined by ", ".
   */
  lemma AddressWithFields(tags: Tags, j: nat)
    requires j < |ADDRESS_KEYS| && TagTruthy(tags, ADDRESS_KEYS[j])
    ensures AddressOf(tags) == Join(PresentFields(tags, ADDRESS_KEYS), SEPARATOR)
  {
    PresentFieldsEmptyIff(tags, ADDRESS_KEYS);
  }

  /**
   * The address reads as the sentinel exactly when no field is present,
   * or when the only present field is itself spelled like the sentinel.
   */
  lemma AddressIsSentinelIff(tags: Tags)
    ensures var parts := PresentFields(tags, ADDRESS_KEYS);
            AddressOf(tags) == SENTINEL <==> parts == [] || parts == [SENTINEL]
  {
    var parts := PresentFields(tags, ADDRESS_KEYS);
    if |parts| >= 2 {
      JoinShowsSeparator(parts, SEPARATOR);
      var r := Join(parts, SEPARATOR);
      assert r[|parts[0]|] == ',';
      assert forall i :: 0 <= i < |SENTINEL| ==> SENTINEL[i] != ',';
      assert r != SENTINEL;
    }
  }

  /** Tags outside the four address tags never change the address. */
  lemma AddressIgnoresOtherTags(tags: Tags, k: string, v: string)
    requires k !in ADDRESS_KEYS
    ensures AddressOf(tags[k := v]) == AddressOf(tags)
  {
    PresentFieldsIgnoresOtherTags(tags, ADDRESS_KEYS, k, v);
  }
}
