/**
 * The values the pub-discovery service works on: OpenStreetMap tag maps,
 * JavaScript truthiness of the fields it reads, and the `Pub` record it
 * returns.
 */
module Pubs {
  import opened Wrappers

  /** An element's `tags` object: tag name to tag value (Overpass tag values are strings). */
  type Tags = map<string, string>

  /** `tags[key]` is truthy: present and not the empty string. */
  predicate TagTruthy(tags: Tags, key: string) {
    key in tags && tags[key] != ""
  }

  /** Tag `a` if truthy, else tag `b` if truthy, else `fallback`. */
  function TagOr(tags: Tags, a: string, b: string, fallback: string): string
  {
    if TagTruthy(tags, a) then tags[a] else if TagTruthy(tags, b) then tags[b] else fallback
  }

  /** A numeric field is truthy when it is present and not zero. */
  predicate NumTruthy(v: Option<real>) {
    v.Some? && v.value != 0.0
  }

  /**
   * One venue as the service returns it. `kind` is the record's `type`
   * field; `tags` is absent on the fallback sample records.
   */
  datatype Pub = Pub(
    id: string,
    name: string,
    latitude: real,
    longitude: real,
    address: string,
    kind: string,
    tags: Option<Tags>)
}
