/**
 * `MOCK_PUBS` and `getMockPubsNearLocation`: the sample venues returned
 * when the live query fails, each scattered around the requested point by
 * two `Math.random()` draws (latitude first, then longitude), passed in
 * here as `draws`.
 */
module MockData {
  import opened Wrappers
  import opened Text
  import opened Pubs

  /** A sample venue; its coordinates are replaced near the requested point. */
  datatype Sample = Sample(name: string, latitude: real, longitude: real, address: string, kind: string)

  const MOCK_PUBS: seq<Sample> := [
    Sample("The Red Lion", 51.5074, -0.1278, "123 High Street, London", "pub"),
    Sample("The Crown & Anchor", 51.5080, -0.1270, "456 King's Road, London", "pub"),
    Sample("The George Inn", 51.5068, -0.1285, "789 Queen Street, London", "pub")
  ]

  /** The width of the jitter window, in degrees, centred on the requested point. */
  const SPREAD: real := 0.01

  /** A value `Math.random()` can return. */
  predicate IsRandomDraw(d: real) {
    0.0 <= d < 1.0
  }

  /** The offset one draw adds to a coordinate. */
  function Jitter(d: real): (offset: real)
    requires IsRandomDraw(d)
    ensures -0.005 <= offset < 0.005
  {
    (d - 0.5) * SPREAD
  }

  /** The id of the sample at `index`: "mock-" and its one-based position. */
  function MockId(index: nat): (id: string)
    ensures StartsWith(id, "mock-")
  {
    "mock-" + Decimal(index + 1)
  }

  /** The fallback list for a request at (`latitude`, `longitude`). */
  function MockPubsNear(latitude: real, longitude: real, draws: seq<real>): (r: seq<Pub>)
    requires |draws| == 2 * |MOCK_PUBS|
    requires forall i :: 0 <= i < |draws| ==> IsRandomDraw(draws[i])
    ensures |r| == |MOCK_PUBS|
    ensures forall i :: 0 <= i < |r| ==>
      && r[i].id == MockId(i)
      && r[i].name == MOCK_PUBS[i].name
      && r[i].address == MOCK_PUBS[i].address
      && r[i].kind == MOCK_PUBS[i].kind
      && r[i].tags == None
      && -0.005 <= r[i].latitude - latitude < 0.005
      && -0.005 <= r[i].longitude - longitude < 0.005
  {
    seq(|MOCK_PUBS|, i requires 0 <= i < |MOCK_PUBS| =>
      var sample := MOCK_PUBS[i];
      Pub(MockId(i), sample.name,
          latitude + Jitter(draws[2 * i]),
          longitude + Jitter(draws[2 * i + 1]),
          sample.address, sample.kind, None))
  }

  /** The three fallback ids are "mock-1", "mock-2" and "mock-3", in sample order. */
  lemma MockIds()
    ensures MockId(0) == "mock-1" && MockId(1) == "mock-2" && MockId(2) == "mock-3"
  {
  }

  /** No two fallback records share an id. */
  lemma MockIdsDistinct(i: nat, j: nat)
    requires i != j
    ensures MockId(i) != MockId(j)
  {
    if MockId(i) == MockId(j) {
      assert Decimal(i + 1) == MockId(i)[5..] == MockId(j)[5..] == Decimal(j + 1);
      DecimalInjective(i + 1, j + 1);
    }
  }

  /** A fallback id never looks like a record parsed from OpenStreetMap. */
  lemma MockIdIsNotOsm(index: nat, id: string)
    requires StartsWith(id, "osm-")
    ensures MockId(index) != id
  {
    assert MockId(index)[0] == 'm' && id[0] == 'o';
  }
}
