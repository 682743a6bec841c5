/**
 * `parseOverpassResponse`: Overpass `elements` to `Pub` records. Each
 * element is mapped to a pub or to `null`, the nulls are filtered out and
 * the first fifty survivors are kept.
 */
module Overpass {
  import opened Wrappers
  import opened Text
  import opened Pubs
  import Address

  /** The `center` object Overpass adds to ways (`out center`). */
  datatype Center = Center(lat: Option<real>, lon: Option<real>)

  /** One entry of `elements`; `osmType` is the element's `type` ("node", "way", ...). */
  datatype Element = Element(
    osmType: Option<string>,
    osmId: Option<nat>,
    lat: Option<real>,
    lon: Option<real>,
    center: Option<Center>,
    tags: Option<Tags>)

  /** The response body; `elements` may be missing. */
  datatype Body = Body(elements: Option<seq<Element>>)

  const MAX_RESULTS: nat := 50
  const UNNAMED: string := "Unnamed Pub"
  const DEFAULT_KIND: string := "pub"

  /** The latitude the element offers: its own when non-zero, else its center's (if it has a center). */
  function Latitude(e: Element): (r: Option<real>)
    ensures NumTruthy(e.lat) ==> r == e.lat
    ensures NumTruthy(r) && r != e.lat ==> e.center.Some? && r == e.center.value.lat
  {
    if NumTruthy(e.lat) then e.lat else if e.center.None? then None else e.center.value.lat
  }

  /** The longitude the element offers: its own when non-zero, else its center's (if it has a center). */
  function Longitude(e: Element): (r: Option<real>)
    ensures NumTruthy(e.lon) ==> r == e.lon
    ensures NumTruthy(r) && r != e.lon ==> e.center.Some? && r == e.center.value.lon
  {
    if NumTruthy(e.lon) then e.lon else if e.center.None? then None else e.center.value.lon
  }

  /** Some non-zero latitude is on offer: the element's own, or else its center's. */
  predicate HasLatitude(e: Element) {
    NumTruthy(e.lat) || (e.center.Some? && NumTruthy(e.center.value.lat))
  }

  predicate HasLongitude(e: Element) {
    NumTruthy(e.lon) || (e.center.Some? && NumTruthy(e.center.value.lon))
  }

  /** An element that survives parsing. */
  predicate Usable(e: Element) {
    HasLatitude(e) && HasLongitude(e)
  }

  /** A string as a template literal writes it; a missing one reads "undefined". */
  function ShowString(v: Option<string>): string {
    match v
    case Some(s) => s
    case None => "undefined"
  }

  /** A whole number as a template literal writes it; a missing one reads "undefined". */
  function ShowNat(v: Option<nat>): (s: string)
    ensures '-' !in s
  {
    match v
    case Some(n) => Decimal(n)
    case None => "undefined"
  }

  /** The record id: "osm-", the element's type, a dash, the element's id. */
  function OsmId(e: Element): (id: string)
    ensures StartsWith(id, "osm-")
  {
    "osm-" + ShowString(e.osmType) + "-" + ShowNat(e.osmId)
  }

  /** The record an element maps to, or `None` for the `null` the filter drops. */
  function ParseElement(e: Element): (r: Option<Pub>)
    ensures r.Some? <==> Usable(e)
  {
    var lat := Latitude(e);
    var lon := Longitude(e);
    if !NumTruthy(lat) || !NumTruthy(lon) then None
    else
      var tags := e.tags.GetOr(map[]);
      Some(Pub(
        OsmId(e),
        TagOr(tags, "name", "name:en", UNNAMED),
        lat.value,
        lon.value,
        Address.AddressOf(tags),
        TagOr(tags, "amenity", "craft", DEFAULT_KIND),
        Some(tags)))
  }

  /**
   * The `a || b || fallback` defaulting of name and type: the first truthy
   * value among tags `a` and `b` (the same filter the address applies to
   * its tags), else the fallback; a non-empty fallback gives a non-empty
   * value.
   */
  lemma {:induction false} TagOrIsFirstPresent(tags: Tags, a: string, b: string, fallback: string)
    ensures TagOr(tags, a, b, fallback) == (Address.PresentFields(tags, [a, b]) + [fallback])[0]
    ensures fallback != "" ==> TagOr(tags, a, b, fallback) != ""
  {
    var only_b := if TagTruthy(tags, b) then [tags[b]] else [];
    assert [b][1..] == [];
    assert Address.PresentFields(tags, [b]) == only_b;
    assert [a, b][1..] == [b];
    assert Address.PresentFields(tags, [a, b]) == (if TagTruthy(tags, a) then [tags[a]] else []) + only_b;
  }

  /**
   * A parsed record is located: the element's own non-zero `lat`/`lon`
   * wins, the center's is used only otherwise. Its id is `osm-<type>-<id>`,
   * its name and type are never empty and its tags are the element's or `{}`.
   */
  lemma ParseElementFacts(e: Element)
    requires Usable(e)
    ensures var p := ParseElement(e).value;
            && p.latitude != 0.0 && p.longitude != 0.0
            && (NumTruthy(e.lat) ==> p.latitude == e.lat.value)
            && (!NumTruthy(e.lat) ==> e.center.Some? && e.center.value.lat == Some(p.latitude))
            && (NumTruthy(e.lon) ==> p.longitude == e.lon.value)
            && (!NumTruthy(e.lon) ==> e.center.Some? && e.center.value.lon == Some(p.longitude))
            && p.id == OsmId(e) && p.name != "" && p.kind != ""
            && p.tags == Some(e.tags.GetOr(map[]))
  {
  }

  /** The filter step: the records, without the nulls, in order. */
  function DropNulls(ps: seq<Option<Pub>>): (r: seq<Pub>)
    ensures |r| <= |ps|
  {
    if ps == [] then []
    else (if ps[0].Some? then [ps[0].value] else []) + DropNulls(ps[1..])
  }

  /** The whole parse: map, filter, then keep at most MAX_RESULTS. */
  function Parse(data: Option<Body>): (r: seq<Pub>)
    ensures |r| <= MAX_RESULTS
    ensures data.None? || data.value.elements.None? ==> r == []
  {
    if data.None? || data.value.elements.None? then []
    else
      var es := data.value.elements.value;
      var kept := DropNulls(seq(|es|, i requires 0 <= i < |es| => ParseElement(es[i])));
      if |kept| <= MAX_RESULTS then kept else kept[..MAX_RESULTS]
  }

  /** The records of the usable elements, element by element, in input order. */
  function Survivors(es: seq<Element>): seq<Pub>
  {
    if es == [] then [] else Kept(es[0]) + Survivors(es[1..])
  }

  /** What one element contributes to the survivors. */
  function Kept(e: Element): seq<Pub>
  {
    if Usable(e) then [ParseElement(e).value] else []
  }

  /** Mapping to nulls and filtering them out keeps exactly the usable elements' records. */
  lemma {:induction false} DropNullsIsSurvivors(es: seq<Element>)
    ensures DropNulls(seq(|es|, i requires 0 <= i < |es| => ParseElement(es[i]))) == Survivors(es)
    decreases |es|
  {
    var ps := seq(|es|, i requires 0 <= i < |es| => ParseElement(es[i]));
    if es != [] {
      DropNullsIsSurvivors(es[1..]);
      assert ps[1..] == seq(|es[1..]|, i requires 0 <= i < |es[1..]| => ParseElement(es[1..][i]));
    }
  }

  /** The response's records are the first fifty survivors, in upstream order. */
  lemma ParseIsFirstFiftySurvivors(es: seq<Element>)
    ensures var s := Survivors(es);
            Parse(Some(Body(Some(es)))) == if |s| <= MAX_RESULTS then s else s[..MAX_RESULTS]
  {
    DropNullsIsSurvivors(es);
  }

  /** The survivors of a non-empty list: what its first element keeps, then the rest. */
  lemma SurvivorsCons(e: Element, rest: seq<Element>)
    ensures Survivors([e] + rest) == Kept(e) + Survivors(rest)
  {
    assert ([e] + rest)[1..] == rest;
  }

  /** Helper: regrouping a concatenation of records. */
  lemma AppendAssociates(x: seq<Pub>, y: seq<Pub>, z: seq<Pub>)
    ensures x + (y + z) == (x + y) + z
  {
  }

  /** Helper: a non-empty list, and its concatenation with another, split at the first element. */
  lemma SplitHead(a: seq<Element>, b: seq<Element>)
    requires a != []
    ensures a == [a[0]] + a[1..] && a + b == [a[0]] + (a[1..] + b)
  {
  }

  /** Survivors of a concatenation are the survivors of each part, in order. */
  lemma {:induction false} SurvivorsAppend(a: seq<Element>, b: seq<Element>)
    ensures Survivors(a + b) == Survivors(a) + Survivors(b)
    decreases |a|
  {
    if a != [] {
      var e, rest := a[0], a[1..];
      SurvivorsAppend(rest, b);
      SplitHead(a, b);
      SurvivorsCons(e, rest + b);
      SurvivorsCons(e, rest);
      AppendAssociates(Kept(e), Survivors(rest), Survivors(b));
    } else {
      assert a + b == b;
    }
  }

  /** Once fifty elements have survived, later elements never reach the result. */
  lemma ParseIgnoresElementsAfterFiftySurvivors(es: seq<Element>, more: seq<Element>)
    requires |Survivors(es)| >= MAX_RESULTS
    ensures Parse(Some(Body(Some(es + more)))) == Parse(Some(Body(Some(es))))
  {
    ParseIsFirstFiftySurvivors(es);
    ParseIsFirstFiftySurvivors(es + more);
    SurvivorsAppend(es, more);
    var s := Survivors(es);
    assert (s + Survivors(more))[..MAX_RESULTS] == s[..MAX_RESULTS];
  }

  /** Every survivor is the record of some usable input element. */
  lemma {:induction false} SurvivorFrom(es: seq<Element>, k: nat)
    requires k < |Survivors(es)|
    ensures exists j :: 0 <= j < |es| && Usable(es[j]) && Survivors(es)[k] == ParseElement(es[j]).value
    decreases |es|
  {
    var head := Kept(es[0]);
    if k < |head| {
      assert Survivors(es)[k] == ParseElement(es[0]).value;
    } else {
      SurvivorFrom(es[1..], k - |head|);
      var j :| 0 <= j < |es[1..]| && Usable(es[1..][j]) && Survivors(es[1..])[k - |head|] == ParseElement(es[1..][j]).value;
      assert es[1..][j] == es[j + 1];
    }
  }

  /**
   * Every record of a response comes from a usable element and carries its
   * defaults: id `osm-<type>-<id>`, name `name`, else `name:en`, else
   * "Unnamed Pub", type `amenity`, else `craft`, else "pub", the element's
   * tags (or `{}`), and the formatted address.
   */
  lemma ParsedPubFields(es: seq<Element>, k: nat)
    requires k < |Parse(Some(Body(Some(es))))|
    ensures var p := Parse(Some(Body(Some(es))))[k];
            exists j :: 0 <= j < |es| && Usable(es[j]) &&
              var tags := es[j].tags.GetOr(map[]);
              && p.id == "osm-" + ShowString(es[j].osmType) + "-" + ShowNat(es[j].osmId)
              && p.name == TagOr(tags, "name", "name:en", UNNAMED)
              && p.kind == TagOr(tags, "amenity", "craft", DEFAULT_KIND)
              && p.address == Address.AddressOf(tags)
              && p.tags == Some(tags)
              && p.latitude == Latitude(es[j]).value
              && p.longitude == Longitude(es[j]).value
  {
    ParseIsFirstFiftySurvivors(es);
    SurvivorFrom(es, k);
  }

  /** Every record of a response has a non-zero latitude and longitude. */
  lemma ParsedPubsLocated(data: Option<Body>, k: nat)
    requires k < |Parse(data)|
    ensures Parse(data)[k].latitude != 0.0 && Parse(data)[k].longitude != 0.0
    ensures StartsWith(Parse(data)[k].id, "osm-")
  {
    var es := data.value.elements.value;
    ParseIsFirstFiftySurvivors(es);
    SurvivorFrom(es, k);
    var j :| 0 <= j < |es| && Usable(es[j]) && Survivors(es)[k] == ParseElement(es[j]).value;
    ParseElementFacts(es[j]);
  }

  /** No two usable elements share both their rendered type and their id. */
  predicate DistinctElements(es: seq<Element>) {
    forall i, j :: 0 <= i < j < |es| && Usable(es[i]) && Usable(es[j]) ==>
      ShowString(es[i].osmType) != ShowString(es[j].osmType) || es[i].osmId != es[j].osmId
  }

  /** Helper: dropping the first element keeps the rest distinct. */
  lemma DistinctElementsTail(es: seq<Element>)
    requires es != [] && DistinctElements(es)
    ensures DistinctElements(es[1..])
  {
  }

  /** The first element's id differs from the id of every later survivor. */
  lemma HeadIdNotInTail(es: seq<Element>, q: nat)
    requires es != [] && DistinctElements(es) && Usable(es[0])
    requires q < |Survivors(es[1..])|
    ensures Survivors(es[1..])[q].id != OsmId(es[0])
  {
    var tail := es[1..];
    SurvivorFrom(tail, q);
    var j :| 0 <= j < |tail| && Usable(tail[j]) && Survivors(tail)[q] == ParseElement(tail[j]).value;
    assert tail[j] == es[j + 1];
    ParseElementFacts(es[j + 1]);
    if Survivors(tail)[q].id == OsmId(es[0]) {
      OsmIdInjective(es[0], es[j + 1]);
    }
  }

  /** Distinct upstream elements give records with distinct ids. */
  lemma {:induction false} SurvivorIdsDistinct(es: seq<Element>)
    requires DistinctElements(es)
    ensures forall p, q :: 0 <= p < q < |Survivors(es)| ==> Survivors(es)[p].id != Survivors(es)[q].id
    decreases |es|
  {
    if es != [] {
      var tail := es[1..];
      DistinctElementsTail(es);
      SurvivorIdsDistinct(tail);
      var s := Survivors(es);
      var h := Kept(es[0]);
      assert s == h + Survivors(tail);
      forall p, q | 0 <= p < q < |s| ensures s[p].id != s[q].id {
        if p < |h| {
          ParseElementFacts(es[0]);
          HeadIdNotInTail(es, q - |h|);
        } else {
          assert s[p] == Survivors(tail)[p - |h|] && s[q] == Survivors(tail)[q - |h|];
        }
      }
    }
  }

  /** Distinct upstream elements give a response whose ids are unique. */
  lemma ParsedIdsUnique(es: seq<Element>)
    requires DistinctElements(es)
    ensures var r := Parse(Some(Body(Some(es))));
            forall p, q :: 0 <= p < q < |r| ==> r[p].id != r[q].id
  {
    ParseIsFirstFiftySurvivors(es);
    SurvivorIdsDistinct(es);
  }

  /** The numeral part of an id never holds a dash, so an id splits back at its last dash. */
  lemma SplitAtLastDash(a: string, b: string, c: string, d: string)
    requires '-' !in b && '-' !in d
    requires a + "-" + b == c + "-" + d
    ensures a == c && b == d
  {
    var x := a + "-" + b;
    assert x[|x| - |b| - 1] == '-' && x[|x| - |d| - 1] == '-';
    assert forall i :: |x| - |b| <= i < |x| ==> x[i] != '-';
    assert forall i :: |x| - |d| <= i < |x| ==> x[i] != '-';
    assert |b| == |d|;
    assert a == x[..|a|] == c;
    assert b == x[|a| + 1..] == d;
  }

  /** Two elements get the same id only if their rendered types and their ids agree. */
  lemma OsmIdInjective(e1: Element, e2: Element)
    requires OsmId(e1) == OsmId(e2)
    ensures ShowString(e1.osmType) == ShowString(e2.osmType)
    ensures e1.osmId == e2.osmId
  {
    var t1, t2 := ShowString(e1.osmType), ShowString(e2.osmType);
    var n1, n2 := ShowNat(e1.osmId), ShowNat(e2.osmId);
    assert OsmId(e1) == "osm-" + (t1 + "-" + n1);
    assert OsmId(e2) == "osm-" + (t2 + "-" + n2);
    assert t1 + "-" + n1 == t2 + "-" + n2;
    SplitAtLastDash(t1, n1, t2, n2);
    if e1.osmId.Some? && e2.osmId.Some? {
      DecimalInjective(e1.osmId.value, e2.osmId.value);
    }
  }
}
