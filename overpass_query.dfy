/**
 * The Overpass QL text that `queryOverpassAPI` posts: every node and way
 * tagged as a pub, bar, beer garden or brewery within the radius of the
 * requested point. JavaScript's rendering of a number inside a template
 * literal is passed in as `show`.
 */
module OverpassQuery {

  /** The element kinds queried, in the order the query lists them. */
  const KINDS: seq<string> := ["node", "way"]

  /** The tag filters queried, as (key, value), in the order the query lists them. */
  const FILTERS: seq<(string, string)> :=
    [("amenity", "pub"), ("amenity", "bar"), ("amenity", "biergarten"), ("craft", "brewery")]

  /** The radius converted from kilometres to metres. */
  function RadiusMeters(radiusKm: real): (r: real)
    ensures r / 1000.0 == radiusKm
  {
    radiusKm * 1000.0
  }

  /** The `(around:r,lat,lon)` filter shared by every clause. */
  function Around(lat: real, lon: real, radiusKm: real, show: real -> string): (r: string)
    ensures |r| > 9 && r[..8] == "(around:" && r[|r| - 1] == ')'
  {
    "(around:" + show(RadiusMeters(radiusKm)) + "," + show(lat) + "," + show(lon) + ")"
  }

  const HEADER: string := "\n      [out:json][timeout:25];\n      (\n"
  const FOOTER: string := "      );\n      out center meta;\n    "

  /** One statement of the union: a kind, a tag filter and the radius filter. */
  function Clause(kind: string, filter: (string, string), around: string): string {
    kind + "[\"" + filter.0 + "\"=\"" + filter.1 + "\"]" + around + ";"
  }

  /** A clause on its own indented line of the template. */
  function Line(kind: string, filter: (string, string), around: string): string {
    "        " + Clause(kind, filter, around) + "\n"
  }

  /**
   * The query text, line by line as the template literal spells it: the
   * header, one line per (kind, filter) pair, all sharing one radius
   * filter, and the footer.
   */
  function QueryText(lat: real, lon: real, radiusKm: real, show: real -> string): (r: string)
    ensures r == HEADER + Lines(Pairs(), Around(lat, lon, radiusKm, show)) + FOOTER
  {
    var around := Around(lat, lon, radiusKm, show);
    PairsInOrder();
    LinesOfEight(Pairs(), around);
    Reassociate(HEADER,
      Line("node", FILTERS[0], around), Line("node", FILTERS[1], around),
      Line("node", FILTERS[2], around), Line("node", FILTERS[3], around),
      Line("way", FILTERS[0], around), Line("way", FILTERS[1], around),
      Line("way", FILTERS[2], around), Line("way", FILTERS[3], around),
      FOOTER);
    HEADER +
    Line("node", ("amenity", "pub"), around) +
    Line("node", ("amenity", "bar"), around) +
    Line("node", ("amenity", "biergarten"), around) +
    Line("node", ("craft", "brewery"), around) +
    Line("way", ("amenity", "pub"), around) +
    Line("way", ("amenity", "bar"), around) +
    Line("way", ("amenity", "biergarten"), around) +
    Line("way", ("craft", "brewery"), around) +
    FOOTER
  }

  /** Every (kind, filter) pair, kinds outermost, in query order. */
  function Pairs(): (ps: seq<(string, (string, string))>)
    ensures |ps| == |KINDS| * |FILTERS|
    ensures forall i :: 0 <= i < |ps| ==> ps[i].0 in KINDS && ps[i].1 in FILTERS
  {
    seq(|KINDS| * |FILTERS|, i requires 0 <= i < |KINDS| * |FILTERS| => (KINDS[i / |FILTERS|], FILTERS[i % |FILTERS|]))
  }

  /** The lines of the given clauses, in order. */
  function Lines(ps: seq<(string, (string, string))>, around: string): string {
    if ps == [] then "" else Line(ps[0].0, ps[0].1, around) + Lines(ps[1..], around)
  }

  /** The pairs, spelled out in query order. */
  lemma PairsInOrder()
    ensures Pairs() == [
      ("node", FILTERS[0]), ("node", FILTERS[1]), ("node", FILTERS[2]), ("node", FILTERS[3]),
      ("way", FILTERS[0]), ("way", FILTERS[1]), ("way", FILTERS[2]), ("way", FILTERS[3])]
  {
  }

  /** The lines of eight clauses, one after the other. */
  lemma LinesOfEight(ps: seq<(string, (string, string))>, a: string)
    requires |ps| == 8
    ensures Lines(ps, a) ==
      Line(ps[0].0, ps[0].1, a) + (Line(ps[1].0, ps[1].1, a) + (Line(ps[2].0, ps[2].1, a) +
      (Line(ps[3].0, ps[3].1, a) + (Line(ps[4].0, ps[4].1, a) + (Line(ps[5].0, ps[5].1, a) +
      (Line(ps[6].0, ps[6].1, a) + Line(ps[7].0, ps[7].1, a)))))))
  {
    assert Lines(ps[8..], a) == "";
    assert Lines(ps[7..], a) == Line(ps[7].0, ps[7].1, a) + "";
    assert Lines(ps[6..], a) == Line(ps[6].0, ps[6].1, a) + Lines(ps[7..], a);
    assert Lines(ps[5..], a) == Line(ps[5].0, ps[5].1, a) + Lines(ps[6..], a);
    assert Lines(ps[4..], a) == Line(ps[4].0, ps[4].1, a) + Lines(ps[5..], a);
    assert Lines(ps[3..], a) == Line(ps[3].0, ps[3].1, a) + Lines(ps[4..], a);
    assert Lines(ps[2..], a) == Line(ps[2].0, ps[2].1, a) + Lines(ps[3..], a);
    assert Lines(ps[1..], a) == Line(ps[1].0, ps[1].1, a) + Lines(ps[2..], a);
  }

  /** The template's left-to-right concatenation, regrouped around the eight lines. */
  lemma Reassociate(h: string, l0: string, l1: string, l2: string, l3: string,
                    l4: string, l5: string, l6: string, l7: string, f: string)
    ensures h + l0 + l1 + l2 + l3 + l4 + l5 + l6 + l7 + f ==
      h + (l0 + (l1 + (l2 + (l3 + (l4 + (l5 + (l6 + l7))))))) + f
  {
    var r6 := l6 + l7;
    var r5 := l5 + r6;
    var r4 := l4 + r5;
    var r3 := l3 + r4;
    var r2 := l2 + r3;
    var r1 := l1 + r2;
    assert h + (l0 + r1) == h + l0 + r1;
    assert h + l0 + r1 == h + l0 + l1 + r2;
    assert h + l0 + l1 + r2 == h + l0 + l1 + l2 + r3;
    assert h + l0 + l1 + l2 + r3 == h + l0 + l1 + l2 + l3 + r4;
    assert h + l0 + l1 + l2 + l3 + r4 == h + l0 + l1 + l2 + l3 + l4 + r5;
    assert h + l0 + l1 + l2 + l3 + l4 + r5 == h + l0 + l1 + l2 + l3 + l4 + l5 + r6;
    assert h + l0 + l1 + l2 + l3 + l4 + l5 + r6 == h + l0 + l1 + l2 + l3 + l4 + l5 + l6 + l7;
  }

  /** The query has eight clauses: each kind with each filter exactly once. */
  lemma PairsAreEveryKindWithEveryFilter()
    ensures |Pairs()| == 8
    ensures forall k, f :: k in KINDS && f in FILTERS ==> (k, f) in Pairs()
    ensures forall i, j :: 0 <= i < j < |Pairs()| ==> Pairs()[i] != Pairs()[j]
  {
    var ps := Pairs();
    forall k, f | k in KINDS && f in FILTERS ensures (k, f) in ps {
      var a :| 0 <= a < |KINDS| && KINDS[a] == k;
      var b :| 0 <= b < |FILTERS| && FILTERS[b] == f;
      assert ps[a * 4 + b] == (k, f);
    }
  }
}
