/**
 * The map extent (`_infer_bbox`, `_default_bbox`): an explicit box wins;
 * otherwise the first place name found in the lowered query gives its box.
 */
module Bbox {
  import opened Wrappers
  import opened Text

  /** A place name and its box, "lonW,latS,lonE,latN". */
  datatype PlaceHint = PlaceHint(place: string, box: string)

  /** The place hints, in the order they are tried. */
  const PlaceHints: seq<PlaceHint> := [
    PlaceHint("bangladesh", "87,20,93,27"),
    PlaceHint("california", "-130,32,-114,43"),
    PlaceHint("greece", "18,34,30,42"),
    PlaceHint("sahara", "-20,15,30,35"),
    PlaceHint("amazon", "-75,-15,-45,5"),
    PlaceHint("philippines", "117,5,127,21"),
    PlaceHint("western canada", "-140,45,-110,65"),
    PlaceHint("alps", "5,43,15,48"),
    PlaceHint("japan", "128,30,148,46"),
    PlaceHint("iceland", "-26,62,-12,68"),
    PlaceHint("middle east", "30,12,60,38"),
    PlaceHint("northern india", "74,22,87,32"),
    PlaceHint("eastern europe", "18,44,40,56"),
    PlaceHint("portugal", "-10,36,-5,43"),
    PlaceHint("gulf of mexico", "-97,18,-81,30")
  ]

  /** The whole-world extent used when no box is known. */
  const DefaultBbox: string := "-180,-90,180,90"

  /** The box of the first hint whose place occurs in `ql`. */
  function FirstHint(hints: seq<PlaceHint>, ql: string): (r: Option<string>)
    decreases |hints|
  {
    if |hints| == 0 then None
    else if Contains(ql, hints[0].place) then Some(hints[0].box)
    else FirstHint(hints[1..], ql)
  }

  /** Python truthiness of an optional string: present and non-empty. */
  predicate Given(s: Option<string>) {
    s.Some? && |s.value| > 0
  }

  function InferWith(hints: seq<PlaceHint>, query: string, provided: Option<string>): Option<string> {
    if Given(provided) then provided else FirstHint(hints, Lower(query))
  }

  /** `_infer_bbox(query, provided)`. */
  function InferBbox(query: string, provided: Option<string>): Option<string> {
    InferWith(PlaceHints, query, provided)
  }

  /** The first hint in order whose place occurs wins; none occurring gives nothing. */
  lemma {:induction false} FirstHintSpec(hints: seq<PlaceHint>, ql: string)
    ensures FirstHint(hints, ql).None? <==> forall k :: 0 <= k < |hints| ==> !Contains(ql, hints[k].place)
    ensures FirstHint(hints, ql).Some? ==>
              exists k :: 0 <= k < |hints| && Contains(ql, hints[k].place) && hints[k].box == FirstHint(hints, ql).value
                && forall j :: 0 <= j < k ==> !Contains(ql, hints[j].place)
    decreases |hints|
  {
    if |hints| > 0 && !Contains(ql, hints[0].place) {
      FirstHintSpec(hints[1..], ql);
      var r := FirstHint(hints, ql);
      if r.Some? {
        var k :| 0 <= k < |hints[1..]| && Contains(ql, hints[1..][k].place) && hints[1..][k].box == r.value
                 && forall j :: 0 <= j < k ==> !Contains(ql, hints[1..][j].place);
        assert hints[k + 1] == hints[1..][k];
        forall j | 0 <= j < k + 1 ensures !Contains(ql, hints[j].place) {
          if j > 0 {
            assert hints[j] == hints[1..][j - 1];
          }
        }
      }
    }
  }

  /**
   * A given box is used as is; otherwise the box of the first place found in
   * the lowered query, and no box when no place is found.
   */
  lemma InferWithSpec(hints: seq<PlaceHint>, query: string, provided: Option<string>)
    ensures var r := InferWith(hints, query, provided);
      && (Given(provided) ==> r == provided)
      && (!Given(provided) ==> r == FirstHint(hints, Lower(query)))
      && (!Given(provided) ==> (r.None? <==> forall k :: 0 <= k < |hints| ==> !Contains(Lower(query), hints[k].place)))
  {
    FirstHintSpec(hints, Lower(query));
  }

  /** The inferred box does not depend on the case of the query. */
  lemma InferBboxIgnoresCase(query: string, provided: Option<string>)
    ensures InferBbox(Lower(query), provided) == InferBbox(query, provided)
  {
    LowerIdempotent(query);
  }

  /** The lowered query names none of the known places. */
  predicate NamesNoPlace(query: string) {
    forall k :: 0 <= k < |PlaceHints| ==> !Contains(Lower(query), PlaceHints[k].place)
  }

  /** No usable box and no known place: the extent is the whole world. */
  lemma NoPlaceWorldExtent(query: string, bbox: Option<string>)
    requires !Given(bbox) && NamesNoPlace(query)
    ensures BboxOrDefault(InferBbox(query, bbox)) == DefaultBbox
  {
    InferWithSpec(PlaceHints, query, bbox);
  }

  /** `bbox or _default_bbox()`. */
  function BboxOrDefault(bbox: Option<string>): (r: string)
    ensures |r| > 0
    ensures Given(bbox) ==> r == bbox.value
    ensures !Given(bbox) ==> r == DefaultBbox
  {
    if Given(bbox) then bbox.value else DefaultBbox
  }
}
