/**
 * The Worldview layer catalog (the `layers` object of the configuration
 * document) and the choice of a base true-colour layer (`_prefer_true_color`).
 *
 * The catalog is a JSON object, so it is modelled as its entries in insertion
 * order; only a layer's id and its `title` field matter here, a missing title
 * reading as the empty string.
 */
module Catalog {
  import opened Wrappers
  import opened Text

  datatype Layer = Layer(id: string, title: string)

  type Catalog = seq<Layer>

  /** The ids of the catalog, in order. */
  function Ids(cat: Catalog): (r: seq<string>)
    ensures |r| == |cat|
    ensures forall i :: 0 <= i < |cat| ==> r[i] == cat[i].id
  {
    seq(|cat|, i requires 0 <= i < |cat| => cat[i].id)
  }

  /** The marker every Corrected Reflectance true-colour layer id carries. */
  const TrueColorMarker: string := "CorrectedReflectance_TrueColor"

  /** The base layers preferred, in this order, when the catalog has them. */
  const PreferredIds: seq<string> := [
    "VIIRS_SNPP_CorrectedReflectance_TrueColor",
    "MODIS_Terra_CorrectedReflectance_TrueColor",
    "MODIS_Aqua_CorrectedReflectance_TrueColor"
  ]

  /** The base layer used when no catalog is at hand. */
  const DefaultTrueColor: string := "MODIS_Terra_" + TrueColorMarker

  /** An id names a true-colour base layer (case-sensitive, as in the catalog). */
  predicate IsTrueColorId(id: string) {
    Contains(id, TrueColorMarker)
  }

  /** A layer looks like a true-colour base layer by its id or its title. */
  predicate LooksTrueColor(l: Layer) {
    IsTrueColorId(l.id) || Contains(l.title, "True Color")
  }

  /** The first of `pids` that is an id of the catalog. */
  function FirstPresent(pids: seq<string>, ids: seq<string>): (r: Option<string>)
    ensures r.Some? ==> r.value in ids
    ensures r.Some? ==> exists k :: 0 <= k < |pids| && pids[k] == r.value && forall j :: 0 <= j < k ==> pids[j] !in ids
    ensures r.None? <==> forall k :: 0 <= k < |pids| ==> pids[k] !in ids
    decreases |pids|
  {
    if |pids| == 0 then None
    else if pids[0] in ids then Some(pids[0])
    else
      FirstPresent(pids[1..], ids)
  }

  /** The id of the first catalog entry that looks like a true-colour layer. */
  function FirstLooking(cat: Catalog): (r: Option<string>)
    ensures r.Some? ==> exists i :: 0 <= i < |cat| && cat[i].id == r.value && LooksTrueColor(cat[i])
                          && forall j :: 0 <= j < i ==> !LooksTrueColor(cat[j])
    ensures r.None? <==> forall i :: 0 <= i < |cat| ==> !LooksTrueColor(cat[i])
    decreases |cat|
  {
    if |cat| == 0 then None
    else if LooksTrueColor(cat[0]) then Some(cat[0].id)
    else
      FirstLooking(cat[1..])
  }

  /** The first preferred id the catalog has, else the first true-colour-looking entry. */
  function PreferFrom(pids: seq<string>, cat: Catalog): Option<string> {
    match FirstPresent(pids, Ids(cat))
    case Some(id) => Some(id)
    case None => FirstLooking(cat)
  }

  /** The base true-colour layer `_prefer_true_color` picks, if any. */
  function PreferTrueColor(cat: Catalog): Option<string> {
    PreferFrom(PreferredIds, cat)
  }

  /**
   * The choice is a layer of the catalog; a preferred id is chosen exactly
   * when one is present, and otherwise the first entry that looks true-colour;
   * nothing is chosen only when no entry qualifies either way.
   */
  lemma PreferFromSpec(pids: seq<string>, cat: Catalog)
    ensures var r := PreferFrom(pids, cat);
      && (r.Some? ==> r.value in Ids(cat))
      && ((exists k :: 0 <= k < |pids| && pids[k] in Ids(cat)) <==> r.Some? && r == FirstPresent(pids, Ids(cat)))
      && ((forall k :: 0 <= k < |pids| ==> pids[k] !in Ids(cat)) ==> r == FirstLooking(cat))
      && (r.None? <==> (forall k :: 0 <= k < |pids| ==> pids[k] !in Ids(cat))
                       && (forall i :: 0 <= i < |cat| ==> !LooksTrueColor(cat[i])))
  {
    var r := FirstLooking(cat);
    if r.Some? {
      var i :| 0 <= i < |cat| && cat[i].id == r.value && LooksTrueColor(cat[i]);
      assert Ids(cat)[i] == r.value;
    }
  }

  /** The default base layer is a true-colour layer. */
  lemma DefaultIsTrueColor()
    ensures IsTrueColorId(DefaultTrueColor)
  {
    assert OccursAt(DefaultTrueColor, TrueColorMarker, |"MODIS_Terra_"|);
  }
}
