/**
 * The offline layer picks (`_offline_select_from_query`): fixed layer ids
 * chosen by keywords found in the lowered query, at most three of them.
 */
module Heuristic {
  import opened Text
  import opened Seqs

  /** A group of trigger keywords and the layer it picks. */
  datatype Rule = Rule(keywords: seq<string>, layer: string)

  /** The rules, in the order the picks are made. */
  const Rules: seq<Rule> := [
    Rule(["fire", "fires", "wildfire", "wildfires"], "MODIS_Terra_Thermal_Anomalies_Night"),
    Rule(["smoke", "aerosol", "aod", "haze", "plume"], "MODIS_Terra_Aerosol"),
    Rule(["snow", "snow cover", "ice", "glacier"], "MODIS_Terra_Snow_Cover_Daily"),
    Rule(["sst", "sea surface temperature", "sea-surface temperature", "ocean temp"],
         "GHRSST_L4_MUR_Sea_Surface_Temperature"),
    Rule(["ash", "volcanic", "volcano", "so2"], "OMI_SO2_Column_Amount"),
    Rule(["flood", "flooding", "surface water", "water extent", "inundation"],
         "VIIRS_SNPP_Flood_Water_Composite"),
    Rule(["dust", "sand", "blowing dust"], "OMI_Aerosol_Index")
  ]

  /** At most this many offline picks are returned. */
  const MaxPicks: nat := 3

  /** `any(k in ql for k in keywords)`. */
  predicate Fires(r: Rule, ql: string) {
    exists k :: 0 <= k < |r.keywords| && Contains(ql, r.keywords[k])
  }

  /** The layers of the rules that fire, in rule order. */
  function Picks(rules: seq<Rule>, ql: string): (r: seq<string>)
    ensures |r| <= |rules|
    decreases |rules|
  {
    if |rules| == 0 then []
    else (if Fires(rules[0], ql) then [rules[0].layer] else []) + Picks(rules[1..], ql)
  }

  /** The picks, without empty ids or repeats, cut to three. */
  function SelectWith(rules: seq<Rule>, q: string): seq<string> {
    var picks := Picks(rules, Lower(q));
    Take(Dedupe(NonEmpty(picks)), MaxPicks)
  }

  /** `[lid for lid in picks if lid]`. */
  function NonEmpty(xs: seq<string>): (r: seq<string>)
    ensures forall k :: 0 <= k < |r| ==> |r[k]| > 0
    ensures forall x :: x in r <==> x in xs && |x| > 0
    decreases |xs|
  {
    if |xs| == 0 then [] else (if |xs[0]| > 0 then [xs[0]] else []) + NonEmpty(xs[1..])
  }

  /** `_offline_select_from_query(q)`. */
  function OfflineSelect(q: string): seq<string> {
    SelectWith(Rules, q)
  }

  /** A layer is picked exactly when one of its rules fires. */
  lemma {:induction false} PicksExact(rules: seq<Rule>, ql: string, id: string)
    ensures id in Picks(rules, ql) <==> exists j :: 0 <= j < |rules| && rules[j].layer == id && Fires(rules[j], ql)
    decreases |rules|
  {
    if |rules| > 0 {
      PicksExact(rules[1..], ql, id);
      if exists j :: 0 <= j < |rules[1..]| && rules[1..][j].layer == id && Fires(rules[1..][j], ql) {
        var j :| 0 <= j < |rules[1..]| && rules[1..][j].layer == id && Fires(rules[1..][j], ql);
        assert rules[j + 1] == rules[1..][j];
      }
      if exists j :: 0 <= j < |rules| && rules[j].layer == id && Fires(rules[j], ql) {
        var j :| 0 <= j < |rules| && rules[j].layer == id && Fires(rules[j], ql);
        if j > 0 {
          assert rules[1..][j - 1] == rules[j];
        }
      }
    }
  }

  /** Rules with distinct layers pick distinct layers, in rule order. */
  lemma {:induction false} PicksDistinct(rules: seq<Rule>, ql: string)
    requires forall i, j :: 0 <= i < j < |rules| ==> rules[i].layer != rules[j].layer
    ensures Distinct(Picks(rules, ql))
    decreases |rules|
  {
    if |rules| > 0 {
      PicksDistinct(rules[1..], ql);
      if rules[0].layer in Picks(rules[1..], ql) {
        PicksExact(rules[1..], ql, rules[0].layer);
      }
    }
  }

  /** With distinct non-empty layers, filtering and de-duplication change nothing. */
  lemma {:induction false} NonEmptyKeeps(xs: seq<string>)
    requires forall k :: 0 <= k < |xs| ==> |xs[k]| > 0
    ensures NonEmpty(xs) == xs
    decreases |xs|
  {
    if |xs| > 0 {
      NonEmptyKeeps(xs[1..]);
    }
  }

  /** Rules whose layers are distinct non-empty ids. */
  predicate WellFormed(rules: seq<Rule>) {
    && (forall i, j :: 0 <= i < j < |rules| ==> rules[i].layer != rules[j].layer)
    && (forall i :: 0 <= i < |rules| ==> |rules[i].layer| > 0)
  }

  /**
   * With well-formed rules the result is the first three layers, in rule
   * order, whose rule has a keyword in the lowered query; they are distinct.
   */
  lemma SelectWithSpec(rules: seq<Rule>, q: string)
    requires WellFormed(rules)
    ensures var r := SelectWith(rules, q);
      && r == Take(Picks(rules, Lower(q)), MaxPicks)
      && Distinct(r) && |r| <= MaxPicks
      && forall id :: id in r ==> exists j :: 0 <= j < |rules| && rules[j].layer == id && Fires(rules[j], Lower(q))
  {
    var picks := Picks(rules, Lower(q));
    PicksDistinct(rules, Lower(q));
    forall k | 0 <= k < |picks| ensures |picks[k]| > 0 {
      PicksExact(rules, Lower(q), picks[k]);
    }
    NonEmptyKeeps(picks);
    DedupeOfDistinct(picks);
    TakeDistinct(picks, MaxPicks);
    forall id | id in SelectWith(rules, q)
      ensures exists j :: 0 <= j < |rules| && rules[j].layer == id && Fires(rules[j], Lower(q))
    {
      PicksExact(rules, Lower(q), id);
    }
  }

  /** The source's rules pick distinct, non-empty layers. */
  lemma RulesWellFormed()
    ensures WellFormed(Rules)
  {
  }

  /** `_offline_select_from_query` returns the first three fired rules' layers, distinct. */
  lemma OfflineSelectSpec(q: string)
    ensures var r := OfflineSelect(q);
      && r == Take(Picks(Rules, Lower(q)), MaxPicks)
      && Distinct(r) && |r| <= MaxPicks
  {
    RulesWellFormed();
    SelectWithSpec(Rules, q);
  }

  /** The picks do not depend on the case of the query. */
  lemma OfflineSelectIgnoresCase(q: string)
    ensures OfflineSelect(Lower(q)) == OfflineSelect(q)
  {
    LowerIdempotent(q);
  }
}
