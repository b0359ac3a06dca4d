/**
 * How well a catalog layer matches one query phrase (`score_layer` inside
 * `_search_layers`): a containment bonus, points per shared token and points
 * per keyword-hint pattern.
 */
module Scoring {
  import opened Text
  import opened Catalog

  /** A keyword and the id or title fragments it boosts. */
  datatype Hint = Hint(keyword: string, patterns: seq<string>)

  /** The keyword hints, in the order the source lists them. */
  const KeywordHints: seq<Hint> := [
    Hint("fire", ["Thermal_Anomalies", "Fires", "FIRMS", "VIIRS", "MODIS"]),
    Hint("fires", ["Thermal_Anomalies", "Fires", "FIRMS", "VIIRS", "MODIS"]),
    Hint("smoke", ["Aerosol", "AOD", "Smoke"]),
    Hint("aerosol", ["Aerosol", "AOD", "OMI", "VIIRS", "MODIS"]),
    Hint("aod", ["AOD", "Aerosol"]),
    Hint("dust", ["Dust", "Aerosol", "AI"]),
    Hint("snow", ["Snow", "Snow_Cover", "SC"]),
    Hint("sst", ["Sea_Surface_Temperature", "SST", "GHRSST", "VIIRS"]),
    Hint("temperature", ["Temperature", "SST"]),
    Hint("true color", ["CorrectedReflectance_TrueColor"]),
    Hint("flood", ["Flood", "Surface_Water", "Water_Extent"]),
    Hint("flooding", ["Flood", "Surface_Water", "Water_Extent"])
  ]

  /** Points for the direct containment of the whole phrase. */
  const ContainmentPoints: nat := 10
  /** Points for a token found in the title, and in the id. */
  const TitleTokenPoints: nat := 2
  const IdTokenPoints: nat := 1
  /** Points for each hint pattern found in the id or the title. */
  const PatternPoints: nat := 3

  /** The phrase's tokens: commas count as whitespace. */
  function Tokens(part: string): seq<string> {
    Words(ReplaceChar(part, ',', ' '))
  }

  /** Whether `t` occurs in the lowered title or the lowered id. */
  predicate Hits(t: string, titleL: string, idL: string) {
    Contains(titleL, t) || Contains(idL, t)
  }

  function TokenScore(tokens: seq<string>, titleL: string, idL: string): nat
    decreases |tokens|
  {
    if |tokens| == 0 then 0
    else
      (if Contains(titleL, tokens[0]) then TitleTokenPoints else 0)
      + (if Contains(idL, tokens[0]) then IdTokenPoints else 0)
      + TokenScore(tokens[1..], titleL, idL)
  }

  function PatternScore(patterns: seq<string>, titleL: string, idL: string): nat
    decreases |patterns|
  {
    if |patterns| == 0 then 0
    else
      (if Hits(Lower(patterns[0]), titleL, idL) then PatternPoints else 0)
      + PatternScore(patterns[1..], titleL, idL)
  }

  function HintScore(hints: seq<Hint>, part: string, titleL: string, idL: string): nat
    decreases |hints|
  {
    if |hints| == 0 then 0
    else
      (if Contains(part, hints[0].keyword) then PatternScore(hints[0].patterns, titleL, idL) else 0)
      + HintScore(hints[1..], part, titleL, idL)
  }

  /** The score of layer `l` for `part` under the keyword hints `hints`. */
  function ScoreWith(hints: seq<Hint>, l: Layer, part: string): nat {
    var titleL := Lower(l.title);
    var idL := Lower(l.id);
    (if |part| > 0 && Hits(part, titleL, idL) then ContainmentPoints else 0)
    + TokenScore(Tokens(part), titleL, idL)
    + HintScore(hints, part, titleL, idL)
  }

  /** `score_layer` with the source's keyword hints. */
  function ScoreLayer(l: Layer, part: string): nat {
    ScoreWith(KeywordHints, l, part)
  }

  /**
   * A layer is relevant to a phrase when the phrase occurs in its title or id,
   * one of the phrase's tokens does, or a hint keyword occurs in the phrase and
   * one of its patterns occurs in the title or id (all case-insensitively).
   */
  predicate Relevant(hints: seq<Hint>, l: Layer, part: string) {
    var titleL := Lower(l.title);
    var idL := Lower(l.id);
    || (|part| > 0 && Hits(part, titleL, idL))
    || (exists k :: 0 <= k < |Tokens(part)| && Hits(Tokens(part)[k], titleL, idL))
    || HintHits(hints, part, titleL, idL)
  }

  lemma {:induction false} TokenScorePositive(tokens: seq<string>, titleL: string, idL: string)
    ensures TokenScore(tokens, titleL, idL) > 0 <==> exists k :: 0 <= k < |tokens| && Hits(tokens[k], titleL, idL)
    decreases |tokens|
  {
    if |tokens| > 0 {
      TokenScorePositive(tokens[1..], titleL, idL);
      if exists k :: 0 <= k < |tokens[1..]| && Hits(tokens[1..][k], titleL, idL) {
        var k :| 0 <= k < |tokens[1..]| && Hits(tokens[1..][k], titleL, idL);
        assert tokens[k + 1] == tokens[1..][k];
      }
      if exists k :: 0 <= k < |tokens| && Hits(tokens[k], titleL, idL) {
        var k :| 0 <= k < |tokens| && Hits(tokens[k], titleL, idL);
        if k > 0 {
          assert tokens[1..][k - 1] == tokens[k];
        }
      }
    }
  }

  lemma {:induction false} PatternScorePositive(patterns: seq<string>, titleL: string, idL: string)
    ensures PatternScore(patterns, titleL, idL) > 0 <==>
              exists p :: 0 <= p < |patterns| && Hits(Lower(patterns[p]), titleL, idL)
    decreases |patterns|
  {
    if |patterns| > 0 {
      PatternScorePositive(patterns[1..], titleL, idL);
      if exists p :: 0 <= p < |patterns[1..]| && Hits(Lower(patterns[1..][p]), titleL, idL) {
        var p :| 0 <= p < |patterns[1..]| && Hits(Lower(patterns[1..][p]), titleL, idL);
        assert patterns[p + 1] == patterns[1..][p];
      }
      if exists p :: 0 <= p < |patterns| && Hits(Lower(patterns[p]), titleL, idL) {
        var p :| 0 <= p < |patterns| && Hits(Lower(patterns[p]), titleL, idL);
        if p > 0 {
          assert patterns[1..][p - 1] == patterns[p];
        }
      }
    }
  }

  /** Some hint applies to `part` and one of its patterns hits. */
  predicate HintHits(hints: seq<Hint>, part: string, titleL: string, idL: string) {
    exists h, p :: 0 <= h < |hints| && 0 <= p < |hints[h].patterns|
      && Contains(part, hints[h].keyword) && Hits(Lower(hints[h].patterns[p]), titleL, idL)
  }

  lemma {:induction false} HintScorePositive(hints: seq<Hint>, part: string, titleL: string, idL: string)
    ensures HintScore(hints, part, titleL, idL) > 0 <==> HintHits(hints, part, titleL, idL)
    decreases |hints|
  {
    if |hints| > 0 {
      HintScorePositive(hints[1..], part, titleL, idL);
      PatternScorePositive(hints[0].patterns, titleL, idL);
      if HintHits(hints[1..], part, titleL, idL) {
        var h, p :| 0 <= h < |hints[1..]| && 0 <= p < |hints[1..][h].patterns|
          && Contains(part, hints[1..][h].keyword) && Hits(Lower(hints[1..][h].patterns[p]), titleL, idL);
        assert hints[h + 1] == hints[1..][h];
      }
      if HintHits(hints, part, titleL, idL) {
        var h, p :| 0 <= h < |hints| && 0 <= p < |hints[h].patterns|
          && Contains(part, hints[h].keyword) && Hits(Lower(hints[h].patterns[p]), titleL, idL);
        if h > 0 {
          assert hints[1..][h - 1] == hints[h];
          assert HintHits(hints[1..], part, titleL, idL);
        }
      }
    }
  }

  /** A layer scores above zero exactly when it is relevant to the phrase. */
  lemma ScorePositiveIff(hints: seq<Hint>, l: Layer, part: string)
    ensures ScoreWith(hints, l, part) > 0 <==> Relevant(hints, l, part)
  {
    var titleL := Lower(l.title);
    var idL := Lower(l.id);
    TokenScorePositive(Tokens(part), titleL, idL);
    HintScorePositive(hints, part, titleL, idL);
  }

  /** Matching ignores the case of the layer's id and title. */
  lemma ScoreIgnoresLayerCase(hints: seq<Hint>, l: Layer, part: string)
    ensures ScoreWith(hints, Layer(Lower(l.id), Lower(l.title)), part) == ScoreWith(hints, l, part)
  {
    LowerIdempotent(l.id);
    LowerIdempotent(l.title);
  }
}
