/**
 * Catalog search (`_search_layers`): one best layer per query phrase, then a
 * base true-colour layer put first when the query asks for true colour or only
 * one layer was found.
 */
module Search {
  import opened Wrappers
  import opened Text
  import opened Seqs
  import opened Catalog
  import opened Scoring
  import opened Selection
  import opened Query

  /** How many layers the search returns unless told otherwise. */
  const MaxLayers: nat := 4

  /** The selection with the pick for one phrase appended, if there is one. */
  function AddPick(score: Scorer, cat: Catalog, part: string, sel: seq<string>): (r: seq<string>)
    ensures |sel| <= |r| <= |sel| + 1 && r[..|sel|] == sel
  {
    match Pick(Candidates(score, cat, part), sel)
    case None => sel
    case Some(c) => sel + [c.id]
  }

  /** The per-phrase loop from phrase `i` on: pick for each phrase in turn, stopping once `maxLayers` are selected. */
  function SelectFrom(score: Scorer, cat: Catalog, parts: seq<string>, i: nat, sel: seq<string>, maxLayers: nat): (r: seq<string>)
    requires i <= |parts|
    ensures |sel| <= |r| <= |sel| + |parts| - i && r[..|sel|] == sel
    ensures |sel| < maxLayers ==> |r| <= maxLayers
    decreases |parts| - i
  {
    if i == |parts| then sel
    else
      var next := AddPick(score, cat, parts[i], sel);
      if |next| >= maxLayers then next
      else
        var r := SelectFrom(score, cat, parts, i + 1, next, maxLayers);
        assert r[..|sel|] == r[..|next|][..|sel|];
        r
  }

  /** The whole per-phrase loop, starting with nothing selected. */
  function SelectPhrases(score: Scorer, cat: Catalog, parts: seq<string>, maxLayers: nat): (r: seq<string>)
    ensures |r| <= |parts|
    ensures 0 < maxLayers ==> |r| <= maxLayers
  {
    SelectFrom(score, cat, parts, 0, [], maxLayers)
  }

  /** Some selected id is a true-colour base layer. */
  predicate HasTrueColor(sel: seq<string>) {
    exists k :: 0 <= k < |sel| && IsTrueColorId(sel[k])
  }

  /** `selected.insert(0, tc)` when `tc` is a non-empty id not selected yet. */
  function InsertTrueColor(sel: seq<string>, tc: Option<string>): (r: seq<string>)
    ensures r == sel || (tc.Some? && r == [tc.value] + sel)
    ensures tc.Some? && |tc.value| > 0 ==> tc.value in r
    ensures Distinct(sel) ==> Distinct(r)
  {
    if tc.Some? && |tc.value| > 0 && tc.value !in sel then [tc.value] + sel else sel
  }

  /** Whether the base layer step applies: true colour asked for, or exactly one layer, and none present. */
  predicate WantsTrueColor(query: string, sel: seq<string>) {
    (Contains(Lower(query), "true color") || |sel| == 1) && !HasTrueColor(sel)
  }

  /** The base-layer step of the search. */
  function BaseStep(cat: Catalog, query: string, sel: seq<string>): seq<string> {
    if WantsTrueColor(query, sel) then InsertTrueColor(sel, PreferTrueColor(cat)) else sel
  }

  /** The base-layer step adds at most the preferred true-colour layer, in front. */
  lemma BaseStepFacts(cat: Catalog, query: string, sel: seq<string>)
    ensures var r := BaseStep(cat, query, sel);
      && (Distinct(sel) ==> Distinct(r))
      && (r == sel || (|sel| + 1 == |r| && Some(r[0]) == PreferTrueColor(cat) && r[1..] == sel))
  {
  }

  /** Without "true color" in the query and without exactly one layer the step leaves the selection alone. */
  lemma BaseStepNone(cat: Catalog, query: string, sel: seq<string>)
    requires !Contains(Lower(query), "true color") && |sel| != 1
    ensures BaseStep(cat, query, sel) == sel
  {
  }

  /** A single non-true-colour layer gets the preferred base layer in front of it, whatever the query says. */
  lemma BaseStepSingle(cat: Catalog, query: string, sel: seq<string>)
    requires |sel| == 1 && !IsTrueColorId(sel[0])
    requires PreferTrueColor(cat).Some? && |PreferTrueColor(cat).value| > 0
    requires PreferTrueColor(cat).value != sel[0]
    ensures BaseStep(cat, query, sel) == [PreferTrueColor(cat).value, sel[0]]
  {
    assert !HasTrueColor(sel);
  }

  /**
   * The step changes the selection exactly when it is wanted and the
   * preferred id is non-empty and not selected yet.
   */
  lemma BaseStepChanges(cat: Catalog, query: string, sel: seq<string>)
    ensures var tc := PreferTrueColor(cat);
      BaseStep(cat, query, sel) != sel <==>
        WantsTrueColor(query, sel) && tc.Some? && |tc.value| > 0 && tc.value !in sel
  {
    var tc := PreferTrueColor(cat);
    if WantsTrueColor(query, sel) && tc.Some? && |tc.value| > 0 && tc.value !in sel {
      assert |BaseStep(cat, query, sel)| == |sel| + 1;
    }
  }

  function SearchWith(score: Scorer, cat: Catalog, query: string, maxLayers: nat): (r: seq<string>)
    ensures |r| <= maxLayers
  {
    if |cat| == 0 then []
    else
      var sel := SelectPhrases(score, cat, SplitQueryParts(query), maxLayers);
      Take(BaseStep(cat, query, sel), maxLayers)
  }

  /** `score_layer` with the source's keyword hints. */
  const LayerScorer: Scorer := (l, part) => ScoreLayer(l, part)

  /** `_search_layers(config, query, max_layers)`. */
  function SearchLayers(cat: Catalog, query: string, maxLayers: nat): (r: seq<string>)
    ensures |r| <= maxLayers
  {
    SearchWith(LayerScorer, cat, query, maxLayers)
  }

  /** `id` names a catalog layer scoring above zero for `part`. */
  predicate ScoresFor(score: Scorer, cat: Catalog, part: string, id: string) {
    exists i :: 0 <= i < |cat| && cat[i].id == id && score(cat[i], part) > 0
  }

  /** `id` names a catalog layer scoring above zero for one of `parts`. */
  predicate ScoredFor(score: Scorer, cat: Catalog, parts: seq<string>, id: string) {
    exists p :: 0 <= p < |parts| && ScoresFor(score, cat, parts[p], id)
  }

  /** A phrase's pick is a new id that scores above zero for that phrase. */
  lemma AddPickFacts(score: Scorer, cat: Catalog, part: string, sel: seq<string>)
    ensures var r := AddPick(score, cat, part, sel);
      && (Distinct(sel) ==> Distinct(r))
      && (|r| > |sel| ==> ScoresFor(score, cat, part, r[|sel|]))
  {
    var cands := Candidates(score, cat, part);
    var pick := Pick(cands, sel);
    if pick.Some? {
      var c := pick.value;
      assert c in multiset(SortDesc(cands));
      CandidatesExact(score, cat, part, c);
    }
  }

  /** The per-phrase loop keeps the selection distinct. */
  lemma {:induction false} SelectFromDistinct(score: Scorer, cat: Catalog, parts: seq<string>, i: nat, sel: seq<string>, maxLayers: nat)
    requires i <= |parts| && Distinct(sel)
    ensures Distinct(SelectFrom(score, cat, parts, i, sel, maxLayers))
    decreases |parts| - i
  {
    if i < |parts| {
      var next := AddPick(score, cat, parts[i], sel);
      AddPickFacts(score, cat, parts[i], sel);
      if |next| < maxLayers {
        SelectFromDistinct(score, cat, parts, i + 1, next, maxLayers);
      }
    }
  }

  /** Every id the per-phrase loop adds scores above zero for one of the phrases. */
  lemma {:induction false} SelectFromScored(score: Scorer, cat: Catalog, parts: seq<string>, i: nat, sel: seq<string>, maxLayers: nat)
    requires i <= |parts|
    ensures var r := SelectFrom(score, cat, parts, i, sel, maxLayers);
      forall k :: |sel| <= k < |r| ==> ScoredFor(score, cat, parts, r[k])
    decreases |parts| - i
  {
    if i < |parts| {
      var next := AddPick(score, cat, parts[i], sel);
      AddPickFacts(score, cat, parts[i], sel);
      var r := SelectFrom(score, cat, parts, i, sel, maxLayers);
      if |next| > |sel| {
        assert ScoredFor(score, cat, parts, next[|sel|]);
      }
      if |next| < maxLayers {
        SelectFromScored(score, cat, parts, i + 1, next, maxLayers);
        assert r == SelectFrom(score, cat, parts, i + 1, next, maxLayers);
        forall k | |sel| <= k < |r| ensures ScoredFor(score, cat, parts, r[k]) {
          if k < |next| {
            assert r[k] == r[..|next|][k] == next[k];
            assert k == |sel|;
            assert ScoredFor(score, cat, parts, next[|sel|]);
          } else {
            assert ScoredFor(score, cat, parts, r[k]);
          }
        }
      }
    }
  }

  /** The per-phrase loop returns distinct ids, each scoring above zero for some phrase. */
  lemma SelectPhrasesFacts(score: Scorer, cat: Catalog, parts: seq<string>, maxLayers: nat)
    ensures var r := SelectPhrases(score, cat, parts, maxLayers);
      Distinct(r) && forall k :: 0 <= k < |r| ==> ScoredFor(score, cat, parts, r[k])
  {
    SelectFromDistinct(score, cat, parts, 0, [], maxLayers);
    SelectFromScored(score, cat, parts, 0, [], maxLayers);
    var r := SelectPhrases(score, cat, parts, maxLayers);
    assert r == SelectFrom(score, cat, parts, 0, [], maxLayers);
  }

  /**
   * The search returns distinct ids, each either the preferred true-colour
   * layer or a layer that scores above zero for one of the query's phrases
   * (and so always a layer of the catalog); an empty catalog yields nothing.
   */
  lemma SearchFacts(score: Scorer, cat: Catalog, query: string, maxLayers: nat)
    ensures var r := SearchWith(score, cat, query, maxLayers);
      && Distinct(r)
      && (|cat| == 0 ==> r == [])
      && forall k :: 0 <= k < |r| ==>
           Some(r[k]) == PreferTrueColor(cat) || ScoredFor(score, cat, SplitQueryParts(query), r[k])
  {
    if |cat| > 0 {
      var parts := SplitQueryParts(query);
      var sel := SelectPhrases(score, cat, parts, maxLayers);
      SelectPhrasesFacts(score, cat, parts, maxLayers);
      var withBase := BaseStep(cat, query, sel);
      BaseStepFacts(cat, query, sel);
      TakeDistinct(withBase, maxLayers);
      var r := Take(withBase, maxLayers);
      assert r == SearchWith(score, cat, query, maxLayers);
      forall k | 0 <= k < |r|
        ensures Some(r[k]) == PreferTrueColor(cat) || ScoredFor(score, cat, parts, r[k])
      {
        assert r[k] == withBase[k];
        if withBase != sel && k > 0 {
          assert withBase[k] == withBase[1..][k - 1] == sel[k - 1];
        }
      }
    }
  }

  /** A phrase-scored id names a layer of the catalog. */
  lemma ScoredInCatalog(score: Scorer, cat: Catalog, parts: seq<string>, id: string)
    requires ScoredFor(score, cat, parts, id)
    ensures id in Ids(cat)
  {
    var p :| 0 <= p < |parts| && ScoresFor(score, cat, parts[p], id);
    var i :| 0 <= i < |cat| && cat[i].id == id && score(cat[i], parts[p]) > 0;
    assert Ids(cat)[i] == id;
  }

  /** Every id the search returns is a layer of the catalog. */
  lemma SearchInCatalog(score: Scorer, cat: Catalog, query: string, maxLayers: nat)
    ensures var r := SearchWith(score, cat, query, maxLayers);
      forall k :: 0 <= k < |r| ==> r[k] in Ids(cat)
  {
    var r := SearchWith(score, cat, query, maxLayers);
    SearchFacts(score, cat, query, maxLayers);
    PreferFromSpec(PreferredIds, cat);
    forall k | 0 <= k < |r| ensures r[k] in Ids(cat) {
      if Some(r[k]) != PreferTrueColor(cat) {
        ScoredInCatalog(score, cat, SplitQueryParts(query), r[k]);
      }
    }
  }

  /**
   * When the query asks for true colour and the catalog offers a base layer,
   * the result holds a true-colour id or that base layer.
   */
  lemma TrueColorRequested(score: Scorer, cat: Catalog, query: string, maxLayers: nat)
    requires maxLayers >= 1 && |cat| > 0
    requires Contains(Lower(query), "true color")
    requires PreferTrueColor(cat).Some? && |PreferTrueColor(cat).value| > 0
    ensures var r := SearchWith(score, cat, query, maxLayers);
      HasTrueColor(r) || PreferTrueColor(cat).value in r
  {
    var parts := SplitQueryParts(query);
    var sel := SelectPhrases(score, cat, parts, maxLayers);
    var tc := PreferTrueColor(cat);
    var r := SearchWith(score, cat, query, maxLayers);
    if HasTrueColor(sel) {
      assert r == sel;
      var k :| 0 <= k < |sel| && IsTrueColorId(sel[k]);
      assert IsTrueColorId(r[k]);
    } else if tc.value in sel {
      assert r == sel;
    } else {
      assert r[0] == tc.value;
    }
  }
}
