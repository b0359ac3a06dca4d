/**
 * The `worldview_link` tool: resolve the layers (explicit ids, or catalog
 * search merged with the offline picks and a base true-colour layer), the
 * time and the extent, and build the permalink.
 */
module Resolver {
  import opened Wrappers
  import opened Text
  import opened Seqs
  import opened Catalog
  import opened Search
  import opened Heuristic
  import opened Bbox
  import opened Dates
  import opened Url

  /** How many layers a permalink carries at most. */
  const LinkLayers: nat := 4

  /** The outcome of fetching the configuration: the catalog, or an error. */
  datatype Fetch = Failed | Fetched(catalog: Catalog)

  /** The offline picks appended in order, skipping those present and stopping once four are held. */
  function MergeHeuristic(sel: seq<string>, picks: seq<string>): (r: seq<string>)
    ensures |sel| <= |r| && r[..|sel|] == sel
    ensures |sel| < LinkLayers ==> |r| <= LinkLayers
    ensures LinkLayers <= |sel| ==> |r| <= |sel| + 1
    ensures |r| < LinkLayers ==> forall p :: p in picks ==> p in r
    decreases |picks|
  {
    if |picks| == 0 then sel
    else if picks[0] in sel then
      var r := MergeHeuristic(sel, picks[1..]);
      assert picks[0] in r[..|sel|];
      r
    else
      var next := sel + [picks[0]];
      if |next| >= LinkLayers then next
      else
        var r := MergeHeuristic(next, picks[1..]);
        assert r[..|sel|] == r[..|next|][..|sel|];
        assert picks[0] == next[|sel|] == r[..|next|][|sel|];
        r
  }

  /**
   * New distinct picks that fit under four are all appended, in order:
   * the merge is then plain concatenation.
   */
  lemma {:induction false} MergeAll(sel: seq<string>, picks: seq<string>)
    requires Distinct(picks) && |sel| + |picks| <= LinkLayers
    requires forall k :: 0 <= k < |picks| ==> picks[k] !in sel
    ensures MergeHeuristic(sel, picks) == sel + picks
    decreases |picks|
  {
    if |picks| > 0 {
      var next := sel + [picks[0]];
      var rest := picks[1..];
      assert |next| < LinkLayers || rest == [];
      if rest != [] {
        assert Distinct(rest) by {
          forall i, j | 0 <= i < j < |rest| ensures rest[i] != rest[j] {
            assert rest[i] == picks[i + 1] && rest[j] == picks[j + 1];
          }
        }
        assert forall k :: 0 <= k < |rest| ==> rest[k] !in next by {
          forall k | 0 <= k < |rest| ensures rest[k] !in next {
            assert rest[k] == picks[k + 1] != picks[0];
          }
        }
        MergeAll(next, rest);
        assert next + rest == sel + picks;
      } else {
        assert picks == next[|sel|..];
      }
    }
  }

  /** The merge keeps the selection distinct and adds only picks. */
  lemma {:induction false} MergeHeuristicFacts(sel: seq<string>, picks: seq<string>)
    requires Distinct(sel)
    ensures var r := MergeHeuristic(sel, picks);
      Distinct(r) && forall k :: |sel| <= k < |r| ==> r[k] in picks && r[k] !in sel
    decreases |picks|
  {
    if |picks| > 0 {
      if picks[0] in sel {
        MergeHeuristicFacts(sel, picks[1..]);
      } else {
        var next := sel + [picks[0]];
        if |next| < LinkLayers {
          MergeHeuristicFacts(next, picks[1..]);
          var r := MergeHeuristic(next, picks[1..]);
          forall k | |sel| <= k < |r| ensures r[k] in picks && r[k] !in sel {
            if k == |sel| {
              assert r[k] == r[..|next|][k] == picks[0];
            } else {
              assert r[k] in picks[1..];
            }
          }
        }
      }
    }
  }

  /** The catalog search and its fallback: the default base layer when nothing is found or the fetch fails. */
  function Searched(query: string, fetch: Fetch): (r: seq<string>)
    ensures |r| > 0
  {
    match fetch
    case Failed => [DefaultTrueColor]
    case Fetched(cat) =>
      var found := SearchLayers(cat, query, MaxLayers);
      if found == [] then [DefaultTrueColor] else found
  }

  /** The base layer offered when one is wanted: the catalog's choice, or the default without a catalog. */
  function BaseLayer(fetch: Fetch): Option<string> {
    match fetch
    case Failed => Some(DefaultTrueColor)
    case Fetched(cat) => PreferTrueColor(cat)
  }

  /** Whether the caller named the layers (`layers` given and non-empty). */
  predicate Explicit(layers: Option<seq<string>>) {
    layers.Some? && |layers.value| > 0
  }

  /**
   * The layers chosen without explicit ones: the searched layers, the offline
   * picks merged in, the base layer put first when wanted, cut to four.
   */
  function Complete(query: string, searched: seq<string>, picks: seq<string>, base: Option<string>): seq<string> {
    var merged := MergeHeuristic(searched, picks);
    var withBase := if WantsTrueColor(query, merged) then InsertTrueColor(merged, base) else merged;
    Take(withBase, LinkLayers)
  }

  /** The layers `worldview_link` puts in the permalink. */
  function ResolveLayers(query: string, layers: Option<seq<string>>, fetch: Fetch): seq<string> {
    if Explicit(layers) then Take(layers.value, LinkLayers)
    else Complete(query, Searched(query, fetch), OfflineSelect(query), BaseLayer(fetch))
  }

  /** `worldview_link(query, date, bbox, layers)` with the fetch outcome, the clock and the host offset as inputs. */
  function WorldviewLink(query: string, date: Option<string>, bbox: Option<string>, layers: Option<seq<string>>,
                         fetch: Fetch, today: Date, localOffset: int): string
    requires ValidDate(today) && -MinutesPerDay < localOffset < MinutesPerDay
  {
    BuildUrl(ResolveLayers(query, layers, fetch), IsoDate(date, today, localOffset), InferBbox(query, bbox))
  }

  /** Explicit layers are used as given, cut to four, whatever the query and the catalog. */
  lemma ExplicitLayersWin(query: string, query': string, layers: seq<string>, fetch: Fetch, fetch': Fetch)
    requires |layers| > 0
    ensures ResolveLayers(query, Some(layers), fetch) == ResolveLayers(query', Some(layers), fetch')
    ensures ResolveLayers(query, Some(layers), fetch) == layers[..if |layers| < LinkLayers then |layers| else LinkLayers]
  {
  }

  /** What the searched layers are: distinct, and each from the catalog or the default base layer. */
  lemma SearchedFacts(query: string, fetch: Fetch)
    ensures var s := Searched(query, fetch);
      && Distinct(s) && |s| <= LinkLayers
      && forall k :: 0 <= k < |s| ==> s[k] == DefaultTrueColor || (fetch.Fetched? && s[k] in Ids(fetch.catalog))
  {
    if fetch.Fetched? {
      SearchFacts(LayerScorer, fetch.catalog, query, MaxLayers);
      SearchInCatalog(LayerScorer, fetch.catalog, query, MaxLayers);
    }
  }

  /**
   * Completing a non-empty distinct selection gives one to four distinct ids,
   * each searched, picked offline or the base layer.
   */
  lemma CompleteFacts(query: string, searched: seq<string>, picks: seq<string>, base: Option<string>)
    requires 0 < |searched| && Distinct(searched)
    ensures var r := Complete(query, searched, picks, base);
      && 1 <= |r| <= LinkLayers && Distinct(r)
      && forall k :: 0 <= k < |r| ==> r[k] in searched || r[k] in picks || Some(r[k]) == base
  {
    var merged := MergeHeuristic(searched, picks);
    MergeHeuristicFacts(searched, picks);
    assert forall k :: 0 <= k < |merged| ==> merged[k] in searched || merged[k] in picks by {
      forall k | 0 <= k < |merged| ensures merged[k] in searched || merged[k] in picks {
        if k < |searched| {
          assert merged[k] == merged[..|searched|][k];
        }
      }
    }
    var withBase := if WantsTrueColor(query, merged) then InsertTrueColor(merged, base) else merged;
    if withBase != merged {
      forall k | 0 < k < |withBase| ensures withBase[k] == merged[k - 1] {
      }
    }
    TakeDistinct(withBase, LinkLayers);
  }

  /** A selection that starts with a true-colour layer keeps it first and gets no base layer. */
  lemma CompleteKeepsTrueColorHead(query: string, searched: seq<string>, picks: seq<string>, base: Option<string>)
    requires 0 < |searched| && IsTrueColorId(searched[0])
    ensures var r := Complete(query, searched, picks, base);
      && r == Take(MergeHeuristic(searched, picks), LinkLayers)
      && r[0] == searched[0] && HasTrueColor(r)
  {
    var merged := MergeHeuristic(searched, picks);
    assert merged[0] == merged[..|searched|][0] == searched[0];
    assert HasTrueColor(merged);
    var r := Complete(query, searched, picks, base);
    assert r[0] == searched[0];
  }

  /**
   * When the base-layer step fires with a new base layer, that layer comes
   * first and survives the cut to four, followed by the first three merged ids.
   */
  lemma CompletePutsBaseFirst(query: string, searched: seq<string>, picks: seq<string>, base: Option<string>)
    requires var merged := MergeHeuristic(searched, picks);
      WantsTrueColor(query, merged) && base.Some? && |base.value| > 0 && base.value !in merged
    ensures var r := Complete(query, searched, picks, base);
      && r[0] == base.value
      && r[1..] == Take(MergeHeuristic(searched, picks), LinkLayers - 1)
  {
    var merged := MergeHeuristic(searched, picks);
    var withBase := [base.value] + merged;
    assert InsertTrueColor(merged, base) == withBase;
    var r := Complete(query, searched, picks, base);
    assert r == Take(withBase, LinkLayers);
    assert r[1..] == Take(merged, LinkLayers - 1);
  }

  /**
   * Asked for true colour, with a true-colour base layer on offer and no
   * true-colour offline pick, the completed selection holds a true-colour
   * layer: either the merge already holds one among the searched ids, which
   * the cut to four keeps, or the base layer is put first.
   */
  lemma CompleteHasTrueColor(query: string, searched: seq<string>, picks: seq<string>, base: Option<string>)
    requires Contains(Lower(query), "true color")
    requires 0 < |searched| <= LinkLayers && Distinct(searched)
    requires base.Some? && IsTrueColorId(base.value)
    requires forall p :: p in picks ==> !IsTrueColorId(p)
    ensures HasTrueColor(Complete(query, searched, picks, base))
  {
    var merged := MergeHeuristic(searched, picks);
    var r := Complete(query, searched, picks, base);
    if HasTrueColor(merged) {
      var k :| 0 <= k < |merged| && IsTrueColorId(merged[k]);
      MergeHeuristicFacts(searched, picks);
      assert k < |searched|;
      assert merged[k] == merged[..|searched|][k];
      assert r == Take(merged, LinkLayers);
      assert r[k] == merged[k];
    } else {
      assert base.value !in merged;
      assert |base.value| > 0;
      CompletePutsBaseFirst(query, searched, picks, base);
      assert IsTrueColorId(r[0]);
    }
  }

  /** An id with no `C` wherever the marker could start is not a true-colour id. */
  lemma NoMarkerStart(id: string)
    requires forall i :: 0 <= i <= |id| - |TrueColorMarker| ==> id[i] != 'C'
    ensures !IsTrueColorId(id)
  {
    assert TrueColorMarker[0] == 'C';
    forall i | 0 <= i <= |id| - |TrueColorMarker| ensures !OccursAt(id, TrueColorMarker, i) {
      assert id[i..i + |TrueColorMarker|][0] == id[i];
    }
  }

  lemma FirstRulesNotTrueColor()
    ensures forall j :: 0 <= j < 4 ==> !IsTrueColorId(Rules[j].layer)
  {
    NoMarkerStart(Rules[0].layer);
    NoMarkerStart(Rules[1].layer);
    NoMarkerStart(Rules[2].layer);
    NoMarkerStart(Rules[3].layer);
  }

  lemma LastRulesNotTrueColor()
    ensures forall j :: 4 <= j < |Rules| ==> !IsTrueColorId(Rules[j].layer)
  {
    NoMarkerStart(Rules[4].layer);
    NoMarkerStart(Rules[5].layer);
    NoMarkerStart(Rules[6].layer);
  }

  /** None of the offline rules picks a true-colour layer. */
  lemma RulesNotTrueColor()
    ensures forall j :: 0 <= j < |Rules| ==> !IsTrueColorId(Rules[j].layer)
  {
    FirstRulesNotTrueColor();
    LastRulesNotTrueColor();
  }

  /** No offline pick is a true-colour layer. */
  lemma OfflineNotTrueColor(query: string)
    ensures forall p :: p in OfflineSelect(query) ==> !IsTrueColorId(p)
  {
    RulesWellFormed();
    SelectWithSpec(Rules, query);
    RulesNotTrueColor();
  }

  /**
   * A query asking for "true color" resolves, without explicit layers, to a
   * selection holding a true-colour layer whenever the base layer on offer is
   * one: always after a failed fetch, and after a fetch whose catalog's
   * preferred or first look-alike layer carries the marker.
   */
  lemma TrueColorResolved(query: string, fetch: Fetch)
    requires Contains(Lower(query), "true color")
    requires BaseLayer(fetch).Some? && IsTrueColorId(BaseLayer(fetch).value)
    ensures HasTrueColor(ResolveLayers(query, None, fetch))
  {
    SearchedFacts(query, fetch);
    OfflineNotTrueColor(query);
    WithoutLayers(query, fetch);
    CompleteHasTrueColor(query, Searched(query, fetch), OfflineSelect(query), BaseLayer(fetch));
  }

  /**
   * The base layer need not carry the marker: a catalog whose only
   * true-colour-looking entry is so by its title offers that entry, so
   * `TrueColorResolved` cannot drop its condition on the base layer.
   */
  lemma TitleOnlyBase()
    ensures BaseLayer(Fetched([Layer("A", "True Color")])) == Some("A")
    ensures !IsTrueColorId("A")
  {
    var cat := [Layer("A", "True Color")];
    assert Ids(cat) == ["A"];
    assert FirstPresent(PreferredIds, ["A"]) == None;
    assert OccursAt("True Color", "True Color", 0);
    assert FirstLooking(cat) == Some("A");
  }

  /** Where a resolved id can come from when the caller names no layers. */
  predicate FromSources(id: string, query: string, fetch: Fetch) {
    || id == DefaultTrueColor
    || (fetch.Fetched? && id in Ids(fetch.catalog))
    || id in OfflineSelect(query)
  }

  /** The base layer is the default one or, after a fetch, a catalog id. */
  lemma BaseLayerFacts(fetch: Fetch)
    ensures BaseLayer(fetch).Some? ==>
      BaseLayer(fetch).value == DefaultTrueColor || (fetch.Fetched? && BaseLayer(fetch).value in Ids(fetch.catalog))
  {
    if fetch.Fetched? {
      PreferFromSpec(PreferredIds, fetch.catalog);
    }
  }

  /** Each searched id, and the base layer, comes from the sources. */
  lemma SourceOf(id: string, query: string, fetch: Fetch)
    requires id in Searched(query, fetch) || id in OfflineSelect(query) || Some(id) == BaseLayer(fetch)
    ensures FromSources(id, query, fetch)
  {
    if id in Searched(query, fetch) {
      SearchedFacts(query, fetch);
      var j :| 0 <= j < |Searched(query, fetch)| && Searched(query, fetch)[j] == id;
    } else if Some(id) == BaseLayer(fetch) {
      BaseLayerFacts(fetch);
    }
  }

  /**
   * Without explicit layers the permalink carries one to four distinct ids,
   * each the default base layer, a catalog layer or an offline pick.
   */
  lemma ResolvedFacts(query: string, fetch: Fetch)
    ensures var r := ResolveLayers(query, None, fetch);
      && 1 <= |r| <= LinkLayers && Distinct(r)
      && forall k :: 0 <= k < |r| ==> FromSources(r[k], query, fetch)
  {
    var searched, picks, base := Searched(query, fetch), OfflineSelect(query), BaseLayer(fetch);
    var r := ResolveLayers(query, None, fetch);
    assert r == Complete(query, searched, picks, base);
    SearchedFacts(query, fetch);
    CompleteFacts(query, searched, picks, base);
    forall k | 0 <= k < |r| ensures FromSources(r[k], query, fetch) {
      SourceOf(r[k], query, fetch);
    }
  }

  /**
   * When the configuration cannot be fetched the default base layer comes
   * first, followed by the offline picks, and the base-layer step never fires.
   */
  lemma FailedFetchStartsWithDefault(query: string)
    ensures var r := ResolveLayers(query, None, Failed);
      && r == Take(MergeHeuristic([DefaultTrueColor], OfflineSelect(query)), LinkLayers)
      && r[0] == DefaultTrueColor
  {
    DefaultIsTrueColor();
    CompleteKeepsTrueColorHead(query, [DefaultTrueColor], OfflineSelect(query), Some(DefaultTrueColor));
    WithoutLayers(query, Failed);
  }

  /**
   * When the configuration cannot be fetched the link carries the default
   * base layer followed by every offline pick, in order.
   */
  lemma FailedFetchIsDefaultPlusOffline(query: string)
    ensures ResolveLayers(query, None, Failed) == [DefaultTrueColor] + OfflineSelect(query)
  {
    MergeDefaultPicks(query);
    FailedFetchStartsWithDefault(query);
  }

  /** Merging the offline picks behind the default base layer appends them all. */
  lemma MergeDefaultPicks(query: string)
    ensures MergeHeuristic([DefaultTrueColor], OfflineSelect(query)) == [DefaultTrueColor] + OfflineSelect(query)
    ensures |OfflineSelect(query)| < LinkLayers
  {
    OfflineSelectSpec(query);
    DefaultNotPicked(query);
    MergeAll([DefaultTrueColor], OfflineSelect(query));
  }

  /** The default base layer is never an offline pick. */
  lemma DefaultNotPicked(query: string)
    ensures forall k :: 0 <= k < |OfflineSelect(query)| ==> OfflineSelect(query)[k] !in [DefaultTrueColor]
  {
    OfflineNotTrueColor(query);
    DefaultIsTrueColor();
  }

  /** The first searched layer always reaches the link. */
  lemma CompleteKeepsSearchedHead(query: string, searched: seq<string>, picks: seq<string>, base: Option<string>)
    requires 0 < |searched|
    ensures searched[0] in Complete(query, searched, picks, base)
  {
    var merged := MergeHeuristic(searched, picks);
    assert merged[0] == merged[..|searched|][0] == searched[0];
    var withBase := if WantsTrueColor(query, merged) then InsertTrueColor(merged, base) else merged;
    var r := Take(withBase, LinkLayers);
    if withBase == merged {
      assert r[0] == searched[0];
    } else {
      assert r[1] == withBase[1] == searched[0];
    }
  }

  /** The best catalog hit for the query is always in the link built without explicit layers. */
  lemma SearchHitLinked(query: string, cat: Catalog)
    requires SearchLayers(cat, query, MaxLayers) != []
    ensures SearchLayers(cat, query, MaxLayers)[0] in ResolveLayers(query, None, Fetched(cat))
  {
    CompleteKeepsSearchedHead(query, Searched(query, Fetched(cat)), OfflineSelect(query), BaseLayer(Fetched(cat)));
  }

  /**
   * Without "true color" in the query and unless the merge leaves exactly one
   * layer, no base layer is added: the link gets the merge cut to four.
   */
  lemma CompleteNoBase(query: string, searched: seq<string>, picks: seq<string>, base: Option<string>)
    requires !Contains(Lower(query), "true color")
    requires |MergeHeuristic(searched, picks)| != 1
    ensures Complete(query, searched, picks, base) == Take(MergeHeuristic(searched, picks), LinkLayers)
  {
  }

  /** Without explicit layers the searched layers are completed. */
  lemma WithoutLayers(query: string, fetch: Fetch)
    ensures ResolveLayers(query, None, fetch) == Complete(query, Searched(query, fetch), OfflineSelect(query), BaseLayer(fetch))
  {
  }

  /**
   * The permalink reads back as the resolved layers, the normalised time and
   * the inferred extent, when no layer id contains `,` or `&` and the box no `&`.
   */
  lemma LinkReadsBack(query: string, date: Option<string>, bbox: Option<string>, layers: Option<seq<string>>,
                      fetch: Fetch, today: Date, localOffset: int)
    requires ValidDate(today) && -MinutesPerDay < localOffset < MinutesPerDay
    requires forall k :: 0 <= k < |ResolveLayers(query, layers, fetch)| ==> SafeId(ResolveLayers(query, layers, fetch)[k])
    requires NoAmp(BboxOrDefault(InferBbox(query, bbox)))
    ensures ParseUrl(WorldviewLink(query, date, bbox, layers, fetch, today, localOffset))
            == Some(View(ResolveLayers(query, layers, fetch), IsoDate(date, today, localOffset),
                         BboxOrDefault(InferBbox(query, bbox))))
  {
    var t := IsoDate(date, today, localOffset);
    IsoHasNoAmp(NormalizeDate(date, today, localOffset));
    ParseBuild(ResolveLayers(query, layers, fetch), t, InferBbox(query, bbox));
  }

  /**
   * Without a usable box argument and with no known place named in the query,
   * the permalink shows the whole world.
   */
  lemma WorldExtentByDefault(query: string, date: Option<string>, bbox: Option<string>, layers: Option<seq<string>>,
                             fetch: Fetch, today: Date, localOffset: int)
    requires ValidDate(today) && -MinutesPerDay < localOffset < MinutesPerDay
    requires !Given(bbox)
    requires NamesNoPlace(query)
    ensures EndsWith(WorldviewLink(query, date, bbox, layers, fetch, today, localOffset), "&v=" + DefaultBbox)
  {
    NoPlaceWorldExtent(query, bbox);
    EndsWithExtent(ResolveLayers(query, layers, fetch), IsoDate(date, today, localOffset), InferBbox(query, bbox));
  }

  /** A written time holds no `&`. */
  lemma IsoHasNoAmp(i: Instant)
    requires ValidInstant(i)
    ensures NoAmp(Format(i))
  {
    NoZoneLetter(i);
    var s := Format(i);
    forall j | 0 <= j < |s| ensures s[j] != '&' {
      if j < 19 {
        NoAmpLocal(i, j);
      }
    }
  }

  lemma NoAmpLocal(i: Instant, j: nat)
    requires ValidInstant(i) && j < 19
    ensures FormatLocal(i)[j] != '&'
  {
    var s := FormatLocal(i);
    if j < 4 {
      assert s[j] == Pad4(i.date.year)[j];
    } else if 5 <= j < 7 {
      assert s[j] == Pad2(i.date.month)[j - 5];
    } else if 8 <= j < 10 {
      assert s[j] == Pad2(i.date.day)[j - 8];
    } else if 11 <= j < 13 {
      assert s[j] == Pad2(i.hour)[j - 11];
    } else if 14 <= j < 16 {
      assert s[j] == Pad2(i.minute)[j - 14];
    } else if 17 <= j {
      assert s[j] == Pad2(i.second)[j - 17];
    }
  }
}
