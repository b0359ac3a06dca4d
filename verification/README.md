# NASA Worldview assistant: link resolver and tool loop

This project models two pieces of deterministic logic in the NASA Worldview chat assistant and proves properties about them.

**The `worldview_link` tool.** It turns a free-text request ("fires in California on 2023-08-10") into a Worldview permalink of the form `https://worldview.earthdata.nasa.gov/?l=<layers>&t=<time>&v=<extent>`. It works in these steps:

1. Split the query into phrases (`Query`).
2. Score every catalog layer against each phrase (`Scoring`).
3. Pick the best new layer per phrase, with a stable sort deciding ties (`Selection`, `Search`).
4. Merge in static keyword picks (`Heuristic`).
5. Put a true-colour base layer in front when one is wanted (`Catalog`, `Search`, `Resolver`).
6. Cut the list to four.
7. Normalise the date to UTC (`Dates`).
8. Infer the extent from place names (`Bbox`).
9. Write the link (`Url`).

**The two-node agent graph (`Agent`).** First, `prepare` adds the system prompt once and adds the stripped human prompt. Then `llm` calls the chat model and answers its tool calls for at most three rounds.

The world outside is passed in as parameters:

| Outside input | How it is modelled |
|---|---|
| Worldview configuration fetch | a `Fetch` value: `Failed`, or `Fetched` with the catalog as an ordered `seq<Layer(id, title)>` |
| Clock | "today" as a `Date` |
| Host time zone | a fixed UTC offset in minutes |
| Chat model | a function from transcript to `Reply` |
| Tools | a map from tool name to a function from arguments to `Succeeded`/`Raised` |
| Prompt builder | a function from user input to `Prompts` |

Files:

| File | Contents |
|---|---|
| `wrappers.dfy` | `Option` |
| `text.dfy` | the Python string primitives used: `isspace`, ASCII `lower`, `in`, `startswith`, `strip`, `split`, `replace` and `join` |
| `seqs.dfy` | distinctness, slicing, order-keeping de-duplication |
| `query.dfy` | `_split_query_parts` |
| `catalog.dfy` | catalog entries and `_prefer_true_color` |
| `scoring.dfy` | `score_layer` and `KEYWORD_HINTS` |
| `selection.dfy` | candidates, the stable descending sort and the per-phrase pick |
| `search.dfy` | `_search_layers` |
| `heuristic.dfy` | `_offline_select_from_query` |
| `bbox.dfy` | `BBOX_HINTS`, `_infer_bbox`, `_default_bbox` |
| `url.dfy` | `_build_worldview_url` and a reader for the links it writes |
| `dates.dfy` | `_iso_date` |
| `resolver.dfy` | `worldview_link` |
| `agent.dfy` | `prepare_node`, `llm_node` and the prepare-then-llm graph |

Where the docstring and the code disagree, the model follows the code:

- **Only `" & "` splits the query.** In `_split_query_parts` the assignment `parts = tmp` sits after the separator loop (worldview.py:128-132). Each pass starts again from the unsplit query, and only the last pass is kept. So `"+"`, `","` and `" and "` never split anything, although the `_search_layers` docstring promises that `"true color + smoke"` is split. `Query.SeparatorLoop` models the loop as written. `Query.SeparatorLoopKeepsLast` proves that only the last separator's pass survives.
- **"true color" does not always yield a marked layer.** The comments at worldview.py:200 and worldview.py:275 say that a base true-colour layer is added when the user asks for true colour, and true-colour layers are recognised by `CorrectedReflectance_TrueColor` in their id (worldview.py:201 and 273). The code does not guarantee such a marked id when the catalog's only true-colour-looking layer is recognised by its title. For example, the catalog `[Layer("A", "True Color")]` with the query "true color" resolves to `["A"]`, which carries no marker. `Resolver.TitleOnlyBase` shows that such a catalog offers `A` as its base layer. `Resolver.TrueColorResolved` proves a marked id is present whenever the base layer carries the marker, and that is always the case after a failed fetch.
- **Several connectors can be stripped from one phrase.** The connector loop has no `break`. Each connector is tried once, in list order. `Query.StripsTwo` proves that two connectors in list order are both removed, and `Query.StripsSeveral` shows "show over fires" becoming "fires".

## Model

| member | source | states |
|---|---|---|
| Query.SeparatorLoopKeepsLast | src/nasaworldviewassistant/tools/worldview.py:126-132 | the separator loop ends with the pieces of the last separator's pass alone, because every pass restarts from the unsplit query |
| Query.SplitPassFacts | src/nasaworldviewassistant/tools/worldview.py:129-131 | every piece a pass keeps is non-empty, has no whitespace at either end and does not contain the separator |
| Query.StripConnectorsSuffix | src/nasaworldviewassistant/tools/worldview.py:135-138 | removing connector prefixes leaves a suffix of the phrase |
| Query.StripConnectorsKeepsLast | src/nasaworldviewassistant/tools/worldview.py:135-139 | with connectors that end in a space, a phrase ending in a non-space keeps its last character, so connector removal never empties a phrase |
| Query.StripConnectorsNoMatch | src/nasaworldviewassistant/tools/worldview.py:136-138 | a phrase that starts with none of the connectors is left unchanged |
| Query.StripConnectorsSkip | src/nasaworldviewassistant/tools/worldview.py:136-138 | connectors the phrase does not start with are passed over |
| Query.StripConnectorsTake | src/nasaworldviewassistant/tools/worldview.py:136-138 | a connector the phrase starts with is removed before the next connector is tried |
| Query.StripsTwo | src/nasaworldviewassistant/tools/worldview.py:135-138 | two connectors taken in list order are both removed when no other connector matches in between or after |
| Query.StripsSeveral | src/nasaworldviewassistant/tools/worldview.py:135-139 | "show over fires" loses both "show " and "over ", leaving "fires" |
| Query.CleanPartsFacts | src/nasaworldviewassistant/tools/worldview.py:134-139 | every cleaned phrase is non-empty, and cleaning cannot create an occurrence of a string the phrase did not contain |
| Query.SplitQueryParts | src/nasaworldviewassistant/tools/worldview.py:123-147 | the phrases are the reference reading of the lowered query's `" & "` pieces, de-duplicated in order of first reading; so they are non-empty, pairwise distinct and free of `" & "`; a blank query gives no phrase; a query without `" & "` gives at most one |
| Query.CleanedIsPhrases | src/nasaworldviewassistant/tools/worldview.py:129-139 | stripping the pieces, dropping the blank ones and then cleaning each one gives, piece for piece, the reference reading: each non-blank piece stripped, its connectors removed and stripped again |
| Query.PhrasesMembers | src/nasaworldviewassistant/tools/worldview.py:129-139 | a string is in the reference reading exactly when some non-blank piece reads as it |
| Query.SplitQueryPartsSpec | src/nasaworldviewassistant/tools/worldview.py:123-147 | a string is a phrase of the query exactly when some non-blank `" & "` piece of the lowered query, stripped, freed of its connectors and stripped again, equals it |
| Query.SingleNonBlank | src/nasaworldviewassistant/tools/worldview.py:123-147 | a non-blank query without `" & "` gives exactly one phrase: the whole lowered query, stripped, freed of its connectors and stripped again |
| Query.PartsFacts | src/nasaworldviewassistant/tools/worldview.py:123-147 | the same facts, for the de-duplicated cleaned pieces of the `" & "` pass |
| Seqs.Dedupe | src/nasaworldviewassistant/tools/worldview.py:140-147 | the result is distinct, has exactly the input's elements, and lists them in the order of their first occurrence |
| Seqs.DedupeMember | src/nasaworldviewassistant/tools/worldview.py:140-147 | an element survives de-duplication exactly when it occurs in the input |
| Seqs.DedupeOfDistinct | src/nasaworldviewassistant/tools/worldview.py:116-119 | de-duplicating a sequence without repeats returns it unchanged |
| Seqs.Take | src/nasaworldviewassistant/tools/worldview.py:208 | `xs[:n]` is the prefix whose length is the smaller of the length of `xs` and `n` |
| Catalog.FirstPresent | src/nasaworldviewassistant/tools/worldview.py:70-72 | the result is the earliest preferred id that the catalog holds, and None exactly when the catalog holds none |
| Catalog.FirstLooking | src/nasaworldviewassistant/tools/worldview.py:74-77 | the result is the id of the earliest entry whose id contains `CorrectedReflectance_TrueColor` or whose title contains `True Color`, and None exactly when no entry qualifies |
| Catalog.PreferFromSpec | src/nasaworldviewassistant/tools/worldview.py:63-78 | the choice is a catalog id; it is a preferred id exactly when one is present; otherwise it is the first true-colour-looking entry; it is None only when neither exists |
| Catalog.DefaultIsTrueColor | src/nasaworldviewassistant/tools/worldview.py:261 | the default base id contains the true-colour marker |
| Scoring.ScorePositiveIff | src/nasaworldviewassistant/tools/worldview.py:162-183 | a layer scores above zero exactly when the phrase, one of its tokens, or a pattern of a hint whose keyword the phrase contains, occurs in the lowered title or id |
| Scoring.TokenScorePositive | src/nasaworldviewassistant/tools/worldview.py:171-176 | the token points are positive exactly when some token occurs in the title or the id |
| Scoring.HintScorePositive | src/nasaworldviewassistant/tools/worldview.py:178-182 | the hint points are positive exactly when a hint keyword occurs in the phrase and one of its patterns, lowered, occurs in the title or the id |
| Scoring.ScoreIgnoresLayerCase | src/nasaworldviewassistant/tools/worldview.py:163-165 | the score does not change when the layer's id and title are lower-cased |
| Selection.Candidates | src/nasaworldviewassistant/tools/worldview.py:187-191 | every candidate has a positive score |
| Selection.CandidatesInOrder | src/nasaworldviewassistant/tools/worldview.py:187-191 | the candidates keep catalog order: of any two candidates, the earlier one is the scored entry of an earlier catalog position |
| Selection.CandidatesExact | src/nasaworldviewassistant/tools/worldview.py:187-191 | a pair is a candidate exactly when it is some catalog layer's id with that layer's positive score |
| Selection.SortDesc | src/nasaworldviewassistant/tools/worldview.py:192 | the sort is a permutation of the candidates |
| Selection.SortSorted | src/nasaworldviewassistant/tools/worldview.py:192 | the sort is descending by score |
| Selection.BestSpec | src/nasaworldviewassistant/tools/worldview.py:192-196 | the reference choice is the unselected candidate with the highest score, strictly beating every earlier unselected one, and is None exactly when every candidate is selected |
| Selection.PickIsBest | src/nasaworldviewassistant/tools/worldview.py:192-196 | scanning the stably sorted candidates for the first unselected id picks the reference choice, so ties go to the earliest catalog entry |
| Search.AddPickFacts | src/nasaworldviewassistant/tools/worldview.py:186-196 | a phrase adds at most one id; that id is new and names a layer that scores above zero for the phrase |
| Search.SelectFrom | src/nasaworldviewassistant/tools/worldview.py:186-198 | the loop only appends, at most one id per phrase, and stops once `max_layers` ids are held |
| Search.SelectPhrasesFacts | src/nasaworldviewassistant/tools/worldview.py:186-198 | the per-phrase picks are distinct, and each scores above zero for one of the phrases |
| Search.InsertTrueColor | src/nasaworldviewassistant/tools/worldview.py:204-205 | the selection is unchanged, or the base id is put in front; a non-empty base id always ends up in the result; distinctness is kept |
| Search.BaseStepFacts | src/nasaworldviewassistant/tools/worldview.py:200-205 | the base step keeps the selection distinct and either leaves it alone or puts the preferred true-colour id in front |
| Search.BaseStepNone | src/nasaworldviewassistant/tools/worldview.py:202 | without "true color" in the query and without exactly one layer the base step leaves the selection alone |
| Search.BaseStepSingle | src/nasaworldviewassistant/tools/worldview.py:200-205 | a single layer without the marker gets the preferred base id in front of it whatever the query says, when that id is non-empty and different |
| Search.BaseStepChanges | src/nasaworldviewassistant/tools/worldview.py:201-205 | the base step changes the selection exactly when it is wanted and the preferred id is non-empty and not yet selected |
| Search.SearchFacts | src/nasaworldviewassistant/tools/worldview.py:150-208 | the search returns distinct ids, each the preferred true-colour id or an id that scores above zero for a phrase; an empty catalog gives `[]` |
| Search.SearchWith | src/nasaworldviewassistant/tools/worldview.py:207-208 | the search returns at most `max_layers` ids |
| Search.SearchInCatalog | src/nasaworldviewassistant/tools/worldview.py:150-208 | every id the search returns names a catalog layer |
| Search.TrueColorRequested | src/nasaworldviewassistant/tools/worldview.py:200-205 | when the query asks for true colour and the catalog offers a base id, the result holds a true-colour id or that base id |
| Heuristic.PicksExact | src/nasaworldviewassistant/tools/worldview.py:102-115 | a layer is picked exactly when one of its keywords occurs in the lowered query |
| Heuristic.PicksDistinct | src/nasaworldviewassistant/tools/worldview.py:102-115 | rules naming distinct layers pick distinct layers |
| Heuristic.SelectWithSpec | src/nasaworldviewassistant/tools/worldview.py:98-120 | for well-formed rules, the result is the first three fired layers in rule order; they are distinct, and each layer's rule fired |
| Heuristic.RulesWellFormed | src/nasaworldviewassistant/tools/worldview.py:102-115 | the seven rules name distinct, non-empty layers |
| Heuristic.OfflineSelectSpec | src/nasaworldviewassistant/tools/worldview.py:98-120 | the offline picks are at most three distinct ids: the first three fired layers in rule order |
| Heuristic.OfflineSelectIgnoresCase | src/nasaworldviewassistant/tools/worldview.py:100 | the picks depend only on the lowered query |
| Bbox.FirstHintSpec | src/nasaworldviewassistant/tools/worldview.py:224-227 | the box is that of the first place, in table order, occurring in the lowered query, and None exactly when no place occurs |
| Bbox.InferWithSpec | src/nasaworldviewassistant/tools/worldview.py:220-227 | a non-empty given box is returned unchanged; otherwise the first matching place's box is returned, or None |
| Bbox.InferBboxIgnoresCase | src/nasaworldviewassistant/tools/worldview.py:223 | the inferred box does not depend on the case of the query |
| Bbox.BboxOrDefault | src/nasaworldviewassistant/tools/worldview.py:216 | the extent is the given box when it is non-empty, and the whole world, `-180,-90,180,90`, when the box is missing or empty |
| Bbox.NoPlaceWorldExtent | src/nasaworldviewassistant/tools/worldview.py:220-227 | with no usable box argument and no known place in the lowered query, the extent is the whole world |
| Url.Params | src/nasaworldviewassistant/tools/worldview.py:212-216 | there are three parameters when layers are given and two otherwise, so `l=` is left out exactly when the list is empty |
| Url.ParseBuild | src/nasaworldviewassistant/tools/worldview.py:211-217 | the link reads back as its layers, its time and its extent (the world extent when no box is given), in the order `l`, `t`, `v`, when no id contains `,` or `&` and neither the time nor the box contains `&` |
| Url.JoinEndsWithLast | src/nasaworldviewassistant/tools/worldview.py:217 | a join of two or more pieces ends with the separator followed by the last piece |
| Url.EndsWithExtent | src/nasaworldviewassistant/tools/worldview.py:211-217 | every permalink ends with `&v=` and the extent: the given box, or the whole world |
| Url.LayersBack | src/nasaworldviewassistant/tools/worldview.py:213-214 | the comma-joined `l=` value splits back into the layer ids |
| Dates.ParseIso | src/nasaworldviewassistant/tools/worldview.py:46-49 | a successful read gives a valid wall-clock instant and an offset of less than a day |
| Dates.ToUtc | src/nasaworldviewassistant/tools/worldview.py:50 | a converted instant is valid and keeps its seconds |
| Dates.ToUtcShift | src/nasaworldviewassistant/tools/worldview.py:50 | converting to UTC subtracts exactly the offset, counted in minutes since year 1 |
| Dates.ToUtcFails | src/nasaworldviewassistant/tools/worldview.py:50-55 | conversion fails exactly when an instant on 0001-01-01 moves back before midnight or one on 9999-12-31 moves past it |
| Dates.ToUtcZero | src/nasaworldviewassistant/tools/worldview.py:50 | an instant at offset zero is left unchanged |
| Dates.NormalizeDate | src/nasaworldviewassistant/tools/worldview.py:40-55 | the time is always a valid instant |
| Dates.ParseFormatDate | src/nasaworldviewassistant/tools/worldview.py:49 | a date written as `YYYY-MM-DD` reads back as itself |
| Dates.ParseStampUtc | src/nasaworldviewassistant/tools/worldview.py:47 | a written wall-clock time followed by `+00:00` reads back as that instant at offset zero |
| Dates.NormalizeFormat | src/nasaworldviewassistant/tools/worldview.py:44-51 | reading back a time that `_iso_date` wrote gives the same instant |
| Dates.IsoDateIdempotent | src/nasaworldviewassistant/tools/worldview.py:40-55 | `_iso_date` applied to its own output returns that output |
| Dates.DateOnlyIsMidnight | src/nasaworldviewassistant/tools/worldview.py:48-51 | a plain `YYYY-MM-DD` gives that day's `T00:00:00Z` |
| Dates.AbsentIsToday | src/nasaworldviewassistant/tools/worldview.py:41-43 | a missing or empty date gives today's `T00:00:00Z` |
| Dates.UnreadableIsToday | src/nasaworldviewassistant/tools/worldview.py:44-55 | text that cannot be read, or whose UTC time leaves years 1 to 9999, gives today's `T00:00:00Z` |
| Dates.NormalizeShift | src/nasaworldviewassistant/tools/worldview.py:44-51 | a readable date-time is moved to UTC by its own offset, or by the host's when it has none |
| Resolver.MergeHeuristic | src/nasaworldviewassistant/tools/worldview.py:266-271 | the merge only appends; starting below four it ends with at most four, and starting at four or more it adds at most one; when it stops short of four every offline pick is in the result |
| Resolver.MergeAll | src/nasaworldviewassistant/tools/worldview.py:266-271 | distinct new picks that fit under four are all appended in order, so the merge is plain concatenation |
| Resolver.MergeHeuristicFacts | src/nasaworldviewassistant/tools/worldview.py:266-271 | the merge keeps the selection distinct and adds only offline picks that were not yet selected |
| Resolver.Searched | src/nasaworldviewassistant/tools/worldview.py:255-264 | the search-or-fallback selection is never empty |
| Resolver.SearchedFacts | src/nasaworldviewassistant/tools/worldview.py:255-264 | the searched ids are distinct and at most four, each the default base id or a catalog id |
| Resolver.CompleteFacts | src/nasaworldviewassistant/tools/worldview.py:266-284 | completing a non-empty distinct selection gives one to four distinct ids, each searched, picked offline or the base layer |
| Resolver.CompleteKeepsTrueColorHead | src/nasaworldviewassistant/tools/worldview.py:273-284 | a selection whose first id is true-colour gets no base layer and keeps that id first |
| Resolver.CompletePutsBaseFirst | src/nasaworldviewassistant/tools/worldview.py:273-284 | when the base step fires with a new base id, that id comes first and survives the cut, followed by the first three merged ids |
| Resolver.BaseLayerFacts | src/nasaworldviewassistant/tools/worldview.py:277-280 | the base id is the default one or, after a successful fetch, a catalog id |
| Resolver.ExplicitLayersWin | src/nasaworldviewassistant/tools/worldview.py:252-253 | non-empty explicit layers give their first four ids verbatim, whatever the query and the catalog |
| Resolver.ResolvedFacts | src/nasaworldviewassistant/tools/worldview.py:254-284 | without explicit layers the link carries one to four distinct ids, each the default base id, a catalog id or an offline pick |
| Resolver.FailedFetchIsDefaultPlusOffline | src/nasaworldviewassistant/tools/worldview.py:262-284 | after a failed fetch the layers are exactly the default base id followed by every offline pick, in order |
| Resolver.MergeDefaultPicks | src/nasaworldviewassistant/tools/worldview.py:262-271 | the offline picks merged behind the default base id are all appended, and there are fewer than four of them |
| Resolver.DefaultNotPicked | src/nasaworldviewassistant/tools/worldview.py:262-266 | the default base id is never one of the offline picks |
| Resolver.CompleteKeepsSearchedHead | src/nasaworldviewassistant/tools/worldview.py:266-284 | the first searched layer always survives the merge, the base step and the cut to four |
| Resolver.SearchHitLinked | src/nasaworldviewassistant/tools/worldview.py:257-284 | the best catalog hit for the query is always in the link built without explicit layers |
| Resolver.CompleteNoBase | src/nasaworldviewassistant/tools/worldview.py:273-284 | without "true color" in the query and unless the merge leaves exactly one layer, no base id is added and the link gets the merge cut to four |
| Resolver.FailedFetchStartsWithDefault | src/nasaworldviewassistant/tools/worldview.py:262-284 | after a failed fetch the layers are the default base id followed by the merged offline picks, and the base step never fires |
| Resolver.LinkReadsBack | src/nasaworldviewassistant/tools/worldview.py:248-287 | the permalink reads back as the resolved layers, the normalised time and the inferred extent (or the world extent) |
| Resolver.WorldExtentByDefault | src/nasaworldviewassistant/tools/worldview.py:248-287 | with no usable box argument and no known place in the query, the permalink ends with `&v=-180,-90,180,90` |
| Resolver.CompleteHasTrueColor | src/nasaworldviewassistant/tools/worldview.py:266-284 | asked for "true color", with at most four distinct searched ids, a true-colour base id on offer and no true-colour offline pick, the completed and cut selection holds a true-colour id |
| Resolver.NoMarkerStart | src/nasaworldviewassistant/tools/worldview.py:273 | an id with no `C` at any place the marker could start does not contain `CorrectedReflectance_TrueColor` |
| Resolver.RulesNotTrueColor | src/nasaworldviewassistant/tools/worldview.py:102-115 | none of the seven rule layers contains `CorrectedReflectance_TrueColor` |
| Resolver.OfflineNotTrueColor | src/nasaworldviewassistant/tools/worldview.py:98-120 | no offline pick is a true-colour id |
| Resolver.TrueColorResolved | src/nasaworldviewassistant/tools/worldview.py:248-284 | a query containing "true color", without explicit layers, resolves to layers holding a true-colour id whenever the base id on offer carries the marker, which it always does after a failed fetch |
| Resolver.TitleOnlyBase | src/nasaworldviewassistant/tools/worldview.py:63-78 | a catalog whose only true-colour-looking layer is `A`, titled "True Color", offers `A` as its base id, and `A` does not carry the marker |
| Resolver.IsoHasNoAmp | src/nasaworldviewassistant/tools/worldview.py:51 | a written time contains no `&`, so it cannot break the link's parameters |
| Agent.PrepareNode | src/nasaworldviewassistant/graph.py:74-103 | `prepare` adds at most two messages and clears the output, the images and the user input |
| Agent.PrepareFacts | src/nasaworldviewassistant/graph.py:82-96 | a system message is added, and first, exactly when the history has none; the stripped human prompt with the raw input is added exactly when it is not blank; afterwards the history holds a system message |
| Agent.PreparedHumanStripped | src/nasaworldviewassistant/graph.py:85-96 | an added human message is non-empty and has no whitespace at either end |
| Agent.ToolMessagesSpec | src/nasaworldviewassistant/graph.py:131-143 | a round yields one tool message per call naming a known tool, in call order, carrying that call's id and its result or `Tool error: ` plus the error |
| Agent.Known | src/nasaworldviewassistant/graph.py:132-138 | the answered calls are exactly those naming a known tool: all of them when every tool is known, none when none is |
| Agent.KnownAppend | src/nasaworldviewassistant/graph.py:132-138 | filtering calls requested one after the other gives the known calls of the first followed by those of the second, so the filter keeps request order |
| Agent.ToolMessagesAppend | src/nasaworldviewassistant/graph.py:131-143 | the tool messages for calls requested one after the other are those of the first calls followed by those of the later ones |
| Agent.NoAnswersIff | src/nasaworldviewassistant/graph.py:136-146 | a round yields no tool message exactly when every call names an unknown tool |
| Agent.LlmNode | src/nasaworldviewassistant/graph.py:106-158 | the model is called at most four times, and no images are returned |
| Agent.LlmEmptyHistory | src/nasaworldviewassistant/graph.py:111-113 | an empty history returns no messages and an empty output without calling the model |
| Agent.LlmFacts | src/nasaworldviewassistant/graph.py:118-157 | the model is called one to four times, first on the history and then on each transcript extended by the last reply and its non-empty tool messages; the messages returned are exactly that growth; the output is the last reply's text; fewer than four calls means the last reply drew no tool message |
| Agent.RoundsFacts | src/nasaworldviewassistant/graph.py:124-154 | the round loop keeps the transcript equal to the history followed by the new messages and stops within three rounds |
| Agent.AllUnknownStops | src/nasaworldviewassistant/graph.py:145-146 | when the first reply names only unknown tools, the loop stops after that single call and returns just that reply |
| Agent.TurnFacts | src/nasaworldviewassistant/graph.py:160-169 | a turn of prepare-then-llm always calls the model, one to four times, on the prepared history; it appends the prepared and produced messages, clears the user input and the images, and outputs the last reply's text |

## Left out

- `_fetch_wv_config` (the HTTP request and JSON decoding) is replaced by the `Fetch` parameter. An exception raised while fetching is `Failed`. A configuration without `layers` is an empty catalog. A non-object `layers`, and non-object layer metadata, are not modelled.
- `Resolver.ResolveLayers`: an exception raised inside `_search_layers` after a successful fetch is not modelled. The model only has a failed fetch, handled at worldview.py:262-264.
- `Dates.NormalizeDate`: it reads only the `datetime.fromisoformat` forms listed here: `YYYY-MM-DD`; or the date, any one separator character, then `HH`, `HH:MM` or `HH:MM:SS`; optionally followed by a `±HH:MM` offset. Fractional seconds, other offset spellings, week dates and the other forms some Python versions accept are read as unreadable. Such input falls back to today, where Python would give a time.
- `Dates.NormalizeDate`: a date-time without an offset is converted with a fixed host offset parameter. Daylight-saving changes of the host zone are not modelled.
- `Dates.Pad4`: years below 1000 are written with four digits. The C library's `%Y` may write them without leading zeros.
- `datetime.now` becomes the `today` parameter.
- `Text.Lower` lower-cases ASCII letters only. Python's `str.lower` also folds other scripts.
- `make_llm`, `bind_tools`, `AzureChatOpenAI` and `tool.invoke` are replaced by the model and tool functions. The `@tool` wrapper is left out.
  - A reply that is not an `AIMessage` is not modelled.
  - A missing tool name counts as an unknown tool.
  - Tool arguments are kept as opaque text.
- `Agent.LlmNode`: tool invocation is assumed to be free of side effects, so the tools' effects on the world are not modelled.
- `read_prompt` and `build_messages` (prompt files and `str.format`) are replaced by the `Builder` function. The human message's extra keyword arguments and response metadata are reduced to the raw input.
- The LangGraph `add_messages` reducer is modelled as appending. Its replacement of messages by id is not modelled.
- `invoke_agent` and `stream_agent` are left out: Postgres checkpointing and graph-runtime plumbing. So are the FastAPI, SSE and WebSocket server in `main.py` and the `.env` loading in `config.py`.
- `Resolver.FailedFetchStartsWithDefault`: the source's branch that offers the default base layer when no configuration is held (worldview.py:279-280) can never add anything. After a failed fetch the selection already starts with that layer, which is a true-colour layer. The lemma records this.
