/**
 * Picking one layer for a phrase: the positive-scoring layers, sorted by score
 * with Python's stable descending sort, and the first one not yet selected.
 */
module Selection {
  import opened Wrappers
  import opened Catalog

  datatype Scored = Scored(score: nat, id: string)

  /** A way of scoring a layer against a phrase (`score_layer`). */
  type Scorer = (Layer, string) -> nat

  /** The `(score, id)` pairs of the layers scoring above zero, in catalog order. */
  function Candidates(score: Scorer, cat: Catalog, part: string): (r: seq<Scored>)
    ensures forall k :: 0 <= k < |r| ==> r[k].score > 0
    decreases |cat|
  {
    if |cat| == 0 then []
    else
      var s := score(cat[0], part);
      (if s > 0 then [Scored(s, cat[0].id)] else []) + Candidates(score, cat[1..], part)
  }

  /** The candidates are exactly the catalog's positive-scoring layers with their scores. */
  lemma {:induction false} CandidatesExact(score: Scorer, cat: Catalog, part: string, c: Scored)
    ensures c in Candidates(score, cat, part) <==>
              exists i :: 0 <= i < |cat| && c == Scored(score(cat[i], part), cat[i].id) && c.score > 0
    decreases |cat|
  {
    if |cat| > 0 {
      CandidatesExact(score, cat[1..], part, c);
      if exists i :: 0 <= i < |cat[1..]| && c == Scored(score(cat[1..][i], part), cat[1..][i].id) && c.score > 0 {
        var i :| 0 <= i < |cat[1..]| && c == Scored(score(cat[1..][i], part), cat[1..][i].id) && c.score > 0;
        assert cat[i + 1] == cat[1..][i];
      }
      if exists i :: 0 <= i < |cat| && c == Scored(score(cat[i], part), cat[i].id) && c.score > 0 {
        var i :| 0 <= i < |cat| && c == Scored(score(cat[i], part), cat[i].id) && c.score > 0;
        if i > 0 {
          assert cat[1..][i - 1] == cat[i];
        }
      }
    }
  }

  /** Candidate `c` is the scored entry of catalog position `i`. */
  predicate ScoredAt(score: Scorer, cat: Catalog, part: string, i: int, c: Scored) {
    0 <= i < |cat| && c == Scored(score(cat[i], part), cat[i].id)
  }

  /** Candidates `a` before `b` of `r` come from catalog entries in the same order. */
  ghost predicate OrderedPair(score: Scorer, cat: Catalog, part: string, r: seq<Scored>, a: int, b: int)
    requires 0 <= a < b < |r|
  {
    exists i, j :: i < j && ScoredAt(score, cat, part, i, r[a]) && ScoredAt(score, cat, part, j, r[b])
  }

  /** Every pair of `r` comes from catalog entries in the same order. */
  ghost predicate InCatalogOrder(score: Scorer, cat: Catalog, part: string, r: seq<Scored>) {
    forall a, b :: 0 <= a < b < |r| ==> OrderedPair(score, cat, part, r, a, b)
  }

  /** A candidate from the tail of the catalog comes from some entry after the first. */
  lemma LaterEntry(score: Scorer, cat: Catalog, part: string, c: Scored)
    requires |cat| > 0 && c in Candidates(score, cat[1..], part)
    ensures exists j :: 0 < j && ScoredAt(score, cat, part, j, c)
  {
    CandidatesExact(score, cat[1..], part, c);
    var j :| 0 <= j < |cat[1..]| && c == Scored(score(cat[1..][j], part), cat[1..][j].id) && c.score > 0;
    assert cat[1..][j] == cat[j + 1];
    assert ScoredAt(score, cat, part, j + 1, c);
  }

  /** An ordered pair for the tail of the catalog is one for the whole catalog. */
  lemma ShiftPair(score: Scorer, cat: Catalog, part: string, x: Scored, y: Scored)
    requires |cat| > 0
    requires exists i, j :: i < j && ScoredAt(score, cat[1..], part, i, x) && ScoredAt(score, cat[1..], part, j, y)
    ensures exists i, j :: i < j && ScoredAt(score, cat, part, i, x) && ScoredAt(score, cat, part, j, y)
  {
    var i, j :| i < j && ScoredAt(score, cat[1..], part, i, x) && ScoredAt(score, cat[1..], part, j, y);
    assert cat[1..][i] == cat[i + 1] && cat[1..][j] == cat[j + 1];
    assert ScoredAt(score, cat, part, i + 1, x) && ScoredAt(score, cat, part, j + 1, y);
  }

  /**
   * The candidates keep catalog order: of two candidates, the earlier one
   * comes from an earlier catalog entry.
   */
  lemma {:induction false} CandidatesInOrder(score: Scorer, cat: Catalog, part: string)
    ensures InCatalogOrder(score, cat, part, Candidates(score, cat, part))
    decreases |cat|
  {
    if |cat| > 0 {
      var r := Candidates(score, cat, part);
      var rest := Candidates(score, cat[1..], part);
      var head := if score(cat[0], part) > 0 then [Scored(score(cat[0], part), cat[0].id)] else [];
      assert r == head + rest;
      CandidatesInOrder(score, cat[1..], part);
      forall a, b | 0 <= a < b < |r| ensures OrderedPair(score, cat, part, r, a, b) {
        if a < |head| {
          assert r[b] == rest[b - 1];
          LaterEntry(score, cat, part, r[b]);
          var j :| 0 < j && ScoredAt(score, cat, part, j, r[b]);
          assert ScoredAt(score, cat, part, 0, r[a]);
        } else {
          var a', b' := a - |head|, b - |head|;
          assert r[a] == rest[a'] && r[b] == rest[b'];
          assert OrderedPair(score, cat[1..], part, rest, a', b');
          ShiftPair(score, cat, part, r[a], r[b]);
        }
      }
    }
  }

  predicate SortedDesc(xs: seq<Scored>) {
    forall i, j :: 0 <= i < j < |xs| ==> xs[i].score >= xs[j].score
  }

  /** Insert `x` ahead of the first element that does not outscore it. */
  function Insert(x: Scored, xs: seq<Scored>): (r: seq<Scored>)
    ensures |r| == |xs| + 1
    ensures multiset(r) == multiset(xs) + multiset{x}
    decreases |xs|
  {
    if |xs| == 0 || xs[0].score <= x.score then [x] + xs
    else
      assert xs == [xs[0]] + xs[1..];
      [xs[0]] + Insert(x, xs[1..])
  }

  /**
   * `list.sort(key=score, reverse=True)`: descending by score and stable, so
   * equal scores keep their catalog order. Inserting each element ahead of the
   * equal-scored ones that follow it realises exactly that order.
   */
  function SortDesc(xs: seq<Scored>): (r: seq<Scored>)
    ensures multiset(r) == multiset(xs)
    decreases |xs|
  {
    if |xs| == 0 then []
    else
      assert xs == [xs[0]] + xs[1..];
      Insert(xs[0], SortDesc(xs[1..]))
  }

  lemma {:induction false} InsertSorted(x: Scored, xs: seq<Scored>)
    requires SortedDesc(xs)
    ensures SortedDesc(Insert(x, xs))
    decreases |xs|
  {
    if |xs| > 0 && xs[0].score > x.score {
      InsertSorted(x, xs[1..]);
      var t := Insert(x, xs[1..]);
      forall k | 0 <= k < |t| ensures t[k].score <= xs[0].score {
        assert t[k] in multiset(t);
        assert t[k] in multiset(xs[1..]) + multiset{x};
        if t[k] in multiset(xs[1..]) {
          var m :| 0 <= m < |xs[1..]| && xs[1..][m] == t[k];
          assert xs[m + 1] == t[k];
        }
      }
    }
  }

  lemma {:induction false} SortSorted(xs: seq<Scored>)
    ensures SortedDesc(SortDesc(xs))
    decreases |xs|
  {
    if |xs| > 0 {
      SortSorted(xs[1..]);
      InsertSorted(xs[0], SortDesc(xs[1..]));
    }
  }

  /** The first entry whose id is not selected yet. */
  function FirstUnselected(xs: seq<Scored>, sel: seq<string>): (r: Option<Scored>)
    ensures r.Some? ==> r.value in xs && r.value.id !in sel
    ensures r.None? <==> forall k :: 0 <= k < |xs| ==> xs[k].id in sel
    decreases |xs|
  {
    if |xs| == 0 then None
    else if xs[0].id !in sel then Some(xs[0])
    else FirstUnselected(xs[1..], sel)
  }

  /** The layer `_search_layers` picks for one phrase's candidates. */
  function Pick(cands: seq<Scored>, sel: seq<string>): Option<Scored> {
    FirstUnselected(SortDesc(cands), sel)
  }

  /**
   * Reference choice: the unselected candidate with the highest score, the
   * earliest one among equal scores.
   */
  function Best(cands: seq<Scored>, sel: seq<string>): Option<Scored>
    decreases |cands|
  {
    if |cands| == 0 then None
    else
      var rest := Best(cands[1..], sel);
      if cands[0].id in sel then rest
      else if rest.None? || rest.value.score <= cands[0].score then Some(cands[0])
      else rest
  }

  /** The best unselected candidate beats every other unselected candidate and all earlier ones strictly. */
  predicate IsBestAt(cands: seq<Scored>, sel: seq<string>, i: int) {
    && 0 <= i < |cands| && cands[i].id !in sel
    && (forall j :: 0 <= j < |cands| && cands[j].id !in sel ==> cands[j].score <= cands[i].score)
    && (forall j :: 0 <= j < i && cands[j].id !in sel ==> cands[j].score < cands[i].score)
  }

  /** What `Best` returns is characterised by `IsBestAt`. */
  lemma {:induction false} BestSpec(cands: seq<Scored>, sel: seq<string>)
    ensures Best(cands, sel).None? <==> forall k :: 0 <= k < |cands| ==> cands[k].id in sel
    ensures Best(cands, sel).Some? ==> exists i :: IsBestAt(cands, sel, i) && cands[i] == Best(cands, sel).value
    decreases |cands|
  {
    if |cands| > 0 {
      var tail := cands[1..];
      BestSpec(tail, sel);
      var rest := Best(tail, sel);
      if rest.Some? {
        var i :| IsBestAt(tail, sel, i) && tail[i] == rest.value;
        if cands[0].id in sel || rest.value.score > cands[0].score {
          assert IsBestAt(cands, sel, i + 1) by {
            forall j | 0 <= j < |cands| && cands[j].id !in sel
              ensures cands[j].score <= cands[i + 1].score
              ensures j < i + 1 ==> cands[j].score < cands[i + 1].score
            {
              if j > 0 {
                assert tail[j - 1] == cands[j];
              }
            }
          }
        } else {
          assert IsBestAt(cands, sel, 0) by {
            forall j | 0 <= j < |cands| && cands[j].id !in sel
              ensures cands[j].score <= cands[0].score
            {
              if j > 0 {
                assert tail[j - 1] == cands[j];
              }
            }
          }
        }
      } else {
        assert forall j :: 1 <= j < |cands| ==> cands[j] == tail[j - 1];
      }
    }
  }

  /** Scanning `Insert(x, xs)` finds `x` unless an unselected entry of `xs` outscores it. */
  lemma {:induction false} FirstUnselectedInsert(x: Scored, xs: seq<Scored>, sel: seq<string>)
    requires SortedDesc(xs)
    ensures var f := FirstUnselected(xs, sel);
      FirstUnselected(Insert(x, xs), sel) ==
        if x.id in sel then f
        else if f.None? || f.value.score <= x.score then Some(x)
        else f
    decreases |xs|
  {
    var f := FirstUnselected(xs, sel);
    if |xs| == 0 || xs[0].score <= x.score {
      if f.Some? {
        assert f.value.score <= xs[0].score by {
          var m :| 0 <= m < |xs| && xs[m] == f.value;
        }
      }
    } else {
      FirstUnselectedInsert(x, xs[1..], sel);
    }
  }

  /** The sort-then-scan of the source picks the reference choice. */
  lemma {:induction false} PickIsBest(cands: seq<Scored>, sel: seq<string>)
    ensures Pick(cands, sel) == Best(cands, sel)
    decreases |cands|
  {
    if |cands| > 0 {
      PickIsBest(cands[1..], sel);
      SortSorted(cands[1..]);
      FirstUnselectedInsert(cands[0], SortDesc(cands[1..]), sel);
    }
  }
}
