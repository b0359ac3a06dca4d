/**
 * The query partitioner (`_split_query_parts`): lower-case the query, split it
 * into phrases, strip leading connector words, drop blanks and de-duplicate.
 *
 * The separator loop is modelled as written: every pass rebuilds `tmp` from the
 * unchanged one-element `parts`, and only the assignment after the loop keeps
 * a pass, so only the last separator, " & ", ever splits the query.
 */
module Query {
  import opened Text
  import opened Seqs

  /** The separators the loop iterates over, in order. */
  const Separators: seq<string> := ["+", ",", " and ", " & "]

  /** The leading connector words, tested in this order. */
  const Connectors: seq<string> :=
    ["show ", "give me ", "display ", "visualize ", "map ", "over ", "in ", "around ", "near "]

  /** A phrase worth keeping: non-empty with no whitespace at either end. */
  predicate Trimmed(p: string) {
    |p| > 0 && !IsSpace(p[0]) && !IsSpace(p[|p| - 1])
  }

  lemma ContainsTrans(a: string, b: string, c: string)
    requires Contains(a, b) && Contains(b, c)
    ensures Contains(a, c)
  {
    var i :| 0 <= i <= |a| - |b| && OccursAt(a, b, i);
    var j :| 0 <= j <= |b| - |c| && OccursAt(b, c, j);
    forall x | 0 <= x < |c| ensures a[i + j + x] == c[x] {
      assert c[x] == b[j + x];
      assert b[j + x] == a[i + j + x];
    }
    assert OccursAt(a, c, i + j);
  }

  lemma ContainsSuffix(a: string, k: nat)
    requires k <= |a|
    ensures Contains(a, a[k..])
  {
    assert OccursAt(a, a[k..], k);
  }

  /** The stripped, non-blank pieces of one `p.split(sep)`. */
  function StrippedPieces(pieces: seq<string>): seq<string>
    decreases |pieces|
  {
    if |pieces| == 0 then []
    else
      var s := Strip(pieces[0]);
      if s == [] then StrippedPieces(pieces[1..]) else [s] + StrippedPieces(pieces[1..])
  }

  /** Every kept piece is trimmed, and a string no piece contains is contained in none of them. */
  lemma {:induction false} StrippedPiecesFacts(pieces: seq<string>, t: string)
    requires forall j :: 0 <= j < |pieces| ==> !Contains(pieces[j], t)
    ensures forall k :: 0 <= k < |StrippedPieces(pieces)| ==>
              Trimmed(StrippedPieces(pieces)[k]) && !Contains(StrippedPieces(pieces)[k], t)
    decreases |pieces|
  {
    if |pieces| > 0 {
      StrippedPiecesFacts(pieces[1..], t);
      var s := Strip(pieces[0]);
      StripEnds(pieces[0]);
      StripInside(pieces[0]);
      if Contains(s, t) {
        ContainsTrans(pieces[0], s, t);
      }
    }
  }

  /** One pass of the separator loop over `parts`. */
  function SplitPass(parts: seq<string>, sep: string): seq<string>
    requires |sep| > 0
    decreases |parts|
  {
    if |parts| == 0 then []
    else StrippedPieces(SplitOn(parts[0], sep)) + SplitPass(parts[1..], sep)
  }

  /** Every phrase a pass produces is trimmed and free of its separator. */
  lemma {:induction false} SplitPassFacts(parts: seq<string>, sep: string)
    requires |sep| > 0
    ensures forall k :: 0 <= k < |SplitPass(parts, sep)| ==>
              Trimmed(SplitPass(parts, sep)[k]) && !Contains(SplitPass(parts, sep)[k], sep)
    decreases |parts|
  {
    if |parts| > 0 {
      StrippedPiecesFacts(SplitOn(parts[0], sep), sep);
      SplitPassFacts(parts[1..], sep);
    }
  }

  predicate NonEmptyAll(seps: seq<string>) {
    forall k :: 0 <= k < |seps| ==> |seps[k]| > 0
  }

  /** The separator loop as written: `tmp` is recomputed from the same `parts` on each pass. */
  function SeparatorLoop(parts: seq<string>, seps: seq<string>, tmp: seq<string>): seq<string>
    requires NonEmptyAll(seps)
    decreases |seps|
  {
    if |seps| == 0 then tmp else SeparatorLoop(parts, seps[1..], SplitPass(parts, seps[0]))
  }

  /** Only the last separator's pass survives the loop. */
  lemma {:induction false} SeparatorLoopKeepsLast(parts: seq<string>, seps: seq<string>, tmp: seq<string>)
    requires NonEmptyAll(seps) && |seps| > 0
    ensures SeparatorLoop(parts, seps, tmp) == SplitPass(parts, seps[|seps| - 1])
    decreases |seps|
  {
    if |seps| > 1 {
      SeparatorLoopKeepsLast(parts, seps[1..], SplitPass(parts, seps[0]));
    }
  }

  predicate EndsInSpace(c: string) {
    |c| > 0 && IsSpace(c[|c| - 1])
  }

  /**
   * The connector loop: each connector is tested once, in order, and removed
   * when the phrase starts with it, so several can be removed in sequence.
   */
  function StripConnectors(p: string, cs: seq<string>): (r: string)
    ensures |r| <= |p|
    decreases |cs|
  {
    if |cs| == 0 then p
    else StripConnectors(if StartsWith(p, cs[0]) then p[|cs[0]|..] else p, cs[1..])
  }

  /** What is left after the connectors is a suffix of the phrase. */
  lemma {:induction false} StripConnectorsSuffix(p: string, cs: seq<string>)
    ensures var r := StripConnectors(p, cs); r == p[|p| - |r|..]
    decreases |cs|
  {
    if |cs| > 0 {
      var q := if StartsWith(p, cs[0]) then p[|cs[0]|..] else p;
      StripConnectorsSuffix(q, cs[1..]);
      assert q == p[|p| - |q|..];
    }
  }

  /**
   * Connectors all end in a space, so a phrase that ends in a non-space keeps
   * that last character: stripping connectors never empties a phrase.
   */
  lemma {:induction false} StripConnectorsKeepsLast(p: string, cs: seq<string>)
    requires forall k :: 0 <= k < |cs| ==> EndsInSpace(cs[k])
    requires |p| > 0 && !IsSpace(p[|p| - 1])
    ensures var r := StripConnectors(p, cs); |r| > 0 && r[|r| - 1] == p[|p| - 1]
    decreases |cs|
  {
    if |cs| > 0 {
      var q := if StartsWith(p, cs[0]) then p[|cs[0]|..] else p;
      if StartsWith(p, cs[0]) {
        assert p[|cs[0]| - 1] == p[..|cs[0]|][|cs[0]| - 1];
      }
      StripConnectorsKeepsLast(q, cs[1..]);
    }
  }

  /** A phrase that starts with no connector is left as it is. */
  lemma {:induction false} StripConnectorsNoMatch(p: string, cs: seq<string>)
    requires forall k :: 0 <= k < |cs| ==> !StartsWith(p, cs[k])
    ensures StripConnectors(p, cs) == p
    decreases |cs|
  {
    if |cs| > 0 {
      StripConnectorsNoMatch(p, cs[1..]);
    }
  }

  /** Connectors the phrase does not start with are skipped. */
  lemma {:induction false} StripConnectorsSkip(p: string, cs: seq<string>, n: nat)
    requires n <= |cs|
    requires forall k :: 0 <= k < n ==> !StartsWith(p, cs[k])
    ensures StripConnectors(p, cs) == StripConnectors(p, cs[n..])
    decreases n
  {
    if n > 0 {
      assert !StartsWith(p, cs[0]);
      assert forall k :: 0 <= k < n - 1 ==> !StartsWith(p, cs[1..][k]) by {
        forall k | 0 <= k < n - 1 ensures !StartsWith(p, cs[1..][k]) {
          assert cs[1..][k] == cs[k + 1];
        }
      }
      StripConnectorsSkip(p, cs[1..], n - 1);
      assert cs[1..][n - 1..] == cs[n..];
    }
  }

  /** A connector the phrase starts with is removed, and the loop goes on with the next one. */
  lemma StripConnectorsTake(p: string, cs: seq<string>, n: nat)
    requires n < |cs| && StartsWith(p, cs[n])
    ensures StripConnectors(p, cs[n..]) == StripConnectors(p[|cs[n]|..], cs[n + 1..])
  {
    assert cs[n..][0] == cs[n] && cs[n..][1..] == cs[n + 1..];
  }

  /**
   * Two connectors in list order are both removed: `cs[i] + cs[j] + s` loses
   * both when no earlier connector matches at either point and no later one
   * matches what remains.
   */
  lemma StripsTwo(cs: seq<string>, i: nat, j: nat, s: string)
    requires i < j < |cs|
    requires forall k :: 0 <= k < i ==> !StartsWith(cs[i] + cs[j] + s, cs[k])
    requires forall k :: i < k < j ==> !StartsWith(cs[j] + s, cs[k])
    requires forall k :: j < k < |cs| ==> !StartsWith(s, cs[k])
    ensures StripConnectors(cs[i] + cs[j] + s, cs) == s
  {
    var p := cs[i] + cs[j] + s;
    StripConnectorsSkip(p, cs, i);
    assert StartsWith(p, cs[i]) by { assert p[..|cs[i]|] == cs[i]; }
    StripConnectorsTake(p, cs, i);
    var q := cs[j] + s;
    assert p[|cs[i]|..] == q;
    var rest := cs[i + 1..];
    assert forall k :: 0 <= k < j - i - 1 ==> !StartsWith(q, rest[k]) by {
      forall k | 0 <= k < j - i - 1 ensures !StartsWith(q, rest[k]) {
        assert rest[k] == cs[i + 1 + k];
      }
    }
    StripConnectorsSkip(q, rest, j - i - 1);
    assert rest[j - i - 1..] == cs[j..];
    assert StartsWith(q, cs[j]) by { assert q[..|cs[j]|] == cs[j]; }
    StripConnectorsTake(q, cs, j);
    assert q[|cs[j]|..] == s;
    var tail := cs[j + 1..];
    assert forall k :: 0 <= k < |tail| ==> !StartsWith(s, tail[k]) by {
      forall k | 0 <= k < |tail| ensures !StartsWith(s, tail[k]) {
        assert tail[k] == cs[j + 1 + k];
      }
    }
    StripConnectorsNoMatch(s, tail);
  }

  /** "show over fires" loses both "show " and "over ". */
  lemma StripsSeveral()
    ensures StripConnectors("show over fires", Connectors) == "fires"
  {
    var cs := Connectors;
    assert cs[0] + cs[5] + "fires" == "show over fires";
    assert forall k :: 0 < k < 5 ==> !StartsWith("over fires", cs[k]) by {
      assert "over fires"[0] == 'o';
      assert cs[1][0] == 'g' && cs[2][0] == 'd' && cs[3][0] == 'v' && cs[4][0] == 'm';
    }
    assert forall k :: 5 < k < |cs| ==> !StartsWith("fires", cs[k]) by {
      assert "fires"[0] == 'f';
      assert cs[6][0] == 'i' && cs[7][0] == 'a' && cs[8][0] == 'n';
    }
    StripsTwo(cs, 0, 5, "fires");
  }

  /** The cleaning loop: strip the connectors `cs`, then whitespace, from every part. */
  function CleanParts(parts: seq<string>, cs: seq<string>): (r: seq<string>)
    ensures |r| == |parts|
    decreases |parts|
  {
    if |parts| == 0 then []
    else [Strip(StripConnectors(parts[0], cs))] + CleanParts(parts[1..], cs)
  }

  lemma CleanOneNonEmpty(p: string, cs: seq<string>)
    requires forall k :: 0 <= k < |cs| ==> EndsInSpace(cs[k])
    requires Trimmed(p)
    ensures |Strip(StripConnectors(p, cs))| > 0
  {
    var c := StripConnectors(p, cs);
    StripConnectorsKeepsLast(p, cs);
    assert !AllSpace(c) by {
      assert !IsSpace(c[|c| - 1]);
    }
    StripEmptyIff(c);
  }

  lemma CleanOneAvoids(p: string, cs: seq<string>, t: string)
    requires !Contains(p, t)
    ensures !Contains(Strip(StripConnectors(p, cs)), t)
  {
    var c := StripConnectors(p, cs);
    var s := Strip(c);
    StripInside(c);
    StripConnectorsSuffix(p, cs);
    ContainsSuffix(p, |p| - |c|);
    ContainsTrans(p, c, s);
    if Contains(s, t) {
      ContainsTrans(p, s, t);
    }
  }

  /**
   * With space-terminated connectors, a trimmed part never cleans down to
   * nothing; and cleaning only cuts a part down, so it cannot create an
   * occurrence of `t`.
   */
  lemma {:induction false} CleanPartsFacts(parts: seq<string>, cs: seq<string>, t: string)
    requires forall k :: 0 <= k < |cs| ==> EndsInSpace(cs[k])
    requires forall k :: 0 <= k < |parts| ==> Trimmed(parts[k]) && !Contains(parts[k], t)
    ensures forall k :: 0 <= k < |parts| ==>
              |CleanParts(parts, cs)[k]| > 0 && !Contains(CleanParts(parts, cs)[k], t)
    decreases |parts|
  {
    if |parts| > 0 {
      CleanOneNonEmpty(parts[0], cs);
      CleanOneAvoids(parts[0], cs, t);
      CleanPartsFacts(parts[1..], cs, t);
    }
  }

  lemma ConnectorsEndInSpace()
    ensures forall k :: 0 <= k < |Connectors| ==> EndsInSpace(Connectors[k])
  {
  }

  /** The phrase a `" & "` piece stands for: stripped, its connectors removed, stripped again. */
  function Phrase(piece: string): string {
    Strip(StripConnectors(Strip(piece), Connectors))
  }

  /** The reference reading of the pieces: the phrase of every non-blank piece, in order. */
  function Phrases(pieces: seq<string>): seq<string>
    decreases |pieces|
  {
    if |pieces| == 0 then []
    else (if AllSpace(pieces[0]) then [] else [Phrase(pieces[0])]) + Phrases(pieces[1..])
  }

  /** Stripping the pieces and then cleaning them is the reference reading. */
  lemma {:induction false} CleanedIsPhrases(pieces: seq<string>)
    ensures CleanParts(StrippedPieces(pieces), Connectors) == Phrases(pieces)
    decreases |pieces|
  {
    if |pieces| > 0 {
      CleanedIsPhrases(pieces[1..]);
      var s := Strip(pieces[0]);
      StripEmptyIff(pieces[0]);
      if s != [] {
        var rest := StrippedPieces(pieces[1..]);
        assert ([s] + rest)[1..] == rest;
      }
    }
  }

  /** A phrase of the reference reading comes from some non-blank piece, and every non-blank piece gives one. */
  lemma {:induction false} PhrasesMembers(pieces: seq<string>, p: string)
    ensures p in Phrases(pieces) <==> ReadsAs(pieces, p)
    decreases |pieces|
  {
    if |pieces| > 0 {
      var head := if AllSpace(pieces[0]) then [] else [Phrase(pieces[0])];
      assert Phrases(pieces) == head + Phrases(pieces[1..]);
      PhrasesMembers(pieces[1..], p);
      if ReadsAs(pieces[1..], p) {
        var j :| 0 <= j < |pieces| - 1 && !AllSpace(pieces[1..][j]) && p == Phrase(pieces[1..][j]);
        assert pieces[j + 1] == pieces[1..][j];
      }
      if ReadsAs(pieces, p) {
        var j :| 0 <= j < |pieces| && !AllSpace(pieces[j]) && p == Phrase(pieces[j]);
        if j > 0 {
          assert pieces[1..][j - 1] == pieces[j];
        }
      }
    }
  }

  /** Some non-blank piece reads as the phrase `p`. */
  predicate ReadsAs(pieces: seq<string>, p: string) {
    exists j :: 0 <= j < |pieces| && !AllSpace(pieces[j]) && p == Phrase(pieces[j])
  }

  lemma PhrasesDeduped(pieces: seq<string>, p: string)
    ensures p in Dedupe(Phrases(pieces)) <==> ReadsAs(pieces, p)
  {
    DedupeMember(Phrases(pieces), p);
    PhrasesMembers(pieces, p);
  }

  /**
   * The phrases of a query, as `_split_query_parts` returns them: the
   * reference reading of the lowered query's `" & "` pieces, de-duplicated.
   */
  function SplitQueryParts(q: string): (r: seq<string>)
    ensures r == Dedupe(Phrases(SplitOn(Lower(q), " & ")))
    ensures forall k :: 0 <= k < |r| ==> |r[k]| > 0 && !Contains(r[k], " & ")
    ensures Distinct(r)
    ensures AllSpace(q) ==> r == []
    ensures !Contains(Lower(q), " & ") ==> |r| <= 1
  {
    var ql := Lower(q);
    SeparatorLoopKeepsLast([ql], Separators, []);
    CleanedAsPhrases(q);
    PartsFacts(q);
    Dedupe(CleanParts(SeparatorLoop([ql], Separators, []), Connectors))
  }

  lemma CleanedAsPhrases(q: string)
    ensures Cleaned(q) == Phrases(SplitOn(Lower(q), " & "))
  {
    SplitPassSingle(Lower(q), " & ");
    CleanedIsPhrases(SplitOn(Lower(q), " & "));
  }

  /** A pass over one part is the stripped pieces of that part. */
  lemma SplitPassSingle(x: string, sep: string)
    requires |sep| > 0
    ensures SplitPass([x], sep) == StrippedPieces(SplitOn(x, sep))
  {
    assert SplitPass([x], sep) == StrippedPieces(SplitOn(x, sep)) + SplitPass([], sep);
  }

  /**
   * A string is a phrase of the query exactly when some non-blank `" & "`
   * piece of the lowered query reads as it.
   */
  lemma SplitQueryPartsSpec(q: string, p: string)
    ensures p in SplitQueryParts(q) <==> ReadsAs(SplitOn(Lower(q), " & "), p)
  {
    PhrasesDeduped(SplitOn(Lower(q), " & "), p);
  }

  /** A non-blank query without `" & "` is one phrase: the whole lowered query, cleaned. */
  lemma SingleNonBlank(q: string)
    requires !AllSpace(q) && !Contains(Lower(q), " & ")
    ensures SplitQueryParts(q) == [Phrase(Lower(q))]
  {
    var ql := Lower(q);
    assert SplitOn(ql, " & ") == [ql];
    LowerBlank(q);
    PhrasesOne(ql);
    DedupeOfDistinct([Phrase(ql)]);
  }

  lemma LowerBlank(q: string)
    ensures AllSpace(Lower(q)) <==> AllSpace(q)
  {
    if !AllSpace(q) {
      var i :| 0 <= i < |q| && !IsSpace(q[i]);
      assert Lower(q)[i] == LowerChar(q[i]);
    }
  }

  lemma PhrasesOne(x: string)
    requires !AllSpace(x)
    ensures Phrases([x]) == [Phrase(x)]
  {
    assert Phrases([x]) == [Phrase(x)] + Phrases([x][1..]);
  }

  /** The phrases before de-duplication: the cleaned pieces of the " & " pass. */
  function Cleaned(q: string): seq<string> {
    CleanParts(SplitPass([Lower(q)], " & "), Connectors)
  }

  lemma CleanedShape(q: string)
    ensures forall k :: 0 <= k < |Cleaned(q)| ==> |Cleaned(q)[k]| > 0 && !Contains(Cleaned(q)[k], " & ")
  {
    var parts := SplitPass([Lower(q)], " & ");
    SplitPassFacts([Lower(q)], " & ");
    ConnectorsEndInSpace();
    CleanPartsFacts(parts, Connectors, " & ");
  }

  lemma CleanedBlank(q: string)
    requires AllSpace(q)
    ensures Cleaned(q) == []
  {
    var ql := Lower(q);
    var pieces := SplitOn(ql, " & ");
    assert SplitPass([ql], " & ") == StrippedPieces(pieces) + SplitPass([], " & ");
    assert AllSpace(ql);
    AllSpacePieces(ql);
    NoTrimmedPieces(pieces);
  }

  lemma CleanedSingle(q: string)
    requires !Contains(Lower(q), " & ")
    ensures |Dedupe(Cleaned(q))| <= 1
  {
    var ql := Lower(q);
    var pieces := SplitOn(ql, " & ");
    assert SplitPass([ql], " & ") == StrippedPieces(pieces) + SplitPass([], " & ");
    assert pieces == [ql];
    var cleaned := Cleaned(q);
    if |cleaned| == 1 {
      assert Dedupe(cleaned) == Dedupe([]) + [cleaned[0]] by {
        assert cleaned[..0] == [];
      }
    }
  }

  lemma PartsFacts(q: string)
    ensures var r := Dedupe(Cleaned(q));
      && (forall k :: 0 <= k < |r| ==> |r[k]| > 0 && !Contains(r[k], " & "))
      && (AllSpace(q) ==> r == [])
      && (!Contains(Lower(q), " & ") ==> |r| <= 1)
  {
    var r := Dedupe(Cleaned(q));
    CleanedShape(q);
    assert forall k :: 0 <= k < |r| ==> r[k] in Cleaned(q);
    if AllSpace(q) {
      CleanedBlank(q);
    }
    if !Contains(Lower(q), " & ") {
      CleanedSingle(q);
    }
  }

  lemma {:induction false} AllSpacePieces(s: string)
    requires AllSpace(s)
    ensures forall k :: 0 <= k < |SplitOn(s, " & ")| ==> AllSpace(SplitOn(s, " & ")[k])
    decreases |s|
  {
    match Find(s, " & ")
    case None =>
    case Some(i) =>
      AllSpacePieces(s[i + 3..]);
  }

  lemma {:induction false} NoTrimmedPieces(pieces: seq<string>)
    requires forall k :: 0 <= k < |pieces| ==> AllSpace(pieces[k])
    ensures StrippedPieces(pieces) == []
    decreases |pieces|
  {
    if |pieces| > 0 {
      StripEmptyIff(pieces[0]);
      NoTrimmedPieces(pieces[1..]);
    }
  }
}
