/**
 * The Worldview permalink (`_build_worldview_url`): the base address, then
 * `l=` with the comma-joined layer ids when there are any, `t=` with the time
 * and `v=` with the extent, joined by `&`. `ParseUrl` reads such a link back.
 */
module Url {
  import opened Wrappers
  import opened Text
  import opened Bbox

  const WvBase: string := "https://worldview.earthdata.nasa.gov/"

  /** The query parameters, in order. */
  function Params(layers: seq<string>, t: string, bbox: Option<string>): (r: seq<string>)
    ensures |r| == if |layers| > 0 then 3 else 2
  {
    (if |layers| > 0 then ["l=" + Join(layers, ",")] else []) + ["t=" + t, "v=" + BboxOrDefault(bbox)]
  }

  /** `_build_worldview_url(layers, t, bbox)`. */
  function BuildUrl(layers: seq<string>, t: string, bbox: Option<string>): string {
    WvBase + "?" + Join(Params(layers, t, bbox), "&")
  }

  /** `s` ends with `suffix`. */
  predicate EndsWith(s: string, suffix: string) {
    |suffix| <= |s| && s[|s| - |suffix|..] == suffix
  }

  /** A join of two or more pieces ends with the separator and the last piece. */
  lemma {:induction false} JoinEndsWithLast(xs: seq<string>, sep: string)
    requires |xs| >= 2
    ensures EndsWith(Join(xs, sep), sep + xs[|xs| - 1])
    decreases |xs|
  {
    if |xs| > 2 {
      JoinEndsWithLast(xs[1..], sep);
      var rest := Join(xs[1..], sep);
      var tail := sep + xs[|xs| - 1];
      assert (xs[0] + sep + rest)[|xs[0] + sep + rest| - |tail|..] == rest[|rest| - |tail|..];
    }
  }

  /** Every permalink ends with the extent parameter: the given box, or the whole world. */
  lemma EndsWithExtent(layers: seq<string>, t: string, bbox: Option<string>)
    ensures EndsWith(BuildUrl(layers, t, bbox), "&v=" + BboxOrDefault(bbox))
  {
    var ps := Params(layers, t, bbox);
    var j := Join(ps, "&");
    JoinEndsWithLast(ps, "&");
    assert ps[|ps| - 1] == "v=" + BboxOrDefault(bbox);
    var tail := "&" + ps[|ps| - 1];
    assert tail == "&v=" + BboxOrDefault(bbox);
    var u := WvBase + "?" + j;
    assert u[|u| - |tail|..] == j[|j| - |tail|..];
  }

  /** What a permalink shows: the layers, the time and the extent. */
  datatype View = View(layers: seq<string>, time: string, extent: string)

  /** Read the parameters of a permalink, the text after `?`. */
  function ParseParams(rest: string): Option<View> {
    var ps := SplitOn(rest, "&");
    if |ps| == 3 && StartsWith(ps[0], "l=") && StartsWith(ps[1], "t=") && StartsWith(ps[2], "v=") then
      Some(View(SplitOn(ps[0][2..], ","), ps[1][2..], ps[2][2..]))
    else if |ps| == 2 && StartsWith(ps[0], "t=") && StartsWith(ps[1], "v=") then
      Some(View([], ps[0][2..], ps[1][2..]))
    else None
  }

  /** Read a permalink of the shape `BuildUrl` produces; anything else is `None`. */
  function ParseUrl(url: string): Option<View> {
    var prefix := WvBase + "?";
    if !StartsWith(url, prefix) then None else ParseParams(url[|prefix|..])
  }

  /** A character that occurs in no piece nor in the separator does not occur in the join. */
  lemma {:induction false} JoinAvoids(xs: seq<string>, sep: string, c: char)
    requires c !in sep
    requires forall k :: 0 <= k < |xs| ==> c !in xs[k]
    ensures c !in Join(xs, sep)
    decreases |xs|
  {
    if |xs| > 1 {
      JoinAvoids(xs[1..], sep, c);
    }
  }

  /** Text safe to put in one parameter: it cannot end the parameter early. */
  predicate NoAmp(s: string) {
    '&' !in s
  }

  /** A layer id safe in the `l=` list. */
  predicate SafeId(id: string) {
    '&' !in id && ',' !in id
  }

  lemma ParseThree(lp: string, tp: string, vp: string)
    requires NoAmp(lp) && NoAmp(tp) && NoAmp(vp)
    requires StartsWith(lp, "l=") && StartsWith(tp, "t=") && StartsWith(vp, "v=")
    ensures ParseParams(Join([lp, tp, vp], "&")) == Some(View(SplitOn(lp[2..], ","), tp[2..], vp[2..]))
  {
    SplitJoinChar([lp, tp, vp], '&');
  }

  lemma ParseTwo(tp: string, vp: string)
    requires NoAmp(tp) && NoAmp(vp)
    requires StartsWith(tp, "t=") && StartsWith(vp, "v=")
    ensures ParseParams(Join([tp, vp], "&")) == Some(View([], tp[2..], vp[2..]))
  {
    SplitJoinChar([tp, vp], '&');
    assert !StartsWith(tp, "l=") by {
      assert tp[0] == 't';
    }
  }

  /** A link made of the base address and parameters is read through its parameters. */
  lemma ParseAfterBase(rest: string)
    ensures ParseUrl(WvBase + "?" + rest) == ParseParams(rest)
  {
    var prefix := WvBase + "?";
    PrefixFacts(prefix, rest);
  }

  lemma PrefixFacts(prefix: string, rest: string)
    ensures StartsWith(prefix + rest, prefix) && (prefix + rest)[|prefix|..] == rest
  {
    assert (prefix + rest)[..|prefix|] == prefix;
  }

  /** The `l=` parameter reads back as the layer ids. */
  lemma LayersBack(layers: seq<string>)
    requires |layers| > 0
    requires forall k :: 0 <= k < |layers| ==> SafeId(layers[k])
    ensures NoAmp("l=" + Join(layers, ","))
    ensures SplitOn(("l=" + Join(layers, ","))[2..], ",") == layers
  {
    JoinAvoids(layers, ",", '&');
    assert ("l=" + Join(layers, ","))[2..] == Join(layers, ",");
    SplitJoinChar(layers, ',');
  }

  /**
   * A permalink reads back as its layers, its time and its extent (the
   * default extent when none is given), provided no id contains `,` or `&`
   * and neither the time nor the box contains `&`.
   */
  lemma ParseBuild(layers: seq<string>, t: string, bbox: Option<string>)
    requires forall k :: 0 <= k < |layers| ==> SafeId(layers[k])
    requires NoAmp(t) && NoAmp(BboxOrDefault(bbox))
    ensures ParseUrl(BuildUrl(layers, t, bbox)) == Some(View(layers, t, BboxOrDefault(bbox)))
  {
    ParseAfterBase(Join(Params(layers, t, bbox), "&"));
    var tp := "t=" + t;
    var vp := "v=" + BboxOrDefault(bbox);
    assert tp[..2] == "t=" && tp[2..] == t;
    assert vp[..2] == "v=" && vp[2..] == BboxOrDefault(bbox);
    if |layers| > 0 {
      var lp := "l=" + Join(layers, ",");
      LayersBack(layers);
      assert lp[..2] == "l=";
      assert Params(layers, t, bbox) == [lp, tp, vp];
      ParseThree(lp, tp, vp);
    } else {
      assert Params(layers, t, bbox) == [tp, vp];
      ParseTwo(tp, vp);
    }
  }
}
