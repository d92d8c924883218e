/**
 * `hybrid_recommend`: the collaborative, content and visual channels are
 * collapsed, normalised and fused with adaptive weights, filtered to the
 * catalog, ranked, cut to `top_k` or re-ranked with MMR, and padded.
 */
module Hybrid {
  import opened Wrappers
  import opened Scores
  import opened Records
  import Collaborative
  import Content
  import Fusion
  import Mmr

  /** The data frames one call reads. */
  datatype Data = Data(
    matrix: Collaborative.UserItemMatrix, collabSim: Frame,
    items: seq<ItemRecord>, contentSim: Frame,
    log: seq<Interaction>, users: seq<UserProfile>)

  /** The keyword arguments: omitted weights are `None`. */
  datatype Settings = Settings(
    alpha: Option<real>, beta: Option<real>, gamma: Option<real>,
    topK: nat, diversify: bool, lambda: real)

  /** `try: ... except e: pd.Series(dtype=float)`: the exception `e` becomes an empty channel, any other propagates. */
  function Absorb(r: Result<Series>, e: Exception): (c: Result<Series>)
    ensures c.Raise? <==> r.Raise? && r.error != e
    ensures c.Raise? ==> c == r
    ensures c.Ok? ==> c.value == (if r.Ok? then r.value else [])
  {
    match r
    case Ok(_) => r
    case Raise(x) => if x == e then Ok([]) else r
  }

  /** The collaborative channel, asked for `top_k * 5` items; a KeyError leaves it empty. */
  function CollabChannel(u: User, d: Data, s: Settings): Result<Series> {
    Absorb(Collaborative.RecommendItems(u, d.matrix, d.collabSim, Some(d.log), s.topK * 5), KeyError)
  }

  /** The content channel, asked for `top_k * 5` items; a ValueError leaves it empty. */
  function ContentChannel(u: User, d: Data, s: Settings, coldSample: seq<Item>): Result<Series> {
    Absorb(Content.ForUser(u, d.items, d.contentSim, d.log, d.users, s.topK * 5, coldSample), ValueError)
  }

  /** The visual channel: the dict of the image query's pairs, or empty without a query. */
  function VisualChannel(visual: Option<Series>): Series {
    match visual
    case None => []
    case Some(raw) => Fusion.VisualDict(raw)
  }

  /** `normalize_series(scores.groupby(scores.index).max())`. */
  function Prepared(s: Series): Series {
    Fusion.Normalize(Fusion.GroupMax(s))
  }

  /** The weights of the call: the supplied ones, or the adaptive alpha with its defaults. */
  function CallWeights(u: User, d: Data, s: Settings): Fusion.Weights {
    Fusion.DecideWeights(s.alpha, s.beta, s.gamma, Fusion.ComputeAlpha(u, d.matrix, Fusion.MinAlpha, Fusion.MaxAlpha))
  }

  /** The merged frame's `final` column restricted to the catalog, sorted descending. */
  function Ranked(c: Series, t: Series, v: Series, w: Fusion.Weights, items: seq<ItemRecord>): Series {
    SortDesc(FilterKeys(Fusion.Fuse(Prepared(c), Prepared(t), Prepared(v), w), CatalogIds(items), true))
  }

  /** The list before the fallback: MMR-diversified, or the first `top_k`. */
  function Head(ranked: Series, d: Data, s: Settings): Result<Series> {
    if s.diversify then Mmr.Diversify(ranked, d.contentSim, s.topK, s.lambda) else Ok(Take(ranked, s.topK))
  }

  /** Everything after the collaborative and content channels are in. */
  function Combine(u: User, d: Data, s: Settings, c: Series, t: Series, visual: Option<Series>,
                   popularity: Option<seq<Item>>): Result<Series>
  {
    var ranked := Ranked(c, t, VisualChannel(visual), CallWeights(u, d, s), d.items);
    match Head(ranked, d, s)
    case Raise(e) => Raise(e)
    case Ok(h) => Fusion.Pad(h, popularity, s.topK)
  }

  /**
   * `hybrid_recommend`. `visual` is the output of the visual recommender when
   * an image query is given, `coldSample` the catalog sample of the content
   * cold start, and `popularity` the log's `item_id` column, `None` when the
   * log has no such column.
   */
  function Recommend(u: User, d: Data, s: Settings, visual: Option<Series>, coldSample: seq<Item>,
                     popularity: Option<seq<Item>>): Result<Series>
  {
    match CollabChannel(u, d, s)
    case Raise(e) => Raise(e)
    case Ok(c) =>
      match ContentChannel(u, d, s, coldSample)
      case Raise(e) => Raise(e)
      case Ok(t) => Combine(u, d, s, c, t, visual, popularity)
  }

  /** The pipeline as the source runs it: step-by-step reassignment of the score series. */
  method HybridRecommend(u: User, d: Data, s: Settings, visual: Option<Series>, coldSample: seq<Item>,
                         popularity: Option<seq<Item>>) returns (r: Result<Series>)
    ensures r == Recommend(u, d, s, visual, coldSample, popularity)
  {
    var collabScores: Series;
    var collab := Collaborative.RecommendItems(u, d.matrix, d.collabSim, Some(d.log), s.topK * 5);
    if collab.Raise? {
      if collab.error != KeyError {
        return Raise(collab.error);
      }
      collabScores := [];
    } else {
      collabScores := collab.value;
    }

    var contentScores: Series;
    var content := Content.RecommendForUser(u, d.items, d.contentSim, d.log, d.users, s.topK * 5, coldSample);
    if content.Raise? {
      if content.error != ValueError {
        return Raise(content.error);
      }
      contentScores := [];
    } else {
      contentScores := content.value;
    }

    r := CombineScores(u, d, s, collabScores, contentScores, visual, popularity);
  }

  /** The steps after the channels: collapse, normalise, weigh, merge, filter, sort, cut or diversify, pad. */
  method CombineScores(u: User, d: Data, s: Settings, collabScores: Series, contentScores: Series,
                       visual: Option<Series>, popularity: Option<seq<Item>>) returns (r: Result<Series>)
    ensures r == Combine(u, d, s, collabScores, contentScores, visual, popularity)
  {
    var visualScores: Series := [];
    if visual.Some? {
      visualScores := Fusion.VisualDict(visual.value);
    }
    assert visualScores == VisualChannel(visual);

    var collab := Fusion.Normalize(Fusion.GroupMax(collabScores));
    var content := Fusion.Normalize(Fusion.GroupMax(contentScores));
    visualScores := Fusion.Normalize(Fusion.GroupMax(visualScores));

    var alpha := s.alpha;
    if alpha.None? {
      alpha := Some(Fusion.ComputeAlpha(u, d.matrix, Fusion.MinAlpha, Fusion.MaxAlpha));
    }
    var beta := s.beta;
    var gamma := s.gamma;
    if beta.None? || gamma.None? {
      var leftover := 1.0 - alpha.value;
      beta := Some(leftover * 0.67);
      gamma := Some(leftover * 0.33);
    }
    var w := Fusion.Weights(alpha.value, beta.value, gamma.value);
    assert w == CallWeights(u, d, s);

    var allScores := Fusion.Fuse(collab, content, visualScores, w);
    allScores := FilterKeys(allScores, CatalogIds(d.items), true);
    var finalScores := SortDesc(allScores);

    if s.diversify {
      var diversified := Mmr.DiversifyMmr(finalScores, d.contentSim, s.topK, s.lambda);
      if diversified.Raise? {
        return Raise(diversified.error);
      }
      finalScores := diversified.value;
    } else {
      finalScores := Take(finalScores, s.topK);
    }
    r := Fallback(finalScores, popularity, s.topK);
  }

  /** The fallback: pad a short list with 0.01-scored ids the log's `item_id` column offers, then `head(top_k)`. */
  method Fallback(finalScores: Series, popularity: Option<seq<Item>>, topK: nat) returns (r: Result<Series>)
    ensures r == Fusion.Pad(finalScores, popularity, topK)
  {
    var padded := finalScores;
    if |padded| < topK {
      if popularity.None? {
        return Raise(KeyError);
      }
      var missing := topK - |padded|;
      var popularItems := Fusion.PadIds(popularity.value, Keys(padded), missing);
      padded := padded + Constant(popularItems, Fusion.PadScore);
    }
    r := Ok(Take(padded, topK));
  }

  /** The collaborative channel never raises KeyError, so its `except` arm is never taken; a misaligned similarity frame propagates as ValueError. */
  lemma CollabChannelSpec(u: User, d: Data, s: Settings)
    ensures CollabChannel(u, d, s) == Collaborative.RecommendItems(u, d.matrix, d.collabSim, Some(d.log), s.topK * 5)
    ensures CollabChannel(u, d, s).Raise? <==>
      !Collaborative.IsColdStart(d.matrix, u) && !Collaborative.Aligned(d.matrix, d.collabSim)
    ensures CollabChannel(u, d, s).Raise? ==> CollabChannel(u, d, s).error == ValueError
  {
  }

  /**
   * The content channel: a user without interactions gets the drawn sample,
   * or nothing when `top_k * 5` exceeds the catalog (the ValueError of the
   * draw is absorbed); a user with interactions but no profile raises IndexError.
   */
  lemma ContentChannelSpec(u: User, d: Data, s: Settings, coldSample: seq<Item>)
    ensures (forall x :: x in d.log ==> x.user != u) ==>
      ContentChannel(u, d, s, coldSample) == Ok(if s.topK * 5 > |d.items| then [] else Constant(coldSample, 1.0))
    ensures (exists x :: x in d.log && x.user == u) && (forall p :: p in d.users ==> p.id != u) ==>
      ContentChannel(u, d, s, coldSample) == Raise(IndexError)
    ensures ContentChannel(u, d, s, coldSample).Raise? ==> ContentChannel(u, d, s, coldSample).error != ValueError
  {
    Content.ForUserErrors(u, d.items, d.contentSim, d.log, d.users, s.topK * 5, coldSample);
    UserColumnMembers(d.log, u);
  }

  /** An error neither `except` clause names ends the call with that error. */
  lemma RecommendPropagates(u: User, d: Data, s: Settings, visual: Option<Series>, coldSample: seq<Item>,
                            popularity: Option<seq<Item>>)
    ensures CollabChannel(u, d, s).Raise? ==> Recommend(u, d, s, visual, coldSample, popularity) == Raise(ValueError)
    ensures CollabChannel(u, d, s).Ok? && (exists x :: x in d.log && x.user == u) && (forall p :: p in d.users ==> p.id != u) ==>
      Recommend(u, d, s, visual, coldSample, popularity) == Raise(IndexError)
  {
    CollabChannelSpec(u, d, s);
    ContentChannelSpec(u, d, s, coldSample);
  }

  /** The weights of a call: adaptive alpha in [0.2, 0.6], and defaulted beta and gamma that complete it to 1 in the ratio 67:33. */
  lemma CallWeightsSpec(u: User, d: Data, s: Settings)
    ensures var w := CallWeights(u, d, s);
      && (s.alpha.Some? ==> w.alpha == s.alpha.value)
      && (s.alpha.None? ==> 0.2 <= w.alpha <= 0.6)
      && (s.alpha.None? && u !in d.matrix.users ==> w.alpha == 0.2)
      && (s.beta.None? || s.gamma.None? ==> w.alpha + w.beta + w.gamma == 1.0 && 33.0 * w.beta == 67.0 * w.gamma)
      && (s.beta.Some? && s.gamma.Some? ==> w.beta == s.beta.value && w.gamma == s.gamma.value)
  {
    var a := Fusion.ComputeAlpha(u, d.matrix, Fusion.MinAlpha, Fusion.MaxAlpha);
    Fusion.ComputeAlphaSpec(u, d.matrix, Fusion.MinAlpha, Fusion.MaxAlpha);
    Fusion.DecideWeightsSpec(s.alpha, s.beta, s.gamma, a);
  }

  /** A prepared channel has one entry per id of its input, each scored in [0, 1]. */
  lemma PreparedSpec(s: Series)
    ensures DistinctKeys(Prepared(s))
    ensures forall k :: k in Keys(Prepared(s)) <==> k in Keys(s)
    ensures forall e :: e in Prepared(s) ==> 0.0 <= e.1 <= 1.0
  {
    var g := Fusion.GroupMax(s);
    var p := Prepared(s);
    Fusion.GroupMaxSpec(s);
    Fusion.NormalizeKeys(g);
    Fusion.NormalizeUnit(g);
    forall i, j | 0 <= i < j < |p| ensures p[i].0 != p[j].0 {
      assert Keys(p)[i] == p[i].0 && Keys(g)[i] == g[i].0;
      assert Keys(p)[j] == p[j].0 && Keys(g)[j] == g[j].0;
    }
    forall e | e in p ensures 0.0 <= e.1 <= 1.0 {
      var i :| 0 <= i < |p| && p[i] == e;
    }
  }

  /**
   * The ranked series: sorted descending, one entry per id that some channel
   * scored and the catalog holds, each with the weighted sum of the prepared
   * channel scores, a missing score counting as 0.
   */
  lemma RankedSpec(c: Series, t: Series, v: Series, w: Fusion.Weights, items: seq<ItemRecord>)
    ensures SortedDesc(Ranked(c, t, v, w, items)) && DistinctKeys(Ranked(c, t, v, w, items))
    ensures forall e :: e in Ranked(c, t, v, w, items) ==>
      && e.0 in CatalogIds(items)
      && (e.0 in Keys(c) || e.0 in Keys(t) || e.0 in Keys(v))
      && e.1 == Fusion.Final(w, Get(Prepared(c), e.0), Get(Prepared(t), e.0), Get(Prepared(v), e.0))
    ensures forall k :: k in CatalogIds(items) && (k in Keys(c) || k in Keys(t) || k in Keys(v)) ==>
      k in Keys(Ranked(c, t, v, w, items))
  {
    var pc, pt, pv := Prepared(c), Prepared(t), Prepared(v);
    PreparedSpec(c);
    PreparedSpec(t);
    PreparedSpec(v);
    var fused := Fusion.Fuse(pc, pt, pv, w);
    FusedIds(pc, pt, pv, w);
    CatalogFilter(fused, CatalogIds(items));
    forall e | e in Ranked(c, t, v, w, items)
      ensures e.1 == Fusion.Final(w, Get(pc, e.0), Get(pt, e.0), Get(pv, e.0))
    {
      Fusion.FuseEntry(pc, pt, pv, w, e);
    }
  }

  /** The merged frame has one entry per id of any channel. */
  lemma FusedIds(pc: Series, pt: Series, pv: Series, w: Fusion.Weights)
    ensures DistinctKeys(Fusion.Fuse(pc, pt, pv, w))
    ensures forall k :: k in Keys(Fusion.Fuse(pc, pt, pv, w)) <==> k in Keys(pc) || k in Keys(pt) || k in Keys(pv)
  {
    var r := Fusion.Fuse(pc, pt, pv, w);
    forall i, j | 0 <= i < j < |r| ensures r[i].0 != r[j].0 {
      assert Keys(r)[i] == r[i].0 && Keys(r)[j] == r[j].0;
    }
    forall k ensures k in Keys(r) <==> k in Keys(pc) || k in Keys(pt) || k in Keys(pv) {
      assert k in Keys(pc) + Keys(pt) + Keys(pv) <==> k in Keys(pc) || k in Keys(pt) || k in Keys(pv);
    }
  }

  /** `all_scores[index.isin(valid)]` then `sort_values(ascending=False)` on a frame with distinct ids. */
  lemma CatalogFilter(fused: Series, ids: set<Item>)
    requires DistinctKeys(fused)
    ensures SortedDesc(SortDesc(FilterKeys(fused, ids, true))) && DistinctKeys(SortDesc(FilterKeys(fused, ids, true)))
    ensures forall e :: e in SortDesc(FilterKeys(fused, ids, true)) <==> e in fused && e.0 in ids
    ensures forall k :: k in Keys(fused) && k in ids ==> k in Keys(SortDesc(FilterKeys(fused, ids, true)))
  {
    var r := SortDesc(FilterKeys(fused, ids, true));
    forall k | k in Keys(fused) && k in ids ensures k in Keys(r) {
      var i :| 0 <= i < |fused| && Keys(fused)[i] == k;
      assert fused[i] in r;
      var j :| 0 <= j < |r| && r[j] == fused[i];
      assert Keys(r)[j] == k;
    }
  }

  /**
   * The list before the fallback: without diversification the first `top_k`
   * of the ranking; with it, MMR's pick of `min(top_k, len)` distinct ranked
   * entries, led by the top one, or KeyError for an id the content
   * similarity frame lacks.
   */
  lemma HeadSpec(ranked: Series, d: Data, s: Settings)
    requires DistinctKeys(ranked) && SortedDesc(ranked)
    ensures !s.diversify ==> Head(ranked, d, s) == Ok(Take(ranked, s.topK)) && SortedDesc(Take(ranked, s.topK))
    ensures Head(ranked, d, s).Ok? ==>
      var h := Head(ranked, d, s).value;
      && |h| == Mmr.MinNat(s.topK, |ranked|)
      && DistinctKeys(h)
      && (forall e :: e in h ==> e in ranked)
    ensures Head(ranked, d, s).Raise? <==>
      s.diversify && s.topK > 1 && |ranked| > 1 && exists k :: k in Keys(ranked) && k !in d.contentSim.labels
    ensures Head(ranked, d, s).Raise? ==> Head(ranked, d, s).error == KeyError
    ensures s.diversify && s.topK >= 1 && ranked != [] && s.lambda > 0.0 && Head(ranked, d, s).Ok? ==>
      Head(ranked, d, s).value[0] == ranked[0]
  {
    if s.diversify {
      Mmr.DiversifyShape(ranked, d.contentSim, s.topK, s.lambda);
      Mmr.DiversifyRaises(ranked, d.contentSim, s.topK, s.lambda);
      if s.topK >= 1 && ranked != [] && s.lambda > 0.0 {
        Mmr.DiversifyFirstPick(ranked, d.contentSim, s.topK, s.lambda);
      }
    } else {
      var h := Take(ranked, s.topK);
      assert forall i :: 0 <= i < |h| ==> h[i] == ranked[i];
    }
  }

  /**
   * Everything after the channels: the result has at most `top_k` entries
   * with distinct ids; it starts with the head list unchanged; every later
   * entry is a padded id from the log's `item_id` column, absent from the
   * head, scored 0.01. A short head with no such column raises KeyError.
   */
  lemma CombineSpec(u: User, d: Data, s: Settings, c: Series, t: Series, visual: Option<Series>,
                    popularity: Option<seq<Item>>)
    ensures var h := Head(Ranked(c, t, VisualChannel(visual), CallWeights(u, d, s), d.items), d, s);
      var r := Combine(u, d, s, c, t, visual, popularity);
      && (h.Raise? ==> r == Raise(h.error))
      && (h.Ok? && |h.value| < s.topK && popularity.None? ==> r == Raise(KeyError))
      && (h.Ok? && (|h.value| >= s.topK || popularity.Some?) ==> r.Ok?)
      && (r.Ok? ==>
            && |r.value| <= s.topK
            && DistinctKeys(r.value)
            && |h.value| <= |r.value|
            && r.value[..|h.value|] == h.value
            && forall i :: |h.value| <= i < |r.value| ==>
                 popularity.Some? && r.value[i].0 in popularity.value && r.value[i].0 !in Keys(h.value) &&
                 r.value[i].1 == Fusion.PadScore)
  {
    var ranked := Ranked(c, t, VisualChannel(visual), CallWeights(u, d, s), d.items);
    RankedSpec(c, t, VisualChannel(visual), CallWeights(u, d, s), d.items);
    HeadSpec(ranked, d, s);
    var h := Head(ranked, d, s);
    if h.Ok? {
      PadTail(h.value, popularity, s.topK);
    }
  }

  /** The fallback keeps a head of at most `topK` distinct entries as the prefix and pads only with the column's ids. */
  lemma PadTail(h: Series, popularity: Option<seq<Item>>, topK: nat)
    requires |h| <= topK && DistinctKeys(h)
    ensures var r := Fusion.Pad(h, popularity, topK);
      && (|h| < topK && popularity.None? ==> r == Raise(KeyError))
      && (|h| == topK || popularity.Some? ==> r.Ok?)
      && (r.Ok? ==>
            && |r.value| <= topK
            && DistinctKeys(r.value)
            && |h| <= |r.value|
            && r.value[..|h|] == h
            && forall i :: |h| <= i < |r.value| ==>
                 popularity.Some? && r.value[i].0 in popularity.value && r.value[i].0 !in Keys(h) &&
                 r.value[i].1 == Fusion.PadScore)
  {
    Fusion.PadSpec(h, popularity, topK);
    Fusion.PadDistinct(h, popularity, topK);
    if |h| < topK && popularity.Some? {
      var ids := Fusion.PadIds(popularity.value, Keys(h), topK - |h|);
      var out := h + Constant(ids, Fusion.PadScore);
      forall i | |h| <= i < |out|
        ensures out[i].0 in popularity.value && out[i].0 !in Keys(h) && out[i].1 == Fusion.PadScore
      {
        var tail := Constant(ids, Fusion.PadScore);
        assert out[i] == tail[i - |h|];
        assert Keys(tail)[i - |h|] == out[i].0;
      }
    } else if |h| >= topK {
      Fusion.TakeAll(h, topK);
    }
  }
}
