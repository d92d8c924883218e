/**
 * The score-fusion steps of the hybrid recommender: min-max normalisation,
 * the adaptive collaborative weight, the choice of channel weights, the
 * per-channel collapse of duplicate ids, the weighted merge, and the
 * padding of a short result.
 */
module Fusion {
  import opened Wrappers
  import opened Scores
  import opened Text
  import opened Records
  import opened Collaborative

  /** The smallest score of a non-empty series. */
  function MinScore(s: Series): (lo: real)
    requires s != []
    ensures exists e :: e in s && e.1 == lo
    ensures forall e :: e in s ==> lo <= e.1
  {
    if |s| == 1 then s[0].1
    else
      var m := MinScore(s[1..]);
      if s[0].1 <= m then s[0].1 else m
  }

  /** The largest score of a non-empty series. */
  function MaxScore(s: Series): (hi: real)
    requires s != []
    ensures exists e :: e in s && e.1 == hi
    ensures forall e :: e in s ==> e.1 <= hi
  {
    if |s| == 1 then s[0].1
    else
      var m := MaxScore(s[1..]);
      if s[0].1 >= m then s[0].1 else m
  }

  /** The divisor `MinMaxScaler` uses: max - min, or 1 when that is 0. */
  function Range(s: Series): (d: real)
    requires s != []
    ensures d > 0.0
  {
    if MaxScore(s) - MinScore(s) == 0.0 then 1.0 else MaxScore(s) - MinScore(s)
  }

  /**
   * `normalize_series`: an empty series is returned as is; otherwise every
   * score x becomes (x - min) / (max - min), where `MinMaxScaler` divides by 1
   * instead when max == min.
   */
  function Normalize(s: Series): (r: Series)
    ensures |r| == |s|
    ensures forall i {:trigger r[i]} :: 0 <= i < |s| ==> r[i] == (s[i].0, Scaled(s[i].1, MinScore(s), Range(s)))
  {
    if s == [] then s
    else seq(|s|, i requires 0 <= i < |s| => (s[i].0, Scaled(s[i].1, MinScore(s), Range(s))))
  }

  /** One min-max scaled score. */
  function Scaled(x: real, lo: real, d: real): real
    requires d > 0.0
  {
    (x - lo) / d
  }

  lemma ScaledUnit(x: real, lo: real, d: real)
    requires d > 0.0 && lo <= x <= lo + d
    ensures 0.0 <= Scaled(x, lo, d) <= 1.0
  {
    var q := (x - lo) / d;
    assert q * d == x - lo;
  }

  lemma ScaledMonotone(x: real, y: real, lo: real, d: real)
    requires d > 0.0
    ensures x <= y <==> Scaled(x, lo, d) <= Scaled(y, lo, d)
  {
    if x <= y {
      assert Scaled(y, lo, d) - Scaled(x, lo, d) == (y - x) / d;
    } else {
      assert Scaled(x, lo, d) - Scaled(y, lo, d) == (x - y) / d;
    }
  }

  lemma ScaledEnds(lo: real, d: real)
    requires d > 0.0
    ensures Scaled(lo, lo, d) == 0.0
    ensures Scaled(lo + d, lo, d) == 1.0
  {
  }

  lemma ScaledIdentity(x: real)
    ensures Scaled(x, 0.0, 1.0) == x
  {
  }

  /** Every normalised score lies in [0, 1]. */
  lemma NormalizeUnit(s: Series)
    ensures forall i :: 0 <= i < |s| ==> 0.0 <= Normalize(s)[i].1 <= 1.0
  {
    forall i | 0 <= i < |s| ensures 0.0 <= Normalize(s)[i].1 <= 1.0 {
      assert s[i] in s;
      var lo := MinScore(s);
      var hi := MaxScore(s);
      if hi - lo == 0.0 {
        assert s[i].1 == lo;
        ScaledEnds(lo, 1.0);
      } else {
        ScaledUnit(s[i].1, lo, hi - lo);
      }
    }
  }

  /** The order of the scores is kept, in both directions. */
  lemma NormalizeOrder(s: Series)
    ensures forall i, j :: 0 <= i < |s| && 0 <= j < |s| ==> (s[i].1 <= s[j].1 <==> Normalize(s)[i].1 <= Normalize(s)[j].1)
  {
    forall i, j | 0 <= i < |s| && 0 <= j < |s| ensures s[i].1 <= s[j].1 <==> Normalize(s)[i].1 <= Normalize(s)[j].1 {
      ScaledMonotone(s[i].1, s[j].1, MinScore(s), Range(s));
    }
  }

  lemma MinAt(s: Series, i: nat)
    requires i < |s| && forall e :: e in s ==> s[i].1 <= e.1
    ensures MinScore(s) == s[i].1
  {
    var k := MinIndex(s);
    assert s[i] in s && s[k] in s;
  }

  lemma MaxAt(s: Series, i: nat)
    requires i < |s| && forall e :: e in s ==> e.1 <= s[i].1
    ensures MaxScore(s) == s[i].1
  {
    var k := MaxIndex(s);
    assert s[i] in s && s[k] in s;
  }

  /** A smallest score becomes 0. */
  lemma NormalizeMin(s: Series, i: nat)
    requires i < |s| && forall e :: e in s ==> s[i].1 <= e.1
    ensures Normalize(s)[i].1 == 0.0
  {
    MinAt(s, i);
    ScaledEnds(MinScore(s), Range(s));
  }

  /** When the scores differ, a largest score becomes 1. */
  lemma NormalizeMax(s: Series, i: nat, e: Entry)
    requires i < |s| && forall q :: q in s ==> q.1 <= s[i].1
    requires e in s && e.1 != s[i].1
    ensures Normalize(s)[i].1 == 1.0
  {
    MaxAt(s, i);
    var lo := MinScore(s);
    assert lo <= e.1 < s[i].1;
    var d := s[i].1 - lo;
    assert Range(s) == d;
    ScaledEnds(lo, d);
    assert lo + d == s[i].1;
    assert Normalize(s)[i] == (s[i].0, Scaled(s[i].1, lo, d));
  }

  /** A series whose scores are all equal becomes all zeros. */
  lemma NormalizeConstant(s: Series)
    requires forall e, q :: e in s && q in s ==> e.1 == q.1
    ensures forall i :: 0 <= i < |s| ==> Normalize(s)[i].1 == 0.0
  {
    forall i | 0 <= i < |s| ensures Normalize(s)[i].1 == 0.0 {
      var k := MinIndex(s);
      assert s[i] in s && s[k] in s;
      ScaledEnds(MinScore(s), Range(s));
    }
  }

  /** Normalisation keeps the ids in place, and an empty series stays empty. */
  lemma NormalizeKeys(s: Series)
    ensures s == [] ==> Normalize(s) == []
    ensures Keys(Normalize(s)) == Keys(s)
  {
    assert forall i :: 0 <= i < |s| ==> Keys(Normalize(s))[i] == Keys(s)[i];
  }

  /** The position of a smallest score. */
  lemma {:induction false} MinIndex(s: Series) returns (i: nat)
    requires s != []
    ensures i < |s| && s[i].1 == MinScore(s)
    ensures forall e :: e in s ==> s[i].1 <= e.1
  {
    if |s| == 1 {
      i := 0;
    } else if s[0].1 <= MinScore(s[1..]) {
      i := 0;
    } else {
      var j := MinIndex(s[1..]);
      i := j + 1;
    }
  }

  /** The position of a largest score. */
  lemma {:induction false} MaxIndex(s: Series) returns (i: nat)
    requires s != []
    ensures i < |s| && s[i].1 == MaxScore(s)
    ensures forall e :: e in s ==> e.1 <= s[i].1
  {
    if |s| == 1 {
      i := 0;
    } else if s[0].1 >= MaxScore(s[1..]) {
      i := 0;
    } else {
      var j := MaxIndex(s[1..]);
      i := j + 1;
    }
  }

  /** A series whose scores all lie in [0, 1] and that holds a 0 has minimum 0. */
  lemma UnitMin(r: Series, i: nat)
    requires i < |r| && r[i].1 == 0.0
    requires forall k :: 0 <= k < |r| ==> 0.0 <= r[k].1 <= 1.0
    ensures MinScore(r) == 0.0
  {
    forall e | e in r ensures r[i].1 <= e.1 {
      var k :| 0 <= k < |r| && r[k] == e;
    }
    MinAt(r, i);
  }

  /** A series whose scores all lie in [0, 1] and that holds a 1 has maximum 1. */
  lemma UnitMax(r: Series, i: nat)
    requires i < |r| && r[i].1 == 1.0
    requires forall k :: 0 <= k < |r| ==> 0.0 <= r[k].1 <= 1.0
    ensures MaxScore(r) == 1.0
  {
    forall e | e in r ensures e.1 <= r[i].1 {
      var k :| 0 <= k < |r| && r[k] == e;
    }
    MaxAt(r, i);
  }

  /** A series of zeros has maximum 0. */
  lemma ZeroMax(r: Series)
    requires r != []
    requires forall k :: 0 <= k < |r| ==> r[k].1 == 0.0
    ensures MaxScore(r) == 0.0
  {
    forall e | e in r ensures e.1 <= r[0].1 {
      var k :| 0 <= k < |r| && r[k] == e;
    }
    MaxAt(r, 0);
  }

  /** A normalised series spans [0, 1] exactly, or is all zeros. */
  lemma NormalizedRange(s: Series)
    requires s != []
    ensures MinScore(Normalize(s)) == 0.0
    ensures MaxScore(Normalize(s)) == 0.0 || MaxScore(Normalize(s)) == 1.0
  {
    var r := Normalize(s);
    NormalizeUnit(s);
    var ia := MinIndex(s);
    NormalizeMin(s, ia);
    UnitMin(r, ia);
    var ib := MaxIndex(s);
    if s[ib].1 == s[ia].1 {
      forall e, q | e in s && q in s ensures e.1 == q.1 { }
      NormalizeConstant(s);
      ZeroMax(r);
    } else {
      assert s[ia] in s;
      NormalizeMax(s, ib, s[ia]);
      UnitMax(r, ib);
    }
  }

  /** Normalising an already normalised series changes nothing. */
  lemma NormalizeIdempotent(s: Series)
    ensures Normalize(Normalize(s)) == Normalize(s)
  {
    if s != [] {
      var r := Normalize(s);
      NormalizedRange(s);
      assert MinScore(r) == 0.0;
      assert Range(r) == 1.0;
      forall i | 0 <= i < |r| ensures Normalize(r)[i] == r[i] {
        ScaledIdentity(r[i].1);
      }
    }
  }

  /** Two distinct scores become 1 and 0. */
  lemma NormalizeTwo(a: Item, x: real, b: Item, y: real)
    requires x > y
    ensures Normalize([(a, x), (b, y)]) == [(a, 1.0), (b, 0.0)]
  {
    var s := [(a, x), (b, y)];
    assert s[1..] == [(b, y)];
    assert MinScore(s) == y && MaxScore(s) == x;
    assert Range(s) == x - y;
    ScaledEnds(y, x - y);
    assert x == y + (x - y);
    assert Normalize(s)[0] == (a, 1.0) && Normalize(s)[1] == (b, 0.0);
  }

  /** The collaborative weight for `interaction_count` positive entries: linear up to 50, then capped. */
  function AlphaFromCount(n: nat, minAlpha: real, maxAlpha: real): real {
    var ratio := n as real / 50.0;
    minAlpha + (maxAlpha - minAlpha) * (if ratio <= 1.0 then ratio else 1.0)
  }

  /** `compute_alpha`: `min_alpha` for a user the matrix lacks, otherwise graded by the count of positive entries in the row. */
  function ComputeAlpha(u: User, m: UserItemMatrix, minAlpha: real, maxAlpha: real): real {
    if u !in m.users then minAlpha else AlphaFromCount(PositiveCount(m, u, m.items), minAlpha, maxAlpha)
  }

  /** The default bounds of `compute_alpha`. */
  const MinAlpha: real := 0.2
  const MaxAlpha: real := 0.6

  /**
   * The adaptive weight is `min_alpha` for an unknown user, lies between the
   * two bounds, and is `max_alpha` once the row has 50 positive entries.
   */
  lemma ComputeAlphaSpec(u: User, m: UserItemMatrix, minAlpha: real, maxAlpha: real)
    requires minAlpha <= maxAlpha
    ensures u !in m.users ==> ComputeAlpha(u, m, minAlpha, maxAlpha) == minAlpha
    ensures minAlpha <= ComputeAlpha(u, m, minAlpha, maxAlpha) <= maxAlpha
    ensures u in m.users && PositiveCount(m, u, m.items) >= 50 ==> ComputeAlpha(u, m, minAlpha, maxAlpha) == maxAlpha
  {
    if u in m.users {
      AlphaFromCountBounds(PositiveCount(m, u, m.items), minAlpha, maxAlpha);
    }
  }

  lemma AlphaFromCountBounds(n: nat, minAlpha: real, maxAlpha: real)
    requires minAlpha <= maxAlpha
    ensures minAlpha <= AlphaFromCount(n, minAlpha, maxAlpha) <= maxAlpha
    ensures n >= 50 ==> AlphaFromCount(n, minAlpha, maxAlpha) == maxAlpha
  {
    var ratio := n as real / 50.0;
    var capped := if ratio <= 1.0 then ratio else 1.0;
    var d := maxAlpha - minAlpha;
    assert 0.0 <= capped <= 1.0;
    assert AlphaFromCount(n, minAlpha, maxAlpha) == minAlpha + d * capped;
    MulUnit(d, capped);
    assert 0.0 <= d * capped <= d;
  }

  lemma MulUnit(d: real, c: real)
    requires d >= 0.0 && 0.0 <= c <= 1.0
    ensures 0.0 <= d * c <= d
  {
    assert d - d * c == d * (1.0 - c);
  }

  /** More positive interactions never lower the weight. */
  lemma AlphaMonotone(n1: nat, n2: nat, minAlpha: real, maxAlpha: real)
    requires n1 <= n2 && minAlpha <= maxAlpha
    ensures AlphaFromCount(n1, minAlpha, maxAlpha) <= AlphaFromCount(n2, minAlpha, maxAlpha)
  {
    var r1 := n1 as real / 50.0;
    var r2 := n2 as real / 50.0;
    var c1 := if r1 <= 1.0 then r1 else 1.0;
    var c2 := if r2 <= 1.0 then r2 else 1.0;
    assert c1 <= c2;
    assert (maxAlpha - minAlpha) * c1 <= (maxAlpha - minAlpha) * c2;
  }

  datatype Weights = Weights(alpha: real, beta: real, gamma: real)

  /**
   * "Decide weights": an omitted `alpha` is the adaptive one; if `beta` or
   * `gamma` is omitted, both are replaced by 0.67 and 0.33 of what `alpha`
   * leaves.
   */
  function DecideWeights(alpha: Option<real>, beta: Option<real>, gamma: Option<real>, adaptive: real): Weights {
    var a := if alpha.Some? then alpha.value else adaptive;
    if beta.None? || gamma.None? then Weights(a, (1.0 - a) * 0.67, (1.0 - a) * 0.33)
    else Weights(a, beta.value, gamma.value)
  }

  /**
   * Defaulted weights sum to 1 and split what `alpha` leaves 67:33; supplied
   * `beta` and `gamma` are kept only when both are supplied.
   */
  lemma DecideWeightsSpec(alpha: Option<real>, beta: Option<real>, gamma: Option<real>, adaptive: real)
    ensures var w := DecideWeights(alpha, beta, gamma, adaptive);
      && w.alpha == (if alpha.Some? then alpha.value else adaptive)
      && (beta.None? || gamma.None? ==>
            w.alpha + w.beta + w.gamma == 1.0 && 33.0 * w.beta == 67.0 * w.gamma)
      && (beta.Some? && gamma.Some? ==> w.beta == beta.value && w.gamma == gamma.value)
  {
  }

  /** The scores `s` holds for id `k`, in order. */
  function ScoresOf(s: Series, k: Item): Series {
    FilterKeys(s, {k}, true)
  }

  lemma ScoresOfNonEmpty(s: Series, k: Item)
    requires k in Keys(s)
    ensures ScoresOf(s, k) != []
  {
    var i :| 0 <= i < |s| && Keys(s)[i] == k;
    assert s[i] in ScoresOf(s, k);
  }

  /** `series.groupby(series.index).max()`: each id once, with the largest of its scores. */
  function GroupMax(s: Series): (r: Series)
    ensures Keys(r) == Dedup(Keys(s))
  {
    var ks := Dedup(Keys(s));
    seq(|ks|, i requires 0 <= i < |ks| =>
      (ks[i], (ScoresOfNonEmpty(s, ks[i]); MaxScore(ScoresOf(s, ks[i])))))
  }

  /**
   * Every id of the channel appears once, carrying a score the channel gave
   * it and no smaller than any other score the channel gave it.
   */
  lemma GroupMaxSpec(s: Series)
    ensures DistinctKeys(GroupMax(s))
    ensures forall k :: k in Keys(GroupMax(s)) <==> k in Keys(s)
    ensures forall e :: e in GroupMax(s) ==> e in s && forall q :: q in s && q.0 == e.0 ==> q.1 <= e.1
  {
    var r := GroupMax(s);
    forall e | e in r ensures e in s && forall q :: q in s && q.0 == e.0 ==> q.1 <= e.1 {
      var i :| 0 <= i < |r| && r[i] == e;
      var ks := Dedup(Keys(s));
      assert Keys(r)[i] == ks[i];
      ScoresOfNonEmpty(s, ks[i]);
      var sc := ScoresOf(s, ks[i]);
      var j := MaxIndex(sc);
      assert sc[j] in sc;
      assert sc[j] == e;
    }
  }

  /** With distinct ids, the only score of `s[i].0` is `s[i]`'s own. */
  lemma ScoresOfDistinct(s: Series, i: nat)
    requires DistinctKeys(s) && i < |s|
    ensures MaxScore(ScoresOf(s, s[i].0)) == s[i].1
  {
    var sc := ScoresOf(s, s[i].0);
    assert s[i] in sc;
    var j := MaxIndex(sc);
    assert sc[j] in s;
    var n :| 0 <= n < |s| && s[n] == sc[j];
  }

  /** A channel whose ids are already distinct is left unchanged by the collapse. */
  lemma GroupMaxOfDistinct(s: Series)
    requires DistinctKeys(s)
    ensures GroupMax(s) == s
  {
    var r := GroupMax(s);
    DedupDistinct(Keys(s));
    forall i | 0 <= i < |s| ensures r[i] == s[i] {
      assert Keys(r)[i] == s[i].0 == Keys(s)[i];
      ScoresOfDistinct(s, i);
    }
  }

  /** The score of the last pair with id `k`. */
  function LastScore(raw: Series, k: Item): real
    requires k in Keys(raw)
  {
    if raw[|raw| - 1].0 == k then raw[|raw| - 1].1
    else
      assert Keys(raw) == Keys(raw[..|raw| - 1]) + [raw[|raw| - 1].0];
      LastScore(raw[..|raw| - 1], k)
  }

  /**
   * `pd.Series({img: score for img, score in visual_raw})`: each image once,
   * in order of first appearance, carrying the score of its LAST pair.
   */
  function VisualDict(raw: Series): (r: Series)
    ensures Keys(r) == Dedup(Keys(raw))
  {
    var ks := Dedup(Keys(raw));
    seq(|ks|, i requires 0 <= i < |ks| => (ks[i], LastScore(raw, ks[i])))
  }

  /** The visual series has distinct ids, so the later `groupby().max()` leaves it as it is. */
  lemma VisualCollapseIsNoOp(raw: Series)
    ensures DistinctKeys(VisualDict(raw))
    ensures GroupMax(VisualDict(raw)) == VisualDict(raw)
  {
    GroupMaxOfDistinct(VisualDict(raw));
  }

  /** Pair `n` of `raw` is the last one with its id. */
  predicate LastPairAt(raw: Series, n: int) {
    0 <= n < |raw| && forall m :: n < m < |raw| ==> raw[m].0 != raw[n].0
  }

  /** `LastScore` reads the last pair with the id. */
  lemma {:induction false} LastScoreIsLast(raw: Series, k: Item)
    requires k in Keys(raw)
    ensures exists n :: LastPairAt(raw, n) && raw[n] == (k, LastScore(raw, k))
  {
    var last := |raw| - 1;
    if raw[last].0 == k {
      assert LastPairAt(raw, last) && raw[last] == (k, LastScore(raw, k));
    } else {
      var init := raw[..last];
      assert Keys(raw) == Keys(init) + [raw[last].0];
      LastScoreIsLast(init, k);
      var n :| LastPairAt(init, n) && init[n] == (k, LastScore(init, k));
      assert k in Keys(init);
      LastPairExtends(raw, k, n);
    }
  }

  lemma LastPairExtends(raw: Series, k: Item, n: int)
    requires raw != [] && raw[|raw| - 1].0 != k && k in Keys(raw) && k in Keys(raw[..|raw| - 1])
    requires LastPairAt(raw[..|raw| - 1], n) && raw[..|raw| - 1][n] == (k, LastScore(raw[..|raw| - 1], k))
    ensures LastPairAt(raw, n) && raw[n] == (k, LastScore(raw, k))
  {
    var init := raw[..|raw| - 1];
    assert raw[n] == init[n];
    assert forall m :: n < m < |init| ==> raw[m] == init[m];
  }

  /** `e` is the last pair `raw` logs for its id. */
  predicate IsLastPair(raw: Series, e: (Item, real)) {
    exists n :: 0 <= n < |raw| && LastPairAt(raw, n) && raw[n] == e
  }

  /** Every entry of the visual dict is the last pair logged for its image, which is how a dict keeps duplicates. */
  lemma VisualDictLast(raw: Series)
    ensures forall i :: 0 <= i < |VisualDict(raw)| ==> IsLastPair(raw, VisualDict(raw)[i])
  {
    var d := VisualDict(raw);
    var ks := Dedup(Keys(raw));
    forall i | 0 <= i < |d| ensures IsLastPair(raw, d[i]) {
      var k := ks[i];
      assert k in ks;
      assert d[i] == (k, LastScore(raw, k));
      LastScoreIsLast(raw, k);
    }
  }

  /** For an image listed twice, the dict keeps the second score where a maximum would keep the first. */
  lemma VisualKeepsLast()
    ensures VisualDict([("a.jpg", 0.9), ("a.jpg", 0.1)]) == [("a.jpg", 0.1)]
    ensures GroupMax([("a.jpg", 0.9), ("a.jpg", 0.1)]) == [("a.jpg", 0.9)]
  {
    ExampleTwiceDict();
    ExampleTwiceMax();
  }

  lemma ExampleTwiceDict()
    ensures VisualDict([("a.jpg", 0.9), ("a.jpg", 0.1)]) == [("a.jpg", 0.1)]
  {
    var raw: Series := [("a.jpg", 0.9), ("a.jpg", 0.1)];
    ExampleTwiceKeys();
    assert LastScore(raw, "a.jpg") == 0.1;
  }

  lemma ExampleTwiceMax()
    ensures GroupMax([("a.jpg", 0.9), ("a.jpg", 0.1)]) == [("a.jpg", 0.9)]
  {
    var raw: Series := [("a.jpg", 0.9), ("a.jpg", 0.1)];
    ExampleTwiceKeys();
    var sc := ScoresOf(raw, "a.jpg");
    ExampleTwiceScores();
    assert MaxScore(sc) == 0.9 by { assert sc[1..] == [("a.jpg", 0.1)]; }
  }

  lemma ExampleTwiceKeys()
    ensures Dedup(Keys([("a.jpg", 0.9), ("a.jpg", 0.1)])) == ["a.jpg"]
  {
    var raw: Series := [("a.jpg", 0.9), ("a.jpg", 0.1)];
    assert Keys(raw) == ["a.jpg", "a.jpg"];
    var ks: seq<Item> := ["a.jpg", "a.jpg"];
    assert ks[..1] == ["a.jpg"];
    assert Dedup(["a.jpg"]) == ["a.jpg"] by { assert ["a.jpg"][..0] == []; }
  }

  lemma ExampleTwiceScores()
    ensures ScoresOf([("a.jpg", 0.9), ("a.jpg", 0.1)], "a.jpg") == [("a.jpg", 0.9), ("a.jpg", 0.1)]
  {
    var raw: Series := [("a.jpg", 0.9), ("a.jpg", 0.1)];
    assert raw[1..] == [("a.jpg", 0.1)] && raw[1..][1..] == [];
  }

  lemma ScoresOfHead(s: Series, k: Item)
    requires s != [] && s[0].0 == k
    ensures ScoresOf(s, k) != [] && ScoresOf(s, k)[0] == s[0]
  {
  }

  /** The ids of the merged frame: every id of the three channels, once each. */
  function UnionIds(c: Series, t: Series, v: Series): seq<Item> {
    Dedup(Keys(c) + Keys(t) + Keys(v))
  }

  /** The `final` column: `alpha * collab + beta * content + gamma * visual`. */
  function Final(w: Weights, collab: real, content: real, visual: real): real {
    w.alpha * collab + w.beta * content + w.gamma * visual
  }

  /**
   * `pd.concat([...], axis=1).fillna(0)` followed by the weighted sum: one
   * entry per id of any channel, a channel that lacks the id contributing 0.
   */
  function Fuse(c: Series, t: Series, v: Series, w: Weights): (r: Series)
    ensures Keys(r) == UnionIds(c, t, v)
  {
    var ids := UnionIds(c, t, v);
    seq(|ids|, i requires 0 <= i < |ids| =>
      (ids[i], Final(w, Get(c, ids[i]), Get(t, ids[i]), Get(v, ids[i]))))
  }

  /**
   * The merged series has each id of the union once, scored by the weighted
   * sum of the channel scores for that id, a missing channel score counting as 0.
   */
  lemma FuseSpec(c: Series, t: Series, v: Series, w: Weights)
    requires DistinctKeys(c) && DistinctKeys(t) && DistinctKeys(v)
    ensures DistinctKeys(Fuse(c, t, v, w))
    ensures forall k :: k in Keys(Fuse(c, t, v, w)) <==> k in Keys(c) || k in Keys(t) || k in Keys(v)
    ensures forall e :: e in Fuse(c, t, v, w) ==>
      e.1 == Final(w, ChannelScore(c, e.0), ChannelScore(t, e.0), ChannelScore(v, e.0))
  {
    var r := Fuse(c, t, v, w);
    forall e | e in r
      ensures e.1 == Final(w, ChannelScore(c, e.0), ChannelScore(t, e.0), ChannelScore(v, e.0))
    {
      var i :| 0 <= i < |r| && r[i] == e;
      assert Keys(r)[i] == e.0;
      ChannelScoreIsGet(c, e.0);
      ChannelScoreIsGet(t, e.0);
      ChannelScoreIsGet(v, e.0);
    }
  }

  /** An entry of the merged series carries the weighted sum of the channel scores of its id. */
  lemma FuseEntry(c: Series, t: Series, v: Series, w: Weights, e: Entry)
    requires e in Fuse(c, t, v, w)
    ensures e.1 == Final(w, Get(c, e.0), Get(t, e.0), Get(v, e.0))
  {
    var r := Fuse(c, t, v, w);
    var i :| 0 <= i < |r| && r[i] == e;
    assert Keys(r)[i] == e.0;
  }

  /** The score a channel with distinct ids gives `k`, or 0 when it has none. */
  ghost function ChannelScore(s: Series, k: Item): real {
    if exists e :: e in s && e.0 == k then (var e :| e in s && e.0 == k; e.1) else 0.0
  }

  lemma ChannelScoreIsGet(s: Series, k: Item)
    requires DistinctKeys(s)
    ensures Get(s, k) == ChannelScore(s, k)
  {
    if exists e :: e in s && e.0 == k {
      var e :| e in s && e.0 == k;
      var i :| 0 <= i < |s| && s[i] == e;
      var q :| q in s && q.0 == k && ChannelScore(s, k) == q.1;
      var j :| 0 <= j < |s| && s[j] == q;
    }
  }

  /** The worked example: two overlapping channels, no visual query, weights 0.5 / 0.335 / 0.165, ranked A, B, C. */
  lemma FusionScenario()
    ensures Normalize([("A", 0.9), ("B", 0.3)]) == [("A", 1.0), ("B", 0.0)]
    ensures Normalize([("B", 0.8), ("C", 0.5)]) == [("B", 1.0), ("C", 0.0)]
    ensures Fuse([("A", 1.0), ("B", 0.0)], [("B", 1.0), ("C", 0.0)], [], Weights(0.5, 0.335, 0.165))
      == [("A", 0.5), ("B", 0.335), ("C", 0.0)]
    ensures SortDesc([("A", 0.5), ("B", 0.335), ("C", 0.0)]) == [("A", 0.5), ("B", 0.335), ("C", 0.0)]
  {
    NormalizeScenario();
    FuseScenario();
    SortScenario();
  }

  lemma NormalizeScenario()
    ensures Normalize([("A", 0.9), ("B", 0.3)]) == [("A", 1.0), ("B", 0.0)]
    ensures Normalize([("B", 0.8), ("C", 0.5)]) == [("B", 1.0), ("C", 0.0)]
  {
    NormalizeTwo("A", 0.9, "B", 0.3);
    NormalizeTwo("B", 0.8, "C", 0.5);
  }

  lemma SortScenario()
    ensures SortDesc([("A", 0.5), ("B", 0.335), ("C", 0.0)]) == [("A", 0.5), ("B", 0.335), ("C", 0.0)]
  {
    var s: Series := [("A", 0.5), ("B", 0.335), ("C", 0.0)];
    assert s[0].1 > s[1].1 > s[2].1;
    SortDescOfStrict(s);
  }

  lemma FuseScenario()
    ensures Fuse([("A", 1.0), ("B", 0.0)], [("B", 1.0), ("C", 0.0)], [], Weights(0.5, 0.335, 0.165))
      == [("A", 0.5), ("B", 0.335), ("C", 0.0)]
  {
    var c: Series := [("A", 1.0), ("B", 0.0)];
    var t: Series := [("B", 1.0), ("C", 0.0)];
    var v: Series := [];
    ExampleUnion();
    ExampleGets();
    var r := Fuse(c, t, v, Weights(0.5, 0.335, 0.165));
    assert |r| == 3;
  }

  lemma ExampleUnion()
    ensures UnionIds([("A", 1.0), ("B", 0.0)], [("B", 1.0), ("C", 0.0)], []) == ["A", "B", "C"]
  {
    var c: Series := [("A", 1.0), ("B", 0.0)];
    var t: Series := [("B", 1.0), ("C", 0.0)];
    var v: Series := [];
    assert Keys(c) == ["A", "B"] && Keys(t) == ["B", "C"] && Keys(v) == [];
    var all: seq<Item> := ["A", "B", "B", "C"];
    assert Keys(c) + Keys(t) + Keys(v) == all;
    ExampleUnionDedup();
  }

  lemma ExampleUnionDedup()
    ensures Dedup(["A", "B", "B", "C"]) == ["A", "B", "C"]
  {
    var all: seq<Item> := ["A", "B", "B", "C"];
    assert Dedup(all[..1]) == ["A"] by { assert all[..1][..0] == []; }
    assert Dedup(all[..2]) == ["A", "B"] by { assert all[..2][..1] == all[..1]; }
    assert Dedup(all[..3]) == ["A", "B"] by { assert all[..3][..2] == all[..2]; }
  }

  lemma ExampleGets()
    ensures Get([("A", 1.0), ("B", 0.0)], "A") == 1.0 && Get([("A", 1.0), ("B", 0.0)], "B") == 0.0
    ensures Get([("A", 1.0), ("B", 0.0)], "C") == 0.0
    ensures Get([("B", 1.0), ("C", 0.0)], "A") == 0.0 && Get([("B", 1.0), ("C", 0.0)], "B") == 1.0
    ensures Get([("B", 1.0), ("C", 0.0)], "C") == 0.0
    ensures forall k :: Get([], k) == 0.0
  {
    var c: Series := [("A", 1.0), ("B", 0.0)];
    var t: Series := [("B", 1.0), ("C", 0.0)];
    assert Keys(c) == ["A", "B"] && Keys(t) == ["B", "C"];
    assert c[0].0 == "A" && c[1].0 == "B" && t[0].0 == "B" && t[1].0 == "C";
  }

  /** `xs` without the elements of `present`, in order. */
  function Exclude(xs: seq<Item>, present: seq<Item>): (r: seq<Item>)
    ensures forall x :: x in r <==> x in xs && x !in present
  {
    if xs == [] then []
    else (if xs[0] in present then [] else [xs[0]]) + Exclude(xs[1..], present)
  }

  /**
   * `value_counts().index.difference(present)[:missing]`. pandas sorts the
   * difference unless `present` is empty, when it returns the distinct ids
   * as they are, in frequency order; so the fallback pads an empty result
   * with the most frequent ids, and a non-empty one with the smallest ids
   * it lacks.
   */
  function PadIds(column: seq<Item>, present: seq<Item>, missing: nat): seq<Item> {
    if present == [] then Keys(Popular(column, missing))
    else Take(SortIds(Dedup(Exclude(column, present))), missing)
  }

  /** The placeholder score of a padded id. */
  const PadScore: real := 0.01

  /**
   * The fallback: a result shorter than `topK` is extended with padded ids
   * scored 0.01, read from the log's `item_id` column, which is `None` when
   * the log has no such column (pandas then raises KeyError).
   */
  function Pad(ranked: Series, column: Option<seq<Item>>, topK: nat): Result<Series> {
    if |ranked| < topK then
      match column
      case None => Raise(KeyError)
      case Some(col) => Ok(Take(ranked + Constant(PadIds(col, Keys(ranked), topK - |ranked|), PadScore), topK))
    else Ok(Take(ranked, topK))
  }

  /** The ids the fallback would add come from the column, are not present, and are at most `missing`. */
  lemma PadIdsMembers(column: seq<Item>, present: seq<Item>, missing: nat)
    ensures |PadIds(column, present, missing)| <= missing
    ensures forall x :: x in PadIds(column, present, missing) ==> x in column && x !in present
  {
    if present == [] {
      PopularIdsMembers(column, missing);
    } else {
      SortedIdsMembers(column, present, missing);
    }
  }

  lemma PopularIdsMembers(column: seq<Item>, missing: nat)
    ensures |Keys(Popular(column, missing))| <= missing
    ensures forall x :: x in Keys(Popular(column, missing)) ==> x in column
  {
    var out := Popular(column, missing);
    PopularTop(column, missing);
    forall x | x in Keys(out) ensures x in column {
      var k :| 0 <= k < |Keys(out)| && Keys(out)[k] == x;
      assert out[k].0 == x;
    }
  }

  lemma SortedIdsMembers(column: seq<Item>, present: seq<Item>, missing: nat)
    ensures |Take(SortIds(Dedup(Exclude(column, present))), missing)| <= missing
    ensures forall x :: x in Take(SortIds(Dedup(Exclude(column, present))), missing) ==> x in column && x !in present
  {
    var cand := Dedup(Exclude(column, present));
    SameMembers(SortIds(cand), cand);
  }

  /** The padded ids are distinct. */
  lemma PadIdsDistinct(column: seq<Item>, present: seq<Item>, missing: nat)
    ensures var ids := PadIds(column, present, missing);
      forall i, j :: 0 <= i < j < |ids| ==> ids[i] != ids[j]
  {
    if present == [] {
      var out := Popular(column, missing);
      PopularTop(column, missing);
      var ids := Keys(out);
      assert forall i :: 0 <= i < |ids| ==> ids[i] == out[i].0;
    } else {
      PadIdsAscending(column, present, missing);
    }
  }

  /**
   * With nothing present the padded ids are the most frequent ones, in
   * non-increasing frequency: an id of the column left out is left out only
   * because the list is full, and it is logged no more often than any padded
   * id. The order among equally frequent ids is not fixed.
   */
  lemma PadIdsMostFrequent(column: seq<Item>, missing: nat)
    ensures var ids := PadIds(column, [], missing);
      && (forall i, j :: 0 <= i < j < |ids| ==> Count(column, ids[i]) >= Count(column, ids[j]))
      && (forall x :: x in column && x !in ids ==>
            |ids| == missing && forall y :: y in ids ==> Count(column, y) >= Count(column, x))
  {
    var out := Popular(column, missing);
    PopularTop(column, missing);
    var ids := Keys(out);
    assert forall i :: 0 <= i < |ids| ==> ids[i] == out[i].0;
    forall x | x in column && x !in ids
      ensures |ids| == missing && forall y :: y in ids ==> Count(column, y) >= Count(column, x)
    {
      forall y | y in ids ensures Count(column, y) >= Count(column, x) {
        var k :| 0 <= k < |ids| && ids[k] == y;
      }
    }
  }

  /** With some ids present the padded ids are ascending. */
  lemma PadIdsAscending(column: seq<Item>, present: seq<Item>, missing: nat)
    requires present != []
    ensures var ids := PadIds(column, present, missing);
      forall i, j :: 0 <= i < j < |ids| ==> ids[i] != ids[j] && LexLeq(ids[i], ids[j])
  {
    var cand := Dedup(Exclude(column, present));
    var sorted := SortIds(cand);
    DistinctPermutation(cand, sorted);
    var ids := Take(sorted, missing);
    forall i, j | 0 <= i < j < |ids| ensures ids[i] != ids[j] && LexLeq(ids[i], ids[j]) {
      AscendingFrom(sorted, i, j);
    }
  }

  /**
   * With some ids present, an id of the column that is neither present nor
   * padded is left out only because the list is full, and it is no smaller
   * than any padded id.
   */
  lemma PadIdsSmallest(column: seq<Item>, present: seq<Item>, missing: nat)
    requires present != []
    ensures var ids := PadIds(column, present, missing);
      forall x :: x in column && x !in present && x !in ids ==>
        |ids| == missing && forall y :: y in ids ==> LexLeq(y, x)
  {
    var cand := Dedup(Exclude(column, present));
    var sorted := SortIds(cand);
    SameMembers(sorted, cand);
    var ids := Take(sorted, missing);
    forall x | x in column && x !in present && x !in ids
      ensures |ids| == missing && forall y :: y in ids ==> LexLeq(y, x)
    {
      assert x in sorted;
      var n :| 0 <= n < |sorted| && sorted[n] == x;
      assert n >= |ids|;
      forall y | y in ids ensures LexLeq(y, x) {
        var m :| 0 <= m < |ids| && ids[m] == y;
        AscendingFrom(sorted, m, n);
      }
    }
  }

  /** A short result followed by its padding. */
  lemma PadShape(ranked: Series, col: seq<Item>, topK: nat)
    requires |ranked| < topK
    ensures var ids := PadIds(col, Keys(ranked), topK - |ranked|);
      && Pad(ranked, Some(col), topK) == Ok(ranked + Constant(ids, PadScore))
      && Keys(ranked + Constant(ids, PadScore)) == Keys(ranked) + ids
  {
    var ids := PadIds(col, Keys(ranked), topK - |ranked|);
    PadIdsMembers(col, Keys(ranked), topK - |ranked|);
    var pads := Constant(ids, PadScore);
    assert |pads| == |ids|;
    TakeAll(ranked + pads, topK);
    KeysConcat(ranked, pads);
  }

  lemma TakeAll<T>(s: seq<T>, n: nat)
    requires |s| <= n
    ensures Take(s, n) == s
  {
  }

  /**
   * A long enough result is cut to `topK`, and a short one needs the
   * column. A short one keeps its entries in front and gains distinct ids
   * it lacked, from the column, each scored 0.01; it is short of `topK`
   * only when every such id is in. An empty result gains the most frequent
   * ids, most frequent first; a non-empty one gains the smallest ids it
   * lacks, in ascending order.
   */
  lemma PadSpec(ranked: Series, column: Option<seq<Item>>, topK: nat)
    ensures |ranked| >= topK ==> Pad(ranked, column, topK) == Ok(Take(ranked, topK))
    ensures |ranked| < topK && column.None? ==> Pad(ranked, column, topK) == Raise(KeyError)
    ensures |ranked| < topK && column.Some? ==>
      var ids := PadIds(column.value, Keys(ranked), topK - |ranked|);
      && Pad(ranked, column, topK) == Ok(ranked + Constant(ids, PadScore))
      && |ranked + Constant(ids, PadScore)| <= topK
      && (forall x :: x in ids ==> x in column.value && x !in Keys(ranked))
      && (forall i, j :: 0 <= i < j < |ids| ==> ids[i] != ids[j])
    ensures ranked == [] && 0 < topK && column.Some? ==>
      var ids := PadIds(column.value, [], topK);
      && (forall i, j :: 0 <= i < j < |ids| ==> Count(column.value, ids[i]) >= Count(column.value, ids[j]))
      && (forall x :: x in column.value && x !in ids ==>
            |ids| == topK && forall y :: y in ids ==> Count(column.value, y) >= Count(column.value, x))
    ensures ranked != [] && |ranked| < topK && column.Some? ==>
      var ids := PadIds(column.value, Keys(ranked), topK - |ranked|);
      && (forall i, j :: 0 <= i < j < |ids| ==> LexLeq(ids[i], ids[j]))
      && (forall x :: x in column.value && x !in Keys(ranked) && x !in ids ==>
            |ranked + Constant(ids, PadScore)| == topK && forall y :: y in ids ==> LexLeq(y, x))
  {
    if |ranked| < topK && column.Some? {
      var col := column.value;
      var missing := topK - |ranked|;
      var ids := PadIds(col, Keys(ranked), missing);
      PadShape(ranked, col, topK);
      PadIdsMembers(col, Keys(ranked), missing);
      PadIdsDistinct(col, Keys(ranked), missing);
      assert |ranked + Constant(ids, PadScore)| == |ranked| + |ids|;
      if ranked == [] {
        assert Keys(ranked) == [];
        PadIdsMostFrequent(col, topK);
      } else {
        assert Keys(ranked) != [] by { assert |Keys(ranked)| == |ranked|; }
        PadIdsAscending(col, Keys(ranked), missing);
        PadIdsSmallest(col, Keys(ranked), missing);
      }
    }
  }

  /** Padding a result with distinct ids keeps the ids distinct. */
  lemma PadDistinct(ranked: Series, column: Option<seq<Item>>, topK: nat)
    requires DistinctKeys(ranked)
    ensures Pad(ranked, column, topK).Ok? ==> DistinctKeys(Pad(ranked, column, topK).value)
  {
    PadSpec(ranked, column, topK);
    if |ranked| < topK && column.Some? {
      AppendDistinct(ranked, PadIds(column.value, Keys(ranked), topK - |ranked|));
    } else if |ranked| >= topK {
      var out := Take(ranked, topK);
      assert forall i, j :: 0 <= i < j < |out| ==> out[i] == ranked[i] && out[j] == ranked[j];
    }
  }

  lemma AppendDistinct(ranked: Series, ids: seq<Item>)
    requires DistinctKeys(ranked)
    requires forall i, j :: 0 <= i < j < |ids| ==> ids[i] != ids[j]
    requires forall x :: x in ids ==> x !in Keys(ranked)
    ensures DistinctKeys(ranked + Constant(ids, PadScore))
  {
    var out := ranked + Constant(ids, PadScore);
    KeysConcat(ranked, Constant(ids, PadScore));
    forall i, j | 0 <= i < j < |out| ensures out[i].0 != out[j].0 {
      assert Keys(out)[i] == out[i].0 && Keys(out)[j] == out[j].0;
      if j >= |ranked| && i < |ranked| {
        assert Keys(out)[j] in ids;
      }
    }
  }

  /** A permutation of a sequence without repetitions has none either. */
  lemma DistinctPermutation(a: seq<Item>, b: seq<Item>)
    requires multiset(a) == multiset(b)
    requires forall i, j :: 0 <= i < j < |a| ==> a[i] != a[j]
    ensures forall i, j :: 0 <= i < j < |b| ==> b[i] != b[j]
  {
    forall i, j | 0 <= i < j < |b| ensures b[i] != b[j] {
      CountAtMostOne(a, b[i]);
      TwoOccurrences(b, i, j);
    }
  }

  lemma TwoOccurrences(b: seq<Item>, i: nat, j: nat)
    requires i < j < |b|
    ensures b[i] == b[j] ==> multiset(b)[b[i]] >= 2
  {
    assert b == b[..i] + [b[i]] + b[i + 1..j] + [b[j]] + b[j + 1..];
  }

  lemma {:induction false} CountAtMostOne(a: seq<Item>, x: Item)
    requires forall i, j :: 0 <= i < j < |a| ==> a[i] != a[j]
    ensures multiset(a)[x] <= 1
  {
    if a != [] {
      CountAtMostOne(a[1..], x);
      assert a == [a[0]] + a[1..];
      if a[0] == x {
        assert x !in a[1..];
      }
    }
  }

  /** With nothing ranked the fallback takes the most frequent id: `b.jpg` is logged twice, `a.jpg` once. */
  lemma PadPrefersFrequentId(col: seq<Item>, none: Series)
    requires col == ["b.jpg", "b.jpg", "a.jpg"] && none == []
    ensures Pad(none, Some(col), 1) == Ok([("b.jpg", PadScore)])
  {
    PadSpec(none, Some(col), 1);
    var ids := PadIds(col, Keys(none), 1 - |none|);
    assert Keys(none) == [] && 1 - |none| == 1;
    assert ids == PadIds(col, [], 1);
    MostFrequentOfExample(col, ids);
    OnePad(none, ids);
    assert none + [(ids[0], PadScore)] == [("b.jpg", PadScore)];
  }

  lemma MostFrequentOfExample(col: seq<Item>, ids: seq<Item>)
    requires col == ["b.jpg", "b.jpg", "a.jpg"]
    requires |ids| <= 1 && forall x :: x in ids ==> x in col
    requires forall x :: x in col && x !in ids ==>
      |ids| == 1 && forall y :: y in ids ==> Count(col, y) >= Count(col, x)
    ensures ids == ["b.jpg"]
  {
    assert multiset(col) == multiset{"b.jpg", "b.jpg", "a.jpg"};
    assert Count(col, "b.jpg") == 2 && Count(col, "a.jpg") == 1;
    assert "b.jpg" in col;
    assert |ids| == 1;
    var y := ids[0];
    assert ids == [y] && y in col;
    assert y == "b.jpg" || y == "a.jpg";
    assert y == "a.jpg" ==> "b.jpg" !in ids;
    assert Count(col, y) >= Count(col, "b.jpg") || "b.jpg" in ids;
  }

  /** With something ranked the fallback takes the alphabetically first id it lacks, not the most frequent. */
  lemma PadPrefersSmallestId(col: seq<Item>, one: Series)
    requires col == ["b.jpg", "b.jpg", "a.jpg"] && one == [("c.jpg", 0.5)]
    ensures Pad(one, Some(col), 2) == Ok([("c.jpg", 0.5), ("a.jpg", PadScore)])
  {
    PadSpec(one, Some(col), 2);
    var ids := PadIds(col, Keys(one), 2 - |one|);
    assert Keys(one) == ["c.jpg"] && "c.jpg" in Keys(one);
    SmallestOfExample(col, ids);
    OnePad(one, ids);
    assert one + [(ids[0], PadScore)] == [("c.jpg", 0.5), ("a.jpg", PadScore)];
  }

  lemma SmallestOfExample(col: seq<Item>, ids: seq<Item>)
    requires col == ["b.jpg", "b.jpg", "a.jpg"]
    requires |ids| <= 1 && forall x :: x in ids ==> x in col
    requires forall x :: x in col && x != "c.jpg" && x !in ids ==>
      |ids| == 1 && forall y :: y in ids ==> LexLeq(y, x)
    ensures ids == ["a.jpg"]
  {
    assert "a.jpg" in col && "a.jpg" != "c.jpg";
    assert |ids| == 1;
    assert !LexLeq("b.jpg", "a.jpg");
    var y := ids[0];
    assert ids == [y] && y in col;
    assert y == "b.jpg" || y == "a.jpg";
    assert y == "b.jpg" ==> "a.jpg" !in ids;
    assert LexLeq(y, "a.jpg") || "a.jpg" in ids;
  }

  lemma OnePad(ranked: Series, ids: seq<Item>)
    requires |ids| == 1
    ensures ranked + Constant(ids, PadScore) == ranked + [(ids[0], PadScore)]
  {
    var pads := Constant(ids, PadScore);
    assert |pads| == 1 && pads[0].0 == Keys(pads)[0];
  }
}
