/**
 * Maximal Marginal Relevance re-ranking (`diversify_mmr`): a greedy loop that
 * repeatedly picks the candidate with the best trade-off between its
 * relevance and its largest similarity to the items already picked.
 */
module Mmr {
  import opened Wrappers
  import opened Scores
  import opened Records

  /** No element occurs twice. */
  predicate NoRepeats(s: seq<Item>) {
    forall i, j :: 0 <= i < j < |s| ==> s[i] != s[j]
  }

  /** `item_similarity.loc[row, col]`: a KeyError unless both labels are in the frame. */
  function Loc(f: Frame, row: Item, col: Item): (r: Result<real>)
    ensures r.Ok? <==> row in f.labels && col in f.labels
    ensures r.Ok? ==> r.value == At(f, row, col)
    ensures r.Raise? ==> r.error == KeyError
  {
    if row in f.labels && col in f.labels then Ok(At(f, row, col)) else Raise(KeyError)
  }

  /** The similarities of `item` to each selected item, in selection order. */
  function Sims(f: Frame, item: Item, sel: seq<Item>): (r: seq<real>)
    ensures |r| == |sel|
  {
    seq(|sel|, j requires 0 <= j < |sel| => At(f, item, sel[j]))
  }

  /**
   * `[item_similarity.loc[item, s] for s in selected]`: evaluated left to
   * right, so the first missing pair raises.
   */
  function Lookups(f: Frame, item: Item, sel: seq<Item>): (r: Result<seq<real>>)
    ensures r.Ok? <==> sel == [] || (item in f.labels && forall s :: s in sel ==> s in f.labels)
    ensures r.Ok? ==> r.value == Sims(f, item, sel)
    ensures r.Raise? ==> r.error == KeyError
  {
    if sel == [] then Ok([])
    else
      match Loc(f, item, sel[0])
      case Raise(e) => Raise(e)
      case Ok(x) =>
        match Lookups(f, item, sel[1..])
        case Raise(e) => Raise(e)
        case Ok(xs) =>
          assert forall j :: 1 <= j < |sel| ==> sel[j] == sel[1..][j - 1];
          Ok([x] + xs)
  }

  /** `max(xs, default=d)`. */
  function MaxOr(xs: seq<real>, d: real): (m: real)
    ensures xs == [] ==> m == d
    ensures xs != [] ==> m in xs && forall x :: x in xs ==> x <= m
  {
    if xs == [] then d
    else
      var rest := MaxOr(xs[1..], xs[0]);
      assert xs == [xs[0]] + xs[1..];
      if xs[0] >= rest then xs[0] else rest
  }

  /** The diversity penalty of `item`: its largest similarity to a selected item, 0 when none is selected. */
  function Penalty(f: Frame, item: Item, sel: seq<Item>): real {
    MaxOr(Sims(f, item, sel), 0.0)
  }

  /** `lambda_param * relevance - (1 - lambda_param) * diversity`. */
  function MmrScore(lambda: real, relevance: real, diversity: real): real {
    lambda * relevance - (1.0 - lambda) * diversity
  }

  /** The MMR value one step gives `item`. */
  function Value(scores: Series, f: Frame, item: Item, sel: seq<Item>, lambda: real): real {
    MmrScore(lambda, Get(scores, item), Penalty(f, item, sel))
  }

  /** Every similarity a step looks up is present: nothing is selected yet, or every label involved is in the frame. */
  predicate Ready(f: Frame, cands: seq<Item>, sel: seq<Item>) {
    sel == [] || ((forall c :: c in cands ==> c in f.labels) && forall s :: s in sel ==> s in f.labels)
  }

  /**
   * The `mmr_scores` list of one pass: each candidate in order with its MMR
   * value; a KeyError as soon as a candidate's lookups fail.
   */
  function MmrScores(scores: Series, f: Frame, cands: seq<Item>, sel: seq<Item>, lambda: real): (r: Result<Series>)
    ensures r.Ok? <==> cands == [] || Ready(f, cands, sel)
    ensures r.Raise? ==> r.error == KeyError
    ensures r.Ok? ==> (Keys(r.value) == cands
      && forall i :: 0 <= i < |cands| ==> r.value[i].1 == Value(scores, f, cands[i], sel, lambda))
  {
    if cands == [] then Ok([])
    else
      var init := cands[..|cands| - 1];
      var item := cands[|cands| - 1];
      assert cands == init + [item];
      ReadyStep(f, init, item, sel);
      match MmrScores(scores, f, init, sel, lambda)
      case Raise(e) => Raise(e)
      case Ok(ms) =>
        match Lookups(f, item, sel)
        case Raise(e) => Raise(e)
        case Ok(sims) =>
          ValueStep(scores, f, init, item, sel, lambda, ms);
          Ok(ms + [(item, MmrScore(lambda, Get(scores, item), MaxOr(sims, 0.0)))])
  }

  /** The lookups of one more candidate succeed exactly when the extended list is ready. */
  lemma ReadyStep(f: Frame, init: seq<Item>, item: Item, sel: seq<Item>)
    ensures Ready(f, init + [item], sel) <==>
      (init == [] || Ready(f, init, sel)) && (sel == [] || (item in f.labels && forall s :: s in sel ==> s in f.labels))
  {
    assert forall c :: c in init + [item] <==> c in init || c == item;
  }

  /** Appending one candidate's value keeps the series aligned with the candidates. */
  lemma ValueStep(scores: Series, f: Frame, init: seq<Item>, item: Item, sel: seq<Item>, lambda: real, ms: Series)
    requires Keys(ms) == init
    requires forall i :: 0 <= i < |init| ==> ms[i].1 == Value(scores, f, init[i], sel, lambda)
    ensures var r := ms + [(item, MmrScore(lambda, Get(scores, item), MaxOr(Sims(f, item, sel), 0.0)))];
      Keys(r) == init + [item]
      && forall i :: 0 <= i < |init| + 1 ==> r[i].1 == Value(scores, f, (init + [item])[i], sel, lambda)
  {
    var r := ms + [(item, MmrScore(lambda, Get(scores, item), MaxOr(Sims(f, item, sel), 0.0)))];
    assert |ms| == |init|;
    assert forall i :: 0 <= i < |r| ==> Keys(r)[i] == (init + [item])[i];
    forall i | 0 <= i < |init| + 1
      ensures r[i].1 == Value(scores, f, (init + [item])[i], sel, lambda)
    {
      if i < |init| {
        assert r[i] == ms[i] && (init + [item])[i] == init[i];
      }
    }
  }

  /**
   * `max(mmr_scores, key=lambda x: x[1])`: the position of the first entry
   * with the largest value, since `max` replaces its current best only by a
   * strictly larger one.
   */
  function FirstMaxIndex(ms: Series): (i: nat)
    requires ms != []
    ensures i < |ms|
    ensures forall j :: 0 <= j < |ms| ==> ms[j].1 <= ms[i].1
    ensures forall j :: 0 <= j < i ==> ms[j].1 < ms[i].1
  {
    if |ms| == 1 then 0
    else
      var k := FirstMaxIndex(ms[..|ms| - 1]);
      if ms[|ms| - 1].1 > ms[k].1 then |ms| - 1 else k
  }

  /** A position holding a largest value with only smaller values before it is the first maximum. */
  lemma FirstMaxUnique(ms: Series, i: nat)
    requires i < |ms|
    requires forall j :: 0 <= j < |ms| ==> ms[j].1 <= ms[i].1
    requires forall j :: 0 <= j < i ==> ms[j].1 < ms[i].1
    ensures FirstMaxIndex(ms) == i
  {
    var k := FirstMaxIndex(ms);
    assert ms[k].1 <= ms[i].1 && ms[i].1 <= ms[k].1;
  }

  /** `candidates.remove(x)`: drops the first occurrence of `x`. */
  function RemoveFirst(xs: seq<Item>, x: Item): (r: seq<Item>)
    requires x in xs
    ensures |r| == |xs| - 1
    ensures forall y :: y in r ==> y in xs
    ensures forall y :: y in xs && y != x ==> y in r
    ensures NoRepeats(xs) ==> NoRepeats(r) && x !in r
    ensures xs[0] == x ==> r == xs[1..]
  {
    if xs[0] == x then xs[1..]
    else
      var rest := RemoveFirst(xs[1..], x);
      assert forall y :: y in xs <==> y == xs[0] || y in xs[1..];
      assert NoRepeats(xs) ==> xs[0] !in xs[1..] && NoRepeats(xs[1..]) by {
        if NoRepeats(xs) {
          forall k | 0 <= k < |xs| - 1 ensures xs[1..][k] != xs[0] {
            assert xs[1..][k] == xs[k + 1];
          }
        }
      }
      [xs[0]] + rest
  }

  /** `r` is `xs` without its element at `i`, which is the first occurrence of `x`. */
  predicate RemovedAt(xs: seq<Item>, x: Item, i: int, r: seq<Item>) {
    0 <= i < |xs| && xs[i] == x && x !in xs[..i] && r == xs[..i] + xs[i + 1..]
  }

  /** The removal splits `xs` at the first occurrence of `x` and drops exactly that element. */
  lemma {:induction false} RemoveFirstSplit(xs: seq<Item>, x: Item)
    requires x in xs
    ensures exists i :: RemovedAt(xs, x, i, RemoveFirst(xs, x))
  {
    if xs[0] == x {
      assert xs[..0] == [];
      assert RemovedAt(xs, x, 0, RemoveFirst(xs, x));
    } else {
      var t := xs[1..];
      assert x in t by {
        var k :| 0 <= k < |xs| && xs[k] == x;
        assert t[k - 1] == x;
      }
      RemoveFirstSplit(t, x);
      var j :| RemovedAt(t, x, j, RemoveFirst(t, x));
      ShiftRemoved(xs, x, j);
    }
  }

  lemma ShiftRemoved(xs: seq<Item>, x: Item, j: int)
    requires xs != [] && xs[0] != x && x in xs[1..] && RemovedAt(xs[1..], x, j, RemoveFirst(xs[1..], x))
    ensures RemovedAt(xs, x, j + 1, RemoveFirst(xs, x))
  {
    var t := xs[1..];
    assert xs[..j + 1] == [xs[0]] + t[..j];
    assert xs[j + 2..] == t[j + 1..];
    assert RemoveFirst(xs, x) == [xs[0]] + RemoveFirst(t, x);
  }

  /**
   * The `while` loop from the given state: while fewer than `topK` items are
   * selected and candidates remain, select the first candidate of largest
   * MMR value and remove it from the candidates.
   */
  function Select(scores: Series, f: Frame, cands: seq<Item>, sel: seq<Item>, topK: nat, lambda: real): Result<seq<Item>>
    decreases |cands|
  {
    if |sel| >= topK || cands == [] then Ok(sel)
    else
      match MmrScores(scores, f, cands, sel, lambda)
      case Raise(e) => Raise(e)
      case Ok(ms) =>
        PickIsCandidate(ms, cands);
        Select(scores, f, RemoveFirst(cands, Pick(ms)), sel + [Pick(ms)], topK, lambda)
  }

  /** `max(mmr_scores, key=lambda x: x[1])[0]`: the item of the first largest entry. */
  function Pick(ms: Series): Item
    requires ms != []
  {
    ms[FirstMaxIndex(ms)].0
  }

  lemma PickIsCandidate(ms: Series, cands: seq<Item>)
    requires ms != [] && Keys(ms) == cands
    ensures Pick(ms) in cands
  {
    assert Pick(ms) == Keys(ms)[FirstMaxIndex(ms)];
  }

  /** One pass of the loop, when it does not raise. */
  lemma SelectUnfold(scores: Series, f: Frame, cands: seq<Item>, sel: seq<Item>, topK: nat, lambda: real)
    requires |sel| < topK && cands != [] && MmrScores(scores, f, cands, sel, lambda).Ok?
    ensures Pick(MmrScores(scores, f, cands, sel, lambda).value) in cands
    ensures var b := Pick(MmrScores(scores, f, cands, sel, lambda).value);
      Select(scores, f, cands, sel, topK, lambda) == Select(scores, f, RemoveFirst(cands, b), sel + [b], topK, lambda)
  {
    PickIsCandidate(MmrScores(scores, f, cands, sel, lambda).value, cands);
  }

  /** `item_scores.loc[selected]`: each selected item with its relevance score. */
  function Relevances(scores: Series, sel: seq<Item>): (r: Series)
    ensures Keys(r) == sel
  {
    seq(|sel|, i requires 0 <= i < |sel| => (sel[i], Get(scores, sel[i])))
  }

  /** `diversify_mmr`: the selected items in selection order, each with its relevance score. */
  function Diversify(scores: Series, f: Frame, topK: nat, lambda: real): Result<Series> {
    match Select(scores, f, Keys(scores), [], topK, lambda)
    case Raise(e) => Raise(e)
    case Ok(sel) => Ok(Relevances(scores, sel))
  }

  /** A pass that fails on a prefix of the candidates fails on all of them. */
  lemma {:induction false} MmrScoresPrefixRaise(scores: Series, f: Frame, cands: seq<Item>, sel: seq<Item>, lambda: real, i: nat)
    requires i <= |cands| && MmrScores(scores, f, cands[..i], sel, lambda).Raise?
    ensures MmrScores(scores, f, cands, sel, lambda).Raise?
    decreases |cands| - i
  {
    if i < |cands| {
      var longer := cands[..i + 1];
      assert longer[..|longer| - 1] == cands[..i];
      MmrScoresPrefixRaise(scores, f, cands, sel, lambda, i + 1);
    } else {
      assert cands[..i] == cands;
    }
  }

  /** The smaller of two counts. */
  function MinNat(a: nat, b: nat): nat {
    if a <= b then a else b
  }

  /**
   * From a state whose candidates are distinct and not yet selected, the loop
   * keeps what is selected in front, adds distinct candidates only, and stops
   * with `topK` items or when the candidates run out.
   */
  lemma {:induction false} SelectShape(scores: Series, f: Frame, cands: seq<Item>, sel: seq<Item>, topK: nat, lambda: real)
    requires |sel| <= topK && NoRepeats(cands) && NoRepeats(sel)
    requires forall x :: x in cands ==> x !in sel
    ensures Select(scores, f, cands, sel, topK, lambda).Ok? ==>
      var res := Select(scores, f, cands, sel, topK, lambda).value;
      && |res| == MinNat(topK, |sel| + |cands|)
      && res[..|sel|] == sel
      && NoRepeats(res)
      && forall x :: x in res ==> x in sel || x in cands
    decreases |cands|
  {
    if |sel| < topK && cands != [] {
      var ms := MmrScores(scores, f, cands, sel, lambda);
      if ms.Ok? {
        SelectUnfold(scores, f, cands, sel, topK, lambda);
        var best := Pick(ms.value);
        var rest := RemoveFirst(cands, best);
        var sel' := sel + [best];
        assert NoRepeats(sel') by {
          forall i, j | 0 <= i < j < |sel'| ensures sel'[i] != sel'[j] {
            if j == |sel| {
              assert sel'[i] in sel;
            }
          }
        }
        assert forall x :: x in sel' <==> x in sel || x == best;
        SelectShape(scores, f, rest, sel', topK, lambda);
        var res := Select(scores, f, rest, sel', topK, lambda);
        if res.Ok? {
          assert sel'[..|sel|] == sel;
          assert res.value[..|sel|] == res.value[..|sel'|][..|sel|];
        }
      }
    }
  }

  /** Diversification returns min(topK, |scores|) distinct items of the input, each with its own relevance score. */
  lemma DiversifyShape(scores: Series, f: Frame, topK: nat, lambda: real)
    requires DistinctKeys(scores)
    ensures Diversify(scores, f, topK, lambda).Ok? ==>
      var out := Diversify(scores, f, topK, lambda).value;
      && |out| == MinNat(topK, |scores|)
      && DistinctKeys(out)
      && forall e :: e in out ==> e in scores
  {
    var ks := Keys(scores);
    assert NoRepeats(ks) by {
      forall i, j | 0 <= i < j < |ks| ensures ks[i] != ks[j] {
        assert ks[i] == scores[i].0 && ks[j] == scores[j].0;
      }
    }
    SelectShape(scores, f, ks, [], topK, lambda);
    var sel := Select(scores, f, ks, [], topK, lambda);
    if sel.Ok? {
      var out := Relevances(scores, sel.value);
      forall i, j | 0 <= i < j < |out| ensures out[i].0 != out[j].0 {
        assert Keys(out)[i] == sel.value[i] && Keys(out)[j] == sel.value[j];
      }
      forall e | e in out ensures e in scores {
        var i :| 0 <= i < |out| && out[i] == e;
        assert Keys(out)[i] == sel.value[i];
        assert sel.value[i] in sel.value;
        var j :| 0 <= j < |ks| && ks[j] == e.0;
        assert e.1 == scores[j].1;
      }
    }
  }

  /** When every similarity the loop can look up is present, the loop does not raise. */
  lemma {:induction false} SelectTotal(scores: Series, f: Frame, cands: seq<Item>, sel: seq<Item>, topK: nat, lambda: real)
    requires forall c :: c in cands ==> c in f.labels
    requires forall s :: s in sel ==> s in f.labels
    ensures Select(scores, f, cands, sel, topK, lambda).Ok?
    decreases |cands|
  {
    if |sel| < topK && cands != [] {
      var ms := MmrScores(scores, f, cands, sel, lambda);
      SelectUnfold(scores, f, cands, sel, topK, lambda);
      var best := Pick(ms.value);
      assert forall x :: x in sel + [best] <==> x in sel || x == best;
      SelectTotal(scores, f, RemoveFirst(cands, best), sel + [best], topK, lambda);
    }
  }

  /**
   * The first pass never raises, since nothing is selected yet; from the
   * second pass on every candidate and every selected item is looked up. So
   * the loop raises KeyError exactly when it reaches a second pass and some
   * scored item is missing from the similarity frame.
   */
  lemma DiversifyRaises(scores: Series, f: Frame, topK: nat, lambda: real)
    ensures Diversify(scores, f, topK, lambda).Ok? <==>
      topK <= 1 || |scores| <= 1 || forall k :: k in Keys(scores) ==> k in f.labels
    ensures Diversify(scores, f, topK, lambda).Raise? ==> Diversify(scores, f, topK, lambda).error == KeyError
  {
    var ks := Keys(scores);
    if topK > 0 && ks != [] {
      var ms := MmrScores(scores, f, ks, [], lambda);
      SelectUnfold(scores, f, ks, [], topK, lambda);
      var best := Pick(ms.value);
      var rest := RemoveFirst(ks, best);
      assert [] + [best] == [best];
      if topK >= 2 && |scores| >= 2 {
        SecondPass(scores, f, rest, best, topK, lambda);
        assert forall x :: x in ks <==> x in rest || x == best;
      }
    }
  }

  /** The second pass raises exactly when a label it looks up is missing. */
  lemma SecondPass(scores: Series, f: Frame, rest: seq<Item>, best: Item, topK: nat, lambda: real)
    requires topK >= 2 && rest != []
    ensures Select(scores, f, rest, [best], topK, lambda).Ok? <==>
      best in f.labels && forall c :: c in rest ==> c in f.labels
    ensures Select(scores, f, rest, [best], topK, lambda).Raise? ==>
      Select(scores, f, rest, [best], topK, lambda).error == KeyError
  {
    if best in f.labels && forall c :: c in rest ==> c in f.labels {
      SelectTotal(scores, f, rest, [best], topK, lambda);
    } else {
      assert !Ready(f, rest, [best]);
    }
  }

  /**
   * One pass selects the candidate at position `i` when `i` holds the largest
   * MMR value and every earlier candidate a strictly smaller one: the first
   * maximum wins ties.
   */
  lemma SelectStep(scores: Series, f: Frame, cands: seq<Item>, sel: seq<Item>, topK: nat, lambda: real, i: nat)
    requires |sel| < topK && i < |cands| && Ready(f, cands, sel)
    requires forall j :: 0 <= j < |cands| ==>
      Value(scores, f, cands[j], sel, lambda) <= Value(scores, f, cands[i], sel, lambda)
    requires forall j :: 0 <= j < i ==>
      Value(scores, f, cands[j], sel, lambda) < Value(scores, f, cands[i], sel, lambda)
    ensures cands[i] in cands
    ensures Select(scores, f, cands, sel, topK, lambda)
      == Select(scores, f, RemoveFirst(cands, cands[i]), sel + [cands[i]], topK, lambda)
  {
    var ms := MmrScores(scores, f, cands, sel, lambda).value;
    FirstMaxUnique(ms, i);
    assert ms[i].0 == Keys(ms)[i];
  }

  /** `lambda * x` grows with `x` for a positive `lambda`. */
  lemma ScaleMonotone(lambda: real, x: real, y: real)
    requires lambda > 0.0 && x <= y
    ensures lambda * x <= lambda * y
  {
    assert lambda * y - lambda * x == lambda * (y - x);
  }

  /** With nothing selected the MMR value is `lambda` times the relevance. */
  lemma FirstPassValue(scores: Series, f: Frame, item: Item, lambda: real)
    ensures Value(scores, f, item, [], lambda) == lambda * Get(scores, item)
  {
    assert Sims(f, item, []) == [];
  }

  /** In a series with distinct ids, the score of the id at position `i` is the score there. */
  lemma GetAt(scores: Series, i: nat)
    requires DistinctKeys(scores) && i < |scores|
    ensures Get(scores, Keys(scores)[i]) == scores[i].1
  {
  }

  /**
   * On a list sorted by descending relevance, with a positive `lambda`, the
   * first pass selects the top item.
   */
  lemma FirstPick(scores: Series, f: Frame, topK: nat, lambda: real)
    requires DistinctKeys(scores) && SortedDesc(scores) && scores != [] && topK >= 1 && lambda > 0.0
    ensures Select(scores, f, Keys(scores), [], topK, lambda)
      == Select(scores, f, Keys(scores)[1..], [scores[0].0], topK, lambda)
  {
    var ks := Keys(scores);
    forall j | 0 <= j < |ks| ensures Value(scores, f, ks[j], [], lambda) <= Value(scores, f, ks[0], [], lambda) {
      FirstPassValue(scores, f, ks[j], lambda);
      FirstPassValue(scores, f, ks[0], lambda);
      GetAt(scores, j);
      GetAt(scores, 0);
      ScaleMonotone(lambda, scores[j].1, scores[0].1);
    }
    SelectStep(scores, f, ks, [], topK, lambda, 0);
    assert [] + [ks[0]] == [scores[0].0];
  }

  /** Diversified output then starts with the top item and its score. */
  lemma DiversifyFirstPick(scores: Series, f: Frame, topK: nat, lambda: real)
    requires DistinctKeys(scores) && SortedDesc(scores) && scores != [] && topK >= 1 && lambda > 0.0
    ensures Diversify(scores, f, topK, lambda).Ok? ==>
      |Diversify(scores, f, topK, lambda).value| >= 1 && Diversify(scores, f, topK, lambda).value[0] == scores[0]
  {
    var ks := Keys(scores);
    FirstPick(scores, f, topK, lambda);
    var res := Select(scores, f, ks[1..], [scores[0].0], topK, lambda);
    SelectPrefix(scores, f, ks[1..], [scores[0].0], topK, lambda);
    if res.Ok? {
      var out := Relevances(scores, res.value);
      assert res.value[0] == scores[0].0;
      assert Keys(out)[0] == scores[0].0;
      GetAt(scores, 0);
    }
  }

  /** The loop never drops what is already selected. */
  lemma {:induction false} SelectPrefix(scores: Series, f: Frame, cands: seq<Item>, sel: seq<Item>, topK: nat, lambda: real)
    ensures Select(scores, f, cands, sel, topK, lambda).Ok? ==>
      var res := Select(scores, f, cands, sel, topK, lambda).value;
      |sel| <= |res| && res[..|sel|] == sel
    decreases |cands|
  {
    if |sel| < topK && cands != [] {
      var ms := MmrScores(scores, f, cands, sel, lambda);
      if ms.Ok? {
        SelectUnfold(scores, f, cands, sel, topK, lambda);
        var best := Pick(ms.value);
        var sel' := sel + [best];
        SelectPrefix(scores, f, RemoveFirst(cands, best), sel', topK, lambda);
        var res := Select(scores, f, RemoveFirst(cands, best), sel', topK, lambda);
        if res.Ok? {
          assert sel'[..|sel|] == sel;
          assert res.value[..|sel|] == res.value[..|sel'|][..|sel|];
        }
      }
    }
  }

  /** With `lambda` = 1 the MMR value is the relevance. */
  lemma ValueWithoutPenalty(scores: Series, f: Frame, item: Item, sel: seq<Item>)
    ensures Value(scores, f, item, sel, 1.0) == Get(scores, item)
  {
  }

  /** With `lambda` = 1, the head of the rest of a sorted list has the largest MMR value. */
  lemma SortedHeadIsBest(scores: Series, f: Frame, k: nat, sel: seq<Item>)
    requires DistinctKeys(scores) && SortedDesc(scores) && k < |scores|
    ensures forall j :: 0 <= j < |scores| - k ==>
      Value(scores, f, Keys(scores)[k..][j], sel, 1.0) <= Value(scores, f, Keys(scores)[k..][0], sel, 1.0)
  {
    var cands := Keys(scores)[k..];
    forall j | 0 <= j < |scores| - k
      ensures Value(scores, f, cands[j], sel, 1.0) <= Value(scores, f, cands[0], sel, 1.0)
    {
      ValueWithoutPenalty(scores, f, cands[j], sel);
      ValueWithoutPenalty(scores, f, cands[0], sel);
      assert cands[j] == Keys(scores)[k + j] && cands[0] == Keys(scores)[k];
      GetAt(scores, k + j);
      GetAt(scores, k);
    }
  }

  /** With `lambda` = 1, from the state after `k` passes the loop keeps taking the next item of the sorted list. */
  lemma {:induction false} SelectInOrder(scores: Series, f: Frame, topK: nat, k: nat)
    requires DistinctKeys(scores) && SortedDesc(scores)
    requires forall x :: x in Keys(scores) ==> x in f.labels
    requires k <= |scores| && k <= topK
    ensures Select(scores, f, Keys(scores)[k..], Keys(scores)[..k], topK, 1.0)
      == Ok(Keys(scores)[..MinNat(topK, |scores|)])
    decreases |scores| - k
  {
    var ks := Keys(scores);
    if k < topK && k < |scores| {
      var cands := ks[k..];
      var sel := ks[..k];
      assert Ready(f, cands, sel) by {
        assert forall c :: c in cands ==> c in ks;
        assert forall c :: c in sel ==> c in ks;
      }
      SortedHeadIsBest(scores, f, k, sel);
      SelectStep(scores, f, cands, sel, topK, 1.0, 0);
      MoveHead(ks, k);
      SelectInOrder(scores, f, topK, k + 1);
    }
  }

  /** Moving the head of `s[k..]` to the end of `s[..k]`. */
  lemma MoveHead(s: seq<Item>, k: nat)
    requires k < |s|
    ensures s[k..][0] in s[k..]
    ensures RemoveFirst(s[k..], s[k..][0]) == s[k + 1..]
    ensures s[..k] + [s[k..][0]] == s[..k + 1]
  {
  }

  /**
   * With `lambda` = 1 the diversity penalty has no weight: on a list sorted
   * by descending relevance whose items are all in the similarity frame,
   * diversification is plain truncation to `topK`.
   */
  lemma DiversifyWithoutPenalty(scores: Series, f: Frame, topK: nat)
    requires DistinctKeys(scores) && SortedDesc(scores)
    requires forall k :: k in Keys(scores) ==> k in f.labels
    ensures Diversify(scores, f, topK, 1.0) == Ok(Take(scores, topK))
  {
    var ks := Keys(scores);
    assert ks[0..] == ks && ks[..0] == [];
    SelectInOrder(scores, f, topK, 0);
    RelevancesOfPrefix(scores, MinNat(topK, |scores|));
  }

  /** With distinct ids, looking up the first `n` ids gives back the first `n` entries. */
  lemma RelevancesOfPrefix(scores: Series, n: nat)
    requires DistinctKeys(scores) && n <= |scores|
    ensures Relevances(scores, Keys(scores)[..n]) == scores[..n]
  {
    var sel := Keys(scores)[..n];
    var r := Relevances(scores, sel);
    forall i | 0 <= i < n ensures r[i] == scores[i] {
      assert Keys(r)[i] == sel[i] == Keys(scores)[i];
      GetAt(scores, i);
    }
  }

  /** One pass of the loop: the `for` loop that builds `mmr_scores`. */
  method PassScores(scores: Series, f: Frame, candidates: seq<Item>, selected: seq<Item>, lambda: real)
    returns (r: Result<Series>)
    ensures r == MmrScores(scores, f, candidates, selected, lambda)
  {
    var mmrScores: Series := [];
    for i := 0 to |candidates|
      invariant MmrScores(scores, f, candidates[..i], selected, lambda) == Ok(mmrScores)
    {
      var item := candidates[i];
      var relevance := Get(scores, item);
      var sims := Lookups(f, item, selected);
      assert candidates[..i + 1][..i] == candidates[..i];
      if sims.Raise? {
        MmrScoresPrefixRaise(scores, f, candidates, selected, lambda, i + 1);
        return Raise(sims.error);
      }
      var diversity := MaxOr(sims.value, 0.0);
      mmrScores := mmrScores + [(item, MmrScore(lambda, relevance, diversity))];
    }
    assert candidates[..|candidates|] == candidates;
    r := Ok(mmrScores);
  }

  /** The greedy MMR loop. */
  method DiversifyMmr(scores: Series, f: Frame, topK: nat, lambda: real) returns (r: Result<Series>)
    ensures r == Diversify(scores, f, topK, lambda)
  {
    var selected: seq<Item> := [];
    var candidates := Keys(scores);
    while |selected| < topK && candidates != []
      invariant Select(scores, f, Keys(scores), [], topK, lambda) == Select(scores, f, candidates, selected, topK, lambda)
      decreases |candidates|
    {
      var pass := PassScores(scores, f, candidates, selected, lambda);
      if pass.Raise? {
        return Raise(pass.error);
      }
      var mmrScores := pass.value;
      var best := Pick(mmrScores);
      PickIsCandidate(mmrScores, candidates);
      selected := selected + [best];
      candidates := RemoveFirst(candidates, best);
    }
    r := Ok(Relevances(scores, selected));
  }
}
