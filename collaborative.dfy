/**
 * The collaborative channel: the user-item matrix pivoted from the
 * interaction log and item-to-item scoring over it.
 */
module Collaborative {
  import opened Wrappers
  import opened Scores
  import opened Records

  /**
   * The pivot table: one row per user, one column per item, `cell` holding
   * the aggregated score of the pairs the log contains (`fill_value=0` for the rest).
   */
  datatype UserItemMatrix = UserItemMatrix(users: seq<User>, items: seq<Item>, cell: map<(User, Item), real>)

  /** `matrix.loc[u, i]`. */
  function Cell(m: UserItemMatrix, u: User, i: Item): real {
    if (u, i) in m.cell then m.cell[(u, i)] else 0.0
  }

  predicate Matches(r: Interaction, u: User, i: Item) {
    r.user == u && r.item == i
  }

  /** The largest score among the rows for (u, i), or None when there is no such row. */
  function PairMax(rs: seq<Interaction>, u: User, i: Item): (b: Option<real>)
    ensures b.None? <==> forall r :: r in rs ==> !Matches(r, u, i)
    ensures b.Some? ==> exists r :: r in rs && Matches(r, u, i) && r.score == b.value
    ensures b.Some? ==> forall r :: r in rs && Matches(r, u, i) ==> r.score <= b.value
  {
    if rs == [] then None
    else
      var last := rs[|rs| - 1];
      var front := rs[..|rs| - 1];
      assert rs == front + [last];
      var before := PairMax(front, u, i);
      if !Matches(last, u, i) then before
      else if before.None? || before.value < last.score then Some(last.score)
      else before
  }

  /** `pivot_table(index="user_id", columns="image_path", values="interaction_score", aggfunc="max", fill_value=0)`. */
  function BuildUserItemMatrix(rs: seq<Interaction>): UserItemMatrix {
    var pairs := set r | r in rs :: (r.user, r.item);
    UserItemMatrix(
      Dedup(UserColumn(rs)),
      Dedup(ItemColumn(rs)),
      map p | p in pairs :: PairMax(rs, p.0, p.1).value)
  }

  /**
   * Every entry of the pivot is the maximum score of that user's rows for
   * that item, or 0 when there are none; its rows and columns are exactly
   * the users and items that occur in the log.
   */
  lemma BuildUserItemMatrixEntry(rs: seq<Interaction>, u: User, i: Item)
    ensures u in BuildUserItemMatrix(rs).users <==> exists r :: r in rs && r.user == u
    ensures i in BuildUserItemMatrix(rs).items <==> exists r :: r in rs && r.item == i
    ensures forall r :: r in rs && Matches(r, u, i) ==> r.score <= Cell(BuildUserItemMatrix(rs), u, i)
    ensures (exists r :: r in rs && Matches(r, u, i)) ==>
              exists r :: r in rs && Matches(r, u, i) && r.score == Cell(BuildUserItemMatrix(rs), u, i)
    ensures (forall r :: r in rs ==> !Matches(r, u, i)) ==> Cell(BuildUserItemMatrix(rs), u, i) == 0.0
  {
    UserColumnMembers(rs, u);
    ItemColumnMembers(rs, i);
    MatrixCell(rs, u, i);
  }

  /** The cell for (u, i) is present exactly when some row matches, and then holds their largest score. */
  lemma MatrixCell(rs: seq<Interaction>, u: User, i: Item)
    ensures var m := BuildUserItemMatrix(rs);
      ((u, i) in m.cell <==> PairMax(rs, u, i).Some?)
      && ((u, i) in m.cell ==> m.cell[(u, i)] == PairMax(rs, u, i).value)
  {
    var b := PairMax(rs, u, i);
    if b.Some? {
      var r :| r in rs && Matches(r, u, i);
      assert (r.user, r.item) == (u, i);
    }
  }

  /** `matrix.loc[u].sum()` over the given columns. */
  function RowSum(m: UserItemMatrix, u: User, items: seq<Item>): real {
    if items == [] then 0.0 else Cell(m, u, items[0]) + RowSum(m, u, items[1..])
  }

  /** `(matrix.loc[u] > 0).sum()` over the given columns. */
  function PositiveCount(m: UserItemMatrix, u: User, items: seq<Item>): (n: nat)
    ensures n <= |items|
  {
    if items == [] then 0
    else (if Cell(m, u, items[0]) > 0.0 then 1 else 0) + PositiveCount(m, u, items[1..])
  }

  /** The columns where the user's row is positive: the items the user has already seen. */
  function Seen(m: UserItemMatrix, u: User): set<Item> {
    set i | i in m.items && Cell(m, u, i) > 0.0
  }

  /** New user, or a row that sums to 0. */
  predicate IsColdStart(m: UserItemMatrix, u: User) {
    u !in m.users || RowSum(m, u, m.items) == 0.0
  }

  /** Entry j of `user_vector @ item_similarity`: the sum over the matrix columns i of row[i] * sim[i][j]. */
  function Dot(m: UserItemMatrix, u: User, f: Frame, j: Item, items: seq<Item>): real {
    if items == [] then 0.0 else Cell(m, u, items[0]) * At(f, items[0], j) + Dot(m, u, f, j, items[1..])
  }

  /** `user_vector @ item_similarity`, indexed by the frame's columns. */
  function DotScores(m: UserItemMatrix, u: User, f: Frame): (r: Series)
    ensures Keys(r) == f.labels
    ensures forall k :: 0 <= k < |r| ==> r[k].1 == Dot(m, u, f, r[k].0, m.items)
  {
    seq(|f.labels|, k requires 0 <= k < |f.labels| => (f.labels[k], Dot(m, u, f, f.labels[k], m.items)))
  }

  /** How many times `x` occurs in `xs`. */
  function Count(xs: seq<Item>, x: Item): nat {
    multiset(xs)[x]
  }

  /** Each distinct element of `xs` with its number of occurrences, in order of first occurrence. */
  function Counts(xs: seq<Item>): (r: Series)
    ensures DistinctKeys(r)
    ensures forall e :: e in r <==> e.0 in xs && e.1 == Count(xs, e.0) as real
  {
    var ds := Dedup(xs);
    var r := seq(|ds|, k requires 0 <= k < |ds| => (ds[k], Count(xs, ds[k]) as real));
    assert forall e :: e in r ==> e.0 in ds;
    assert forall x :: x in ds ==> (x, Count(xs, x) as real) in r by {
      forall x | x in ds ensures (x, Count(xs, x) as real) in r {
        var k :| 0 <= k < |ds| && ds[k] == x;
        assert r[k] == (x, Count(xs, x) as real);
      }
    }
    r
  }

  /** `value_counts()`: item frequencies, most frequent first. */
  function ValueCounts(xs: seq<Item>): (r: Series)
    ensures SortedDesc(r) && DistinctKeys(r)
    ensures forall e :: e in r <==> e.0 in xs && e.1 == Count(xs, e.0) as real
  {
    SortDesc(Counts(xs))
  }

  /** The matrix columns and the frame's labels are the same items, as `Series.dot` demands. */
  predicate Aligned(m: UserItemMatrix, f: Frame) {
    (forall i :: i in m.items ==> i in f.labels) && (forall j :: j in f.labels ==> j in m.items)
  }

  /** `recommend_items`: cold-start popularity, or neighbourhood scores with seen items removed. */
  function RecommendItems(u: User, m: UserItemMatrix, f: Frame, log: Option<seq<Interaction>>, topK: nat): Result<Series> {
    if IsColdStart(m, u) then
      match log
      case None => Ok([])
      case Some(rs) => Ok(Popular(ItemColumn(rs), topK))
    else if !Aligned(m, f) then
      Raise(ValueError)  // "matrices are not aligned"
    else
      Ok(Take(SortDesc(FilterKeys(DotScores(m, u, f), Seen(m, u), false)), topK))
  }

  /**
   * Cold start: without a log the result is empty; with one it is up to
   * `topK` distinct logged items scored 1.0, in non-increasing frequency,
   * and any logged item left out is no more frequent than every one kept.
   */
  lemma RecommendItemsColdStart(u: User, m: UserItemMatrix, f: Frame, log: Option<seq<Interaction>>, topK: nat)
    requires IsColdStart(m, u)
    ensures log.None? ==> RecommendItems(u, m, f, log, topK) == Ok([])
    ensures log.Some? ==> RecommendItems(u, m, f, log, topK) == Ok(Popular(ItemColumn(log.value), topK))
    ensures log.Some? ==> PopularSpec(ItemColumn(log.value), topK, Popular(ItemColumn(log.value), topK))
  {
    if log.Some? {
      PopularTop(ItemColumn(log.value), topK);
    }
  }

  /** The cold-start list: the `topK` most frequent items, each scored 1.0. */
  function Popular(xs: seq<Item>, topK: nat): (out: Series)
    ensures |out| <= topK && |out| <= |ValueCounts(xs)|
    ensures forall k :: 0 <= k < |out| ==> out[k] == (ValueCounts(xs)[k].0, 1.0)
  {
    var top := Take(ValueCounts(xs), topK);
    seq(|top|, k requires 0 <= k < |top| => (top[k].0, 1.0))
  }

  /** What the cold-start list promises about `out`, stated on frequencies alone. */
  ghost predicate PopularSpec(xs: seq<Item>, topK: nat, out: Series) {
    && |out| <= topK
    && DistinctKeys(out)
    && (forall k :: 0 <= k < |out| ==> out[k].1 == 1.0 && out[k].0 in xs)
    && (forall k, l :: 0 <= k < l < |out| ==> Count(xs, out[k].0) >= Count(xs, out[l].0))
    && (forall x :: x in xs && x !in Keys(out) ==>
          |out| == topK && forall k :: 0 <= k < |out| ==> Count(xs, out[k].0) >= Count(xs, x))
  }

  /** Entry k of the cold-start list is the k-th most frequent item with its frequency. */
  lemma PopularEntries(xs: seq<Item>, topK: nat)
    ensures forall k :: 0 <= k < |Popular(xs, topK)| ==>
      var e := ValueCounts(xs)[k];
      e in ValueCounts(xs) && e.0 in xs && e.1 == Count(xs, e.0) as real
  {
    var vc := ValueCounts(xs);
    forall k | 0 <= k < |Popular(xs, topK)| ensures vc[k] in vc && vc[k].0 in xs && vc[k].1 == Count(xs, vc[k].0) as real {
      assert vc[k] in vc;
    }
  }

  lemma PopularLeftOut(xs: seq<Item>, topK: nat, x: Item)
    requires x in xs && x !in Keys(Popular(xs, topK))
    ensures |Popular(xs, topK)| == topK
    ensures forall k :: 0 <= k < topK ==> ValueCounts(xs)[k].1 >= Count(xs, x) as real
  {
    var vc := ValueCounts(xs);
    var e := (x, Count(xs, x) as real);
    assert e in vc;
    assert Keys(Take(vc, topK)) == Keys(Popular(xs, topK));
    TopOfSorted(vc, topK, e);
    forall k | 0 <= k < topK ensures vc[k].1 >= e.1 {
      assert Take(vc, topK)[k] in Take(vc, topK);
    }
  }

  lemma PopularTop(xs: seq<Item>, topK: nat)
    ensures PopularSpec(xs, topK, Popular(xs, topK))
  {
    var vc := ValueCounts(xs);
    var out := Popular(xs, topK);
    PopularEntries(xs, topK);
    forall x | x in xs && x !in Keys(out)
      ensures |out| == topK && forall k :: 0 <= k < |out| ==> Count(xs, out[k].0) >= Count(xs, x)
    {
      PopularLeftOut(xs, topK, x);
    }
  }

  /** The neighbourhood ranking itself, stated on the dot products. */
  lemma DotRanking(u: User, m: UserItemMatrix, f: Frame, topK: nat)
    ensures
      var out := Take(SortDesc(FilterKeys(DotScores(m, u, f), Seen(m, u), false)), topK);
      && |out| <= topK
      && SortedDesc(out)
      && (forall e :: e in out ==> e.0 in f.labels && e.0 !in Seen(m, u) && e.1 == Dot(m, u, f, e.0, m.items))
      && (forall j :: j in f.labels && j !in Seen(m, u) && j !in Keys(out) ==>
            |out| == topK && forall e :: e in out ==> e.1 >= Dot(m, u, f, j, m.items))
  {
    var ds := DotScores(m, u, f);
    DotScoresMembers(m, u, f);
    TopKWithout(ds, Seen(m, u), topK);
  }

  lemma DotScoresMembers(m: UserItemMatrix, u: User, f: Frame)
    ensures forall e :: e in DotScores(m, u, f) ==> e.0 in f.labels && e.1 == Dot(m, u, f, e.0, m.items)
    ensures forall j :: j in f.labels ==> (j, Dot(m, u, f, j, m.items)) in DotScores(m, u, f)
  {
    var ds := DotScores(m, u, f);
    forall e | e in ds ensures e.0 in f.labels && e.1 == Dot(m, u, f, e.0, m.items) {
      var k :| 0 <= k < |ds| && ds[k] == e;
      assert Keys(ds)[k] == e.0;
    }
    forall j | j in f.labels ensures (j, Dot(m, u, f, j, m.items)) in ds {
      var k :| 0 <= k < |f.labels| && f.labels[k] == j;
      assert Keys(ds)[k] == j && ds[k] in ds;
    }
  }

  /**
   * Normal case: at most `topK` columns of the frame, sorted descending,
   * none the user has already seen, each scored by the dot product, and no
   * unseen column left out scores above any kept one.
   */
  lemma RecommendItemsNormal(u: User, m: UserItemMatrix, f: Frame, log: Option<seq<Interaction>>, topK: nat)
    requires !IsColdStart(m, u)
    requires Aligned(m, f)
    ensures RecommendItems(u, m, f, log, topK) == Ok(Take(SortDesc(FilterKeys(DotScores(m, u, f), Seen(m, u), false)), topK))
    ensures
      var out := RecommendItems(u, m, f, log, topK).value;
      && |out| <= topK
      && SortedDesc(out)
      && (forall e :: e in out ==> e.0 in f.labels && e.0 !in Seen(m, u) && e.1 == Dot(m, u, f, e.0, m.items))
      && (forall j :: j in f.labels && j !in Seen(m, u) && j !in Keys(out) ==>
            |out| == topK && forall e :: e in out ==> e.1 >= Dot(m, u, f, j, m.items))
  {
    DotRanking(u, m, f, topK);
  }

  /** A user the matrix has a non-empty row for, scored against a frame over other items, raises ValueError. */
  lemma RecommendItemsMisaligned(u: User, m: UserItemMatrix, f: Frame, log: Option<seq<Interaction>>, topK: nat)
    requires !IsColdStart(m, u)
    requires exists i :: i in m.items && i !in f.labels
    ensures RecommendItems(u, m, f, log, topK) == Raise(ValueError)
  {
  }
}
