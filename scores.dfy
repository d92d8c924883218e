/**
 * Score series: the pandas Series from item id to real score that every
 * channel produces and the fusion engine consumes, kept as a sequence
 * because its order matters once it has been sorted.
 */
module Scores {

  type Item = string
  type Entry = (Item, real)
  type Series = seq<Entry>

  /** The index of a series, in order. */
  function Keys(s: Series): seq<Item> {
    seq(|s|, i requires 0 <= i < |s| => s[i].0)
  }

  /** No item id occurs twice in the index. */
  predicate DistinctKeys(s: Series) {
    forall i, j :: 0 <= i < j < |s| ==> s[i].0 != s[j].0
  }

  /** Scores never increase from left to right (`sort_values(ascending=False)`). */
  predicate SortedDesc(s: Series) {
    forall i, j :: 0 <= i < j < |s| ==> s[i].1 >= s[j].1
  }

  /** The score of `k`, or 0 when `k` is absent (the `fillna(0)` reading of a missing score). */
  function Get(s: Series, k: Item): (v: real)
    ensures k !in Keys(s) ==> v == 0.0
    ensures DistinctKeys(s) ==> forall i :: 0 <= i < |s| && s[i].0 == k ==> v == s[i].1
  {
    if s == [] then 0.0
    else
      assert Keys(s) == [s[0].0] + Keys(s[1..]);
      if s[0].0 == k then s[0].1 else Get(s[1..], k)
  }

  /** `head(n)`: the first n elements, or all of them when there are fewer. */
  function Take<T>(s: seq<T>, n: nat): (r: seq<T>)
    ensures |r| == if n <= |s| then n else |s|
    ensures r == s[..|r|]
  {
    if n <= |s| then s[..n] else s
  }

  /** Every item of `ids` scored `score`, in order. */
  function Constant(ids: seq<Item>, score: real): (r: Series)
    ensures Keys(r) == ids
    ensures forall i :: 0 <= i < |r| ==> r[i].1 == score
  {
    seq(|ids|, i requires 0 <= i < |ids| => (ids[i], score))
  }

  /**
   * Boolean-mask selection by index: the entries whose key is in `ks` when
   * `inside` holds (`isin`), or not in `ks` otherwise (`drop(..., errors="ignore")`).
   */
  function FilterKeys(s: Series, ks: set<Item>, inside: bool): (r: Series)
    ensures forall e :: e in r <==> e in s && (e.0 in ks) == inside
    ensures |r| <= |s|
    ensures SortedDesc(s) ==> SortedDesc(r)
    ensures DistinctKeys(s) ==> DistinctKeys(r)
  {
    if s == [] then []
    else
      var rest := FilterKeys(s[1..], ks, inside);
      FilterStep(s, ks, inside, rest);
      if (s[0].0 in ks) == inside then [s[0]] + rest else rest
  }

  /** One step of the selection: the head is kept or skipped, and order and distinctness carry over. */
  lemma FilterStep(s: Series, ks: set<Item>, inside: bool, rest: Series)
    requires s != []
    requires forall e :: e in rest <==> e in s[1..] && (e.0 in ks) == inside
    requires SortedDesc(s[1..]) ==> SortedDesc(rest)
    requires DistinctKeys(s[1..]) ==> DistinctKeys(rest)
    ensures (s[0].0 in ks) == inside ==>
      && (forall e :: e in [s[0]] + rest <==> e in s && (e.0 in ks) == inside)
      && (SortedDesc(s) ==> SortedDesc([s[0]] + rest))
      && (DistinctKeys(s) ==> DistinctKeys([s[0]] + rest))
    ensures (s[0].0 in ks) != inside ==>
      && (forall e :: e in rest <==> e in s && (e.0 in ks) == inside)
      && (SortedDesc(s) ==> SortedDesc(rest))
      && (DistinctKeys(s) ==> DistinctKeys(rest))
  {
    assert s == [s[0]] + s[1..];
    if SortedDesc(s) {
      SortedTail(s);
    }
    if DistinctKeys(s) {
      DistinctTail(s);
    }
    ConsKeepsOrder(s[0], rest);
  }

  /** Putting `e` in front keeps a series sorted and keyed uniquely when `e` fits there. */
  lemma ConsKeepsOrder(e: Entry, s: Series)
    ensures (forall x :: x in s ==> x.1 <= e.1) && SortedDesc(s) ==> SortedDesc([e] + s)
    ensures (forall x :: x in s ==> x.0 != e.0) && DistinctKeys(s) ==> DistinctKeys([e] + s)
  {
    var r := [e] + s;
    assert forall j :: 1 <= j < |r| ==> r[j] == s[j - 1] && r[j] in s;
  }

  /** Inserts `e` in front of the first entry that scores less than it. */
  function Insert(e: Entry, s: Series): (r: Series)
    ensures |r| == |s| + 1
    ensures multiset(r) == multiset(s) + multiset{e}
    ensures SortedDesc(s) ==> SortedDesc(r)
    ensures DistinctKeys(s) && (forall x :: x in s ==> x.0 != e.0) ==> DistinctKeys(r)
  {
    if s == [] then [e]
    else if e.1 >= s[0].1 then
      InsertFront(e, s);
      [e] + s
    else
      var rest := Insert(e, s[1..]);
      InsertBehind(e, s, rest);
      [s[0]] + rest
  }

  lemma InsertFront(e: Entry, s: Series)
    requires s != [] && e.1 >= s[0].1
    ensures SortedDesc(s) ==> SortedDesc([e] + s)
    ensures (forall x :: x in s ==> x.0 != e.0) && DistinctKeys(s) ==> DistinctKeys([e] + s)
  {
    if SortedDesc(s) {
      assert forall x :: x in s ==> x.1 <= s[0].1;
    }
    ConsKeepsOrder(e, s);
  }

  lemma InsertBehind(e: Entry, s: Series, rest: Series)
    requires s != [] && e.1 < s[0].1
    requires multiset(rest) == multiset(s[1..]) + multiset{e}
    requires SortedDesc(s[1..]) ==> SortedDesc(rest)
    requires DistinctKeys(s[1..]) && (forall x :: x in s[1..] ==> x.0 != e.0) ==> DistinctKeys(rest)
    ensures SortedDesc(s) ==> SortedDesc([s[0]] + rest)
    ensures DistinctKeys(s) && (forall x :: x in s ==> x.0 != e.0) ==> DistinctKeys([s[0]] + rest)
    ensures multiset([s[0]] + rest) == multiset(s) + multiset{e}
  {
    assert s == [s[0]] + s[1..];
    assert multiset([s[0]] + rest) == multiset(s) + multiset{e};
    AddedMembers(rest, s[1..], e);
    if SortedDesc(s) {
      SortedTail(s);
    }
    if DistinctKeys(s) {
      DistinctTail(s);
    }
    ConsKeepsOrder(s[0], rest);
  }

  /** A member of a sequence holding `t` and one more `e` is `e` or a member of `t`. */
  lemma AddedMembers<T>(rest: seq<T>, t: seq<T>, e: T)
    requires multiset(rest) == multiset(t) + multiset{e}
    ensures forall x :: x in rest ==> x == e || x in t
  {
    forall x | x in rest ensures x == e || x in t {
      assert x in multiset(rest);
    }
  }

  /** The tail of a sorted series is sorted and scores no more than the head. */
  lemma SortedTail(s: Series)
    requires s != [] && SortedDesc(s)
    ensures SortedDesc(s[1..]) && forall x :: x in s[1..] ==> x.1 <= s[0].1
  {
    forall x | x in s[1..] ensures x.1 <= s[0].1 {
      var j :| 0 <= j < |s[1..]| && s[1..][j] == x;
      assert s[j + 1] == x;
    }
  }

  /**
   * A descending sort by score. pandas' default sort is not stable, so the
   * model claims no order among equal scores; its contract says only that the
   * result is sorted and a permutation of the input.
   */
  function SortDesc(s: Series): (r: Series)
    ensures |r| == |s|
    ensures SortedDesc(r)
    ensures multiset(r) == multiset(s)
    ensures forall x :: x in r <==> x in s
    ensures DistinctKeys(s) ==> DistinctKeys(r)
  {
    if s == [] then []
    else
      var rest := SortDesc(s[1..]);
      var r := Insert(s[0], rest);
      SortCons(s, rest, r);
      r
  }

  /** Inserting the head into the sorted tail sorts the whole series. */
  lemma SortCons(s: Series, rest: Series, r: Series)
    requires s != [] && |rest| == |s| - 1 && SortedDesc(rest)
    requires multiset(rest) == multiset(s[1..])
    requires DistinctKeys(s[1..]) ==> DistinctKeys(rest)
    requires r == Insert(s[0], rest)
    ensures |r| == |s| && SortedDesc(r) && multiset(r) == multiset(s)
    ensures forall x :: x in r <==> x in s
    ensures DistinctKeys(s) ==> DistinctKeys(r)
  {
    SortStep(s, rest);
    PermHead(s, rest, r);
  }

  /** The sorted tail has the tail's members, and none of them shares the head's key when the keys are distinct. */
  lemma SortStep(s: Series, rest: Series)
    requires s != [] && multiset(rest) == multiset(s[1..])
    requires DistinctKeys(s[1..]) ==> DistinctKeys(rest)
    ensures forall x :: x in rest <==> x in s[1..]
    ensures DistinctKeys(s) ==> DistinctKeys(rest) && forall x :: x in rest ==> x.0 != s[0].0
  {
    SameMembers(rest, s[1..]);
    if DistinctKeys(s) {
      DistinctTail(s);
    }
  }

  /** Adding the head to a permutation of the tail gives a permutation of the whole. */
  lemma PermHead<T>(s: seq<T>, rest: seq<T>, r: seq<T>)
    requires s != [] && multiset(rest) == multiset(s[1..])
    requires multiset(r) == multiset(rest) + multiset{s[0]}
    ensures multiset(r) == multiset(s)
    ensures forall x :: x in r <==> x in s
  {
    assert s == [s[0]] + s[1..];
    assert multiset(s) == multiset{s[0]} + multiset(s[1..]);
    SameMembers(r, s);
  }

  lemma DistinctTail(s: Series)
    requires s != [] && DistinctKeys(s)
    ensures DistinctKeys(s[1..]) && forall x :: x in s[1..] ==> x.0 != s[0].0
  {
    forall x | x in s[1..] ensures x.0 != s[0].0 {
      var j :| 0 <= j < |s[1..]| && s[1..][j] == x;
      assert s[j + 1] == x;
    }
  }

  /** Two sequences with the same multiset have the same members. */
  lemma SameMembers<T>(a: seq<T>, b: seq<T>)
    requires multiset(a) == multiset(b)
    ensures forall x :: x in a <==> x in b
  {
    forall x ensures x in a <==> x in b {
      assert x in a <==> x in multiset(a);
      assert x in b <==> x in multiset(b);
    }
  }

  /**
   * The first `k` entries of a sorted series are its top `k`: an entry whose
   * key was cut off leaves exactly `k` entries, none scoring below it.
   */
  lemma TopOfSorted(s: Series, k: nat, e: Entry)
    requires SortedDesc(s) && e in s && e.0 !in Keys(Take(s, k))
    ensures |Take(s, k)| == k
    ensures forall q :: q in Take(s, k) ==> q.1 >= e.1
  {
    var idx :| 0 <= idx < |s| && s[idx] == e;
    assert forall i :: 0 <= i < |Take(s, k)| ==> Keys(Take(s, k))[i] == s[i].0;
    assert idx >= |Take(s, k)|;
  }

  /**
   * `drop(ks)` followed by `sort_values(ascending=False).head(k)`: at most `k`
   * entries of `s` outside `ks`, sorted, and no entry outside `ks` that was
   * cut off scores above a kept one.
   */
  lemma TopKWithout(s: Series, ks: set<Item>, k: nat)
    ensures var out := Take(SortDesc(FilterKeys(s, ks, false)), k);
      && |out| <= k
      && SortedDesc(out)
      && (forall e :: e in out ==> e in s && e.0 !in ks)
      && (forall j :: j in ks ==> j !in Keys(out))
      && (forall e :: e in s && e.0 !in ks && e.0 !in Keys(out) ==>
            |out| == k && forall q :: q in out ==> q.1 >= e.1)
  {
    var sorted := SortDesc(FilterKeys(s, ks, false));
    var out := Take(sorted, k);
    assert forall e :: e in out ==> e in sorted;
    forall j | j in ks ensures j !in Keys(out) {
      forall k | 0 <= k < |out| ensures Keys(out)[k] != j {
        assert out[k] in out;
      }
    }
    forall e | e in s && e.0 !in ks && e.0 !in Keys(out)
      ensures |out| == k && forall q :: q in out ==> q.1 >= e.1
    {
      TopOfSorted(sorted, k, e);
    }
  }

  /** The index of two series placed one after the other. */
  lemma KeysConcat(a: Series, b: Series)
    ensures Keys(a + b) == Keys(a) + Keys(b)
  {
    assert forall i :: 0 <= i < |a + b| ==> Keys(a + b)[i] == (Keys(a) + Keys(b))[i];
  }

  /** The elements of `s` in order of first occurrence, each once. */
  function Dedup<T(==,!new)>(s: seq<T>): (r: seq<T>)
    ensures forall x :: x in r <==> x in s
    ensures forall i, j :: 0 <= i < j < |r| ==> r[i] != r[j]
    ensures |r| <= |s|
  {
    if s == [] then []
    else
      var rest := Dedup(s[..|s| - 1]);
      if s[|s| - 1] in rest then rest else rest + [s[|s| - 1]]
  }

  /** A sequence without repetitions is its own `Dedup`. */
  lemma {:induction false} DedupDistinct<T(!new)>(s: seq<T>)
    requires forall i, j :: 0 <= i < j < |s| ==> s[i] != s[j]
    ensures Dedup(s) == s
  {
    if s != [] {
      var init := s[..|s| - 1];
      DedupDistinct(init);
      assert s[|s| - 1] !in init;
      assert init + [s[|s| - 1]] == s;
    }
  }

  /** A series whose scores strictly decrease is already in its only sorted order. */
  lemma {:induction false} SortDescOfStrict(s: Series)
    requires forall i, j :: 0 <= i < j < |s| ==> s[i].1 > s[j].1
    ensures SortDesc(s) == s
  {
    if s != [] {
      SortDescOfStrict(s[1..]);
      assert [s[0]] + s[1..] == s;
    }
  }
}
