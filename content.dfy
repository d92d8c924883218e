/**
 * The content-based channel: the profile text built for every catalog row,
 * the recency-weighted similarity score with its style boost, and the
 * similar-items lookup.
 */
module Content {
  import opened Wrappers
  import opened Scores
  import opened Text
  import opened Records

  /** Columns of the catalog that are never attributes. */
  const MetaColumns: seq<string> := ["image_path", "brand", "category_name", "description", "collection", "price", "text"]

  /** `a` can be obtained from `b` by deleting elements: its elements occur in `b` in the same order. */
  predicate SubsequenceOf<T(==)>(a: seq<T>, b: seq<T>)
    decreases |b|
  {
    if a == [] then true
    else if b == [] then false
    else (a[0] == b[0] && SubsequenceOf(a[1..], b[1..])) || SubsequenceOf(a, b[1..])
  }

  /** `row[col] == 1` for an attribute column; a column the row has no number for is not set. */
  predicate IsSet(rec: ItemRecord, col: string) {
    col in rec.attributes && rec.attributes[col] == 1.0
  }

  /**
   * The names `attr_text` joins: the attribute columns (those outside the
   * metadata columns) whose value in this row is 1, in column order.
   */
  function AttrNames(columns: seq<string>, rec: ItemRecord): (r: seq<string>)
    ensures forall c :: c in r <==> c in columns && c !in MetaColumns && IsSet(rec, c)
    ensures SubsequenceOf(r, columns)
  {
    if columns == [] then []
    else
      var rest := AttrNames(columns[1..], rec);
      if columns[0] !in MetaColumns && IsSet(rec, columns[0]) then [columns[0]] + rest else rest
  }

  /** The `attr_text` column for one row. */
  function AttrText(columns: seq<string>, rec: ItemRecord): string {
    Join(AttrNames(columns, rec), " ")
  }

  /** The six fields the `text` column joins, in order. */
  function ProfileFields(rec: ItemRecord, attrText: string): seq<string> {
    [rec.category, rec.brand, rec.description, rec.collection, rec.price, attrText]
  }

  /** The `text` column for one row: the fields separated by spaces, then lower-cased and stripped. */
  function ProfileText(rec: ItemRecord, attrText: string): string {
    Strip(Lower(rec.category + " " + rec.brand + " " + rec.description + " " +
                rec.collection + " " + rec.price + " " + attrText))
  }

  /** The `+ " " +` chain of the source is the `" ".join` of the six fields. */
  lemma ConcatIsJoin(rec: ItemRecord, attrText: string)
    ensures rec.category + " " + rec.brand + " " + rec.description + " " + rec.collection + " " + rec.price + " " + attrText
      == Join(ProfileFields(rec, attrText), " ")
  {
    var fs := ProfileFields(rec, attrText);
    assert Join(fs[5..], " ") == attrText;
    assert Join(fs[4..], " ") == rec.price + " " + attrText by { assert fs[4..][1..] == fs[5..]; }
    assert Join(fs[3..], " ") == rec.collection + " " + (rec.price + " " + attrText) by { assert fs[3..][1..] == fs[4..]; }
    assert Join(fs[2..], " ") == rec.description + " " + (rec.collection + " " + (rec.price + " " + attrText)) by { assert fs[2..][1..] == fs[3..]; }
    assert Join(fs[1..], " ") == rec.brand + " " + (rec.description + " " + (rec.collection + " " + (rec.price + " " + attrText))) by { assert fs[1..][1..] == fs[2..]; }
  }

  /** `text` is the `" ".join` of the six lower-cased fields, stripped. */
  lemma ProfileTextIsJoin(rec: ItemRecord, attrText: string)
    ensures ProfileText(rec, attrText) == Strip(Join(LowerAll(ProfileFields(rec, attrText)), " "))
  {
    ConcatIsJoin(rec, attrText);
    LowerJoin(ProfileFields(rec, attrText), " ");
    assert Lower(" ") == " ";
  }

  /** `text` has no whitespace at either end, no upper-case letter, and stripping it again changes nothing. */
  lemma ProfileTextClean(rec: ItemRecord, attrText: string)
    ensures var t := ProfileText(rec, attrText);
      && (t != [] ==> !IsSpace(t[0]) && !IsSpace(t[|t| - 1]))
      && (forall i :: 0 <= i < |t| ==> !IsUpper(t[i]))
      && Strip(t) == t
  {
    LowerStripClean(rec.category + " " + rec.brand + " " + rec.description + " " +
                    rec.collection + " " + rec.price + " " + attrText);
  }

  /**
   * A row with no attribute set: the trailing separator is stripped away, and
   * `text` is the lower-cased five metadata fields, provided the category
   * does not start and the price does not end with whitespace.
   */
  lemma ProfileTextWithoutAttributes(rec: ItemRecord)
    requires rec.category != [] && !IsSpace(rec.category[0])
    requires rec.price != [] && !IsSpace(rec.price[|rec.price| - 1])
    ensures ProfileText(rec, "") ==
      Lower(rec.category + " " + rec.brand + " " + rec.description + " " + rec.collection + " " + rec.price)
  {
    var body := rec.category + " " + rec.brand + " " + rec.description + " " + rec.collection + " " + rec.price;
    assert body + " " + "" == body + " ";
    assert body[0] == rec.category[0];
    assert body[|body| - 1] == rec.price[|rec.price| - 1];
    StripTrailingBlank(body);
  }

  /** The catalog DataFrame that `build_item_profiles` adds its two columns to. */
  class ItemTable {
    var columns: seq<string>
    var rows: seq<ItemRecord>
    var attrText: seq<string>
    var text: seq<string>

    constructor (columns: seq<string>, rows: seq<ItemRecord>)
      ensures this.columns == columns && this.rows == rows
      ensures attrText == [] && text == []
    {
      this.columns := columns;
      this.rows := rows;
      attrText := [];
      text := [];
    }

    /**
     * Assigns the `attr_text` and `text` columns; a column not yet present is
     * appended to the column list. The rows themselves are not touched.
     */
    method BuildItemProfiles()
      modifies this
      ensures rows == old(rows)
      ensures columns == old(columns) + (if "attr_text" in old(columns) then [] else ["attr_text"])
                                      + (if "text" in old(columns) then [] else ["text"])
      ensures |attrText| == |rows| && |text| == |rows|
      ensures forall k :: 0 <= k < |rows| ==> attrText[k] == AttrText(old(columns), rows[k])
      ensures forall k :: 0 <= k < |rows| ==> text[k] == ProfileText(rows[k], attrText[k])
    {
      var cols := columns;
      attrText := seq(|rows|, k requires 0 <= k < |rows| reads this => AttrText(cols, rows[k]));
      if "attr_text" !in columns {
        columns := columns + ["attr_text"];
      }
      text := seq(|rows|, k requires 0 <= k < |rows| && |attrText| == |rows| reads this => ProfileText(rows[k], attrText[k]));
      if "text" !in cols {
        columns := columns + ["text"];
      }
    }
  }

  /** The user's interactions as (item, timestamp) pairs, in log order. */
  function History(rs: seq<Interaction>, u: User): (h: Series)
    ensures |h| == |OfUser(rs, u)|
    ensures forall k :: 0 <= k < |h| ==> h[k] == (OfUser(rs, u)[k].item, OfUser(rs, u)[k].timestamp as real)
  {
    var us := OfUser(rs, u);
    seq(|us|, k requires 0 <= k < |us| => (us[k].item, us[k].timestamp as real))
  }

  /** `sort_values("timestamp", ascending=False).head(5)`: the five latest interactions. */
  function RecentPairs(rs: seq<Interaction>, u: User): Series {
    Take(SortDesc(History(rs, u)), 5)
  }

  /** `recent_items`: the items of the five latest interactions, latest first. */
  function Recent(rs: seq<Interaction>, u: User): seq<Item> {
    Keys(RecentPairs(rs, u))
  }

  /**
   * The user's history splits into the recent pairs and the older rest; no
   * older interaction is later than a recent one, and no more than five are recent.
   */
  lemma RecentAreLatest(rs: seq<Interaction>, u: User)
    ensures var h := History(rs, u);
      var s := SortDesc(h);
      var recent := RecentPairs(rs, u);
      && |recent| == (if |h| <= 5 then |h| else 5)
      && |Recent(rs, u)| == |recent|
      && multiset(recent) + multiset(s[|recent|..]) == multiset(h)
      && (forall p, q :: p in recent && q in s[|recent|..] ==> p.1 >= q.1)
      && (forall p :: p in recent ==> exists x :: x in rs && x.user == u && p == (x.item, x.timestamp as real))
  {
    var h := History(rs, u);
    var s := SortDesc(h);
    var recent := RecentPairs(rs, u);
    SortedSplit(s, |recent|);
    RecentFromLog(rs, u);
  }

  /** Cutting a sorted series leaves no entry after the cut scoring above one before it. */
  lemma SortedSplit(s: Series, k: nat)
    requires SortedDesc(s) && k <= |s|
    ensures multiset(s[..k]) + multiset(s[k..]) == multiset(s)
    ensures forall p, q :: p in s[..k] && q in s[k..] ==> p.1 >= q.1
  {
    assert s == s[..k] + s[k..];
    forall p, q | p in s[..k] && q in s[k..] ensures p.1 >= q.1 {
      var i :| 0 <= i < k && s[..k][i] == p;
      var j :| 0 <= j < |s[k..]| && s[k..][j] == q;
      assert s[i] == p && s[k + j] == q;
    }
  }

  /** Every recent pair is the item and timestamp of one of the user's rows. */
  lemma RecentFromLog(rs: seq<Interaction>, u: User)
    ensures forall p :: p in RecentPairs(rs, u) ==> exists x :: x in rs && x.user == u && p == (x.item, x.timestamp as real)
  {
    var h := History(rs, u);
    var recent := RecentPairs(rs, u);
    forall p | p in recent ensures exists x :: x in rs && x.user == u && p == (x.item, x.timestamp as real) {
      assert p in SortDesc(h);
      var k :| 0 <= k < |h| && h[k] == p;
      assert OfUser(rs, u)[k] in OfUser(rs, u);
    }
  }

  /** The contribution of the item at 0-based `rank`: its similarity column weighted by 1/(rank+1), or nothing off the frame. */
  function Contribution(f: Frame, recent: seq<Item>, j: Item, rank: nat): real
    requires rank < |recent|
  {
    if recent[rank] in f.labels then At(f, j, recent[rank]) * (1.0 / (rank + 1) as real) else 0.0
  }

  /** The score of row `j` after the first `n` recent items. */
  function AffinityUpTo(f: Frame, recent: seq<Item>, j: Item, n: nat): real
    requires n <= |recent|
  {
    if n == 0 then 0.0 else AffinityUpTo(f, recent, j, n - 1) + Contribution(f, recent, j, n - 1)
  }

  /** The recency-weighted similarity of row `j` to the recent items. */
  function Affinity(f: Frame, recent: seq<Item>, j: Item): real {
    AffinityUpTo(f, recent, j, |recent|)
  }

  /** Recent items none of which is a column of the frame contribute nothing. */
  lemma {:induction false} AffinityOffFrame(f: Frame, recent: seq<Item>, j: Item, n: nat)
    requires n <= |recent|
    requires forall r :: 0 <= r < |recent| ==> recent[r] !in f.labels
    ensures AffinityUpTo(f, recent, j, n) == 0.0
  {
    if n > 0 {
      AffinityOffFrame(f, recent, j, n - 1);
    }
  }

  /** The latest item counts in full, the second latest by one half, the third by one third. */
  lemma AffinityWeights(f: Frame, a: Item, b: Item, c: Item, j: Item)
    requires a in f.labels && b in f.labels && c in f.labels
    ensures Affinity(f, [a, b, c], j) == At(f, j, a) + At(f, j, b) / 2.0 + At(f, j, c) / 3.0
  {
    var recent := [a, b, c];
    assert Contribution(f, recent, j, 0) == At(f, j, a);
    assert Contribution(f, recent, j, 1) == At(f, j, b) / 2.0;
    assert Contribution(f, recent, j, 2) == At(f, j, c) / 3.0;
    assert AffinityUpTo(f, recent, j, 1) == At(f, j, a);
    assert AffinityUpTo(f, recent, j, 2) == At(f, j, a) + At(f, j, b) / 2.0;
  }

  /**
   * A recent item outside the frame's columns still takes up its rank: with
   * the second of three off the frame, the third keeps the weight 1/3.
   */
  lemma AffinitySkipKeepsRank(f: Frame, a: Item, b: Item, c: Item, j: Item)
    requires a in f.labels && b !in f.labels && c in f.labels
    ensures Affinity(f, [a, b, c], j) == At(f, j, a) + At(f, j, c) / 3.0
  {
    var recent := [a, b, c];
    assert Contribution(f, recent, j, 0) == At(f, j, a);
    assert Contribution(f, recent, j, 1) == 0.0;
    assert Contribution(f, recent, j, 2) == At(f, j, c) / 3.0;
    assert AffinityUpTo(f, recent, j, 1) == At(f, j, a);
    assert AffinityUpTo(f, recent, j, 2) == At(f, j, a);
  }

  /** The catalog ids whose description contains the style preference, ignoring case. */
  function StyleMatched(items: seq<ItemRecord>, style: string): (m: set<Item>)
    ensures forall i :: i in m <==> exists k :: 0 <= k < |items| && items[k].id == i && ContainsIgnoreCase(items[k].description, style)
  {
    set k | 0 <= k < |items| && ContainsIgnoreCase(items[k].description, style) :: items[k].id
  }

  /** `*= 1.2` on the style-matched ids. */
  function Boost(a: real, matched: set<Item>, j: Item): real {
    if j in matched then a * 1.2 else a
  }

  /** The scores over the frame's rows before seen items are dropped. */
  function Scored(f: Frame, recent: seq<Item>, matched: set<Item>): (r: Series)
    ensures Keys(r) == f.labels
    ensures forall k :: 0 <= k < |r| ==> r[k].1 == Boost(Affinity(f, recent, r[k].0), matched, r[k].0)
  {
    seq(|f.labels|, k requires 0 <= k < |f.labels| =>
      (f.labels[k], Boost(Affinity(f, recent, f.labels[k]), matched, f.labels[k])))
  }

  /** `user_items["image_path"].unique()`, as a set. */
  function SeenItems(rs: seq<Interaction>, u: User): (s: set<Item>)
    ensures forall i :: i in s <==> exists x :: x in rs && x.user == u && x.item == i
  {
    set x | x in OfUser(rs, u) :: x.item
  }

  /** The profile `.iloc[0]` picks: the first row with the user's id. */
  function FirstProfile(users: seq<UserProfile>, u: User): (p: Option<UserProfile>)
    ensures p.None? <==> forall q :: q in users ==> q.id != u
    ensures p.Some? ==> p.value in users && p.value.id == u
    ensures p.Some? ==> exists k :: 0 <= k < |users| && users[k] == p.value && forall l :: 0 <= l < k ==> users[l].id != u
  {
    if users == [] then None
    else if users[0].id == u then Some(users[0])
    else
      var p := FirstProfile(users[1..], u);
      if p.Some? then
        var k :| 0 <= k < |users[1..]| && users[1..][k] == p.value && forall l :: 0 <= l < k ==> users[1..][l].id != u;
        assert users[k + 1] == p.value && forall l :: 0 <= l < k + 1 ==> users[l].id != u;
        p
      else p
  }

  /** `recommend_for_user`, as a function of its inputs. */
  function ForUser(u: User, items: seq<ItemRecord>, f: Frame, rs: seq<Interaction>, users: seq<UserProfile>,
                   topK: nat, coldSample: seq<Item>): Result<Series>
  {
    if u !in UserColumn(rs) then
      if topK > |items| then Raise(ValueError) else Ok(Constant(coldSample, 1.0))
    else
      match FirstProfile(users, u)
      case None => Raise(IndexError)
      case Some(p) => KnownUser(u, items, f, rs, p.stylePref, topK)
  }

  /** The part of `recommend_for_user` after the profile lookup, for a user with interactions and style `style`. */
  function KnownUser(u: User, items: seq<ItemRecord>, f: Frame, rs: seq<Interaction>, style: string, topK: nat): Result<Series> {
    var matched := StyleMatched(items, style);
    if exists i :: i in matched && i !in f.labels then Raise(KeyError)
    else Ok(Take(SortDesc(FilterKeys(Scored(f, Recent(rs, u), matched), SeenItems(rs, u), false)), topK))
  }

  /** The `for rank, item in enumerate(recent_items)` loop: adds each recent item's weighted similarity column. */
  method AccumulateAffinity(f: Frame, recent: seq<Item>) returns (scores: seq<real>)
    ensures |scores| == |f.labels|
    ensures forall k :: 0 <= k < |f.labels| ==> scores[k] == Affinity(f, recent, f.labels[k])
  {
    scores := seq(|f.labels|, k requires 0 <= k < |f.labels| => 0.0);
    for rank := 0 to |recent|
      invariant |scores| == |f.labels|
      invariant forall k :: 0 <= k < |f.labels| ==> scores[k] == AffinityUpTo(f, recent, f.labels[k], rank)
    {
      if recent[rank] in f.labels {
        var weight := 1.0 / (rank + 1) as real;
        var column := Column(f, recent[rank]);
        assert forall k :: 0 <= k < |f.labels| ==> column[k].1 == At(f, f.labels[k], recent[rank]) by {
          assert forall k :: 0 <= k < |f.labels| ==> Keys(column)[k] == column[k].0;
        }
        var prev := scores;
        scores := seq(|f.labels|, k requires 0 <= k < |f.labels| => prev[k] + column[k].1 * weight);
      }
    }
  }

  /**
   * Accumulates the recency-weighted similarity columns in a loop, boosts the
   * style-matched ids, drops the seen items and keeps the `topK` best.
   */
  method RecommendForUser(u: User, items: seq<ItemRecord>, f: Frame, rs: seq<Interaction>, users: seq<UserProfile>,
                          topK: nat, coldSample: seq<Item>) returns (r: Result<Series>)
    ensures r == ForUser(u, items, f, rs, users, topK, coldSample)
  {
    if u !in UserColumn(rs) {
      if topK > |items| {
        return Raise(ValueError);
      }
      return Ok(Constant(coldSample, 1.0));
    }
    var profile := FirstProfile(users, u);
    if profile.None? {
      return Raise(IndexError);
    }
    r := ScoreKnownUser(u, items, f, rs, profile.value.stylePref, topK);
  }

  /** Scores, boosts, drops and ranks for a user with interactions and style `style`. */
  method ScoreKnownUser(u: User, items: seq<ItemRecord>, f: Frame, rs: seq<Interaction>, style: string, topK: nat)
    returns (r: Result<Series>)
    ensures r == KnownUser(u, items, f, rs, style, topK)
  {
    var recent := Recent(rs, u);
    var scores := AccumulateAffinity(f, recent);
    var matched := StyleMatched(items, style);
    if exists i :: i in matched && i !in f.labels {
      return Raise(KeyError);
    }
    var prev := scores;
    scores := seq(|f.labels|, k requires 0 <= k < |f.labels| => if f.labels[k] in matched then prev[k] * 1.2 else prev[k]);
    assert forall k :: 0 <= k < |f.labels| ==> scores[k] == Boost(prev[k], matched, f.labels[k]);
    var series := seq(|f.labels|, k requires 0 <= k < |f.labels| => (f.labels[k], scores[k]));
    BoostedIsScored(f, recent, matched, scores);
    r := Ok(Take(SortDesc(FilterKeys(series, SeenItems(rs, u), false)), topK));
  }

  /** Pairing the frame's rows with their boosted affinities gives `Scored`. */
  lemma BoostedIsScored(f: Frame, recent: seq<Item>, matched: set<Item>, scores: seq<real>)
    requires |scores| == |f.labels|
    requires forall k :: 0 <= k < |f.labels| ==> scores[k] == Boost(Affinity(f, recent, f.labels[k]), matched, f.labels[k])
    ensures seq(|f.labels|, k requires 0 <= k < |f.labels| => (f.labels[k], scores[k])) == Scored(f, recent, matched)
  {
    var series := seq(|f.labels|, k requires 0 <= k < |f.labels| => (f.labels[k], scores[k]));
    var sc := Scored(f, recent, matched);
    forall k | 0 <= k < |f.labels| ensures series[k] == sc[k] {
      assert Keys(sc)[k] == sc[k].0;
    }
  }

  /**
   * The error cases, in the order the code meets them: a user with no
   * interactions and more requested than the catalog holds, a user with
   * interactions but no profile, and a style-matched catalog id the frame lacks.
   */
  lemma ForUserErrors(u: User, items: seq<ItemRecord>, f: Frame, rs: seq<Interaction>, users: seq<UserProfile>,
                      topK: nat, coldSample: seq<Item>)
    ensures var r := ForUser(u, items, f, rs, users, topK, coldSample);
      && (r == Raise(ValueError) <==> (forall x :: x in rs ==> x.user != u) && topK > |items|)
      && (r == Raise(IndexError) <==> (exists x :: x in rs && x.user == u) && (forall p :: p in users ==> p.id != u))
      && (r == Raise(KeyError) <==>
            (exists x :: x in rs && x.user == u) && FirstProfile(users, u).Some? &&
            exists k :: 0 <= k < |items| && items[k].id !in f.labels &&
              ContainsIgnoreCase(items[k].description, FirstProfile(users, u).value.stylePref))
  {
    UserColumnMembers(rs, u);
  }

  /** A user without interactions gets the drawn catalog ids, each scored 1.0, when the draw is possible. */
  lemma ForUserColdStart(u: User, items: seq<ItemRecord>, f: Frame, rs: seq<Interaction>, users: seq<UserProfile>,
                         topK: nat, coldSample: seq<Item>)
    requires forall x :: x in rs ==> x.user != u
    requires topK <= |items|
    ensures ForUser(u, items, f, rs, users, topK, coldSample).Ok?
    ensures var out := ForUser(u, items, f, rs, users, topK, coldSample).value;
      Keys(out) == coldSample && forall e :: e in out ==> e.1 == 1.0
  {
    UserColumnMembers(rs, u);
  }

  lemma ScoredMembers(f: Frame, recent: seq<Item>, matched: set<Item>)
    ensures forall e :: e in Scored(f, recent, matched) ==> e.0 in f.labels && e.1 == Boost(Affinity(f, recent, e.0), matched, e.0)
    ensures forall j :: j in f.labels ==> (j, Boost(Affinity(f, recent, j), matched, j)) in Scored(f, recent, matched)
  {
    var s := Scored(f, recent, matched);
    forall e | e in s ensures e.0 in f.labels && e.1 == Boost(Affinity(f, recent, e.0), matched, e.0) {
      var k :| 0 <= k < |s| && s[k] == e;
      assert Keys(s)[k] == e.0;
    }
    forall j | j in f.labels ensures (j, Boost(Affinity(f, recent, j), matched, j)) in s {
      var k :| 0 <= k < |f.labels| && f.labels[k] == j;
      assert Keys(s)[k] == j && s[k] in s;
    }
  }

  /** The ranking of the boosted scores with the seen items dropped. */
  lemma ScoredRanking(f: Frame, recent: seq<Item>, matched: set<Item>, seen: set<Item>, topK: nat)
    ensures var out := Take(SortDesc(FilterKeys(Scored(f, recent, matched), seen, false)), topK);
      && |out| <= topK
      && SortedDesc(out)
      && (forall j :: j in seen ==> j !in Keys(out))
      && (forall e :: e in out ==> e.0 in f.labels && e.1 == Boost(Affinity(f, recent, e.0), matched, e.0))
      && (forall j :: j in f.labels && j !in seen && j !in Keys(out) ==>
            |out| == topK && forall e :: e in out ==> e.1 >= Boost(Affinity(f, recent, j), matched, j))
  {
    var s := Scored(f, recent, matched);
    ScoredMembers(f, recent, matched);
    TopKWithout(s, seen, topK);
  }

  /**
   * The ranking for a known user: at most `topK` rows of the frame, sorted
   * descending, none the user interacted with, each scored by its affinity to
   * the recent items times 1.2 exactly when the style matches, and no unseen
   * row left out scores above a kept one.
   */
  lemma ForUserRanking(u: User, items: seq<ItemRecord>, f: Frame, rs: seq<Interaction>, users: seq<UserProfile>,
                       topK: nat, coldSample: seq<Item>)
    requires ForUser(u, items, f, rs, users, topK, coldSample).Ok?
    requires exists x :: x in rs && x.user == u
    ensures FirstProfile(users, u).Some?
    ensures var out := ForUser(u, items, f, rs, users, topK, coldSample).value;
      var style := FirstProfile(users, u).value.stylePref;
      && |out| <= topK
      && SortedDesc(out)
      && (forall x :: x in rs && x.user == u ==> x.item !in Keys(out))
      && (forall e :: e in out ==>
            (e.0 in f.labels && e.1 == Boost(Affinity(f, Recent(rs, u), e.0), StyleMatched(items, style), e.0)))
      && (forall j :: j in f.labels && j !in SeenItems(rs, u) && j !in Keys(out) ==>
            (|out| == topK &&
             forall e :: e in out ==> e.1 >= Boost(Affinity(f, Recent(rs, u), j), StyleMatched(items, style), j)))
  {
    UserColumnMembers(rs, u);
    var style := FirstProfile(users, u).value.stylePref;
    assert ForUser(u, items, f, rs, users, topK, coldSample) == KnownUser(u, items, f, rs, style, topK);
    var matched := StyleMatched(items, style);
    ScoredRanking(f, Recent(rs, u), matched, SeenItems(rs, u), topK);
    forall x | x in rs && x.user == u ensures x.item in SeenItems(rs, u) {
    }
  }

  /** `recommend_similar_items`: the query item's column, sorted, without the item itself. */
  function SimilarItems(item: Item, f: Frame, topK: nat): Result<Series> {
    if item !in f.labels then Raise(ValueError)
    else Ok(Take(FilterKeys(SortDesc(Column(f, item)), {item}, false), topK))
  }

  /**
   * Fails exactly for an id the frame lacks; otherwise at most `topK` other
   * rows with their similarity to the item, sorted descending, and no other
   * row left out is more similar than a kept one.
   */
  lemma SimilarItemsSpec(item: Item, f: Frame, topK: nat)
    ensures SimilarItems(item, f, topK) == Raise(ValueError) <==> item !in f.labels
    ensures item in f.labels ==>
      var out := SimilarItems(item, f, topK).value;
      && |out| <= topK
      && SortedDesc(out)
      && item !in Keys(out)
      && (forall e :: e in out ==> e.0 in f.labels && e.1 == At(f, e.0, item))
      && (forall j :: j in f.labels && j != item && j !in Keys(out) ==>
            |out| == topK && forall e :: e in out ==> e.1 >= At(f, j, item))
  {
    if item in f.labels {
      var col := Column(f, item);
      var rest := FilterKeys(SortDesc(col), {item}, false);
      var out := Take(rest, topK);
      assert forall e :: e in out ==> e in rest;
      forall e | e in col ensures e.0 in f.labels && e.1 == At(f, e.0, item) {
        var k :| 0 <= k < |col| && col[k] == e;
        assert Keys(col)[k] == e.0;
      }
      forall k | 0 <= k < |out| ensures Keys(out)[k] != item {
        assert out[k] in rest;
      }
      forall j | j in f.labels && j != item && j !in Keys(out)
        ensures |out| == topK && forall e :: e in out ==> e.1 >= At(f, j, item)
      {
        var k :| 0 <= k < |f.labels| && f.labels[k] == j;
        assert Keys(col)[k] == j && col[k] in col;
        TopOfSorted(rest, topK, col[k]);
      }
    }
  }
}
