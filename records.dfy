/** The records the recommender reads: interactions, user profiles, catalog rows and similarity frames. */
module Records {
  import opened Scores

  type User = string

  /**
   * One row of the interaction log. The log stores timestamps as
   * "%Y-%m-%d %H:%M:%S" strings, whose string order is their time order;
   * the model keeps that order as an integer.
   */
  datatype Interaction = Interaction(user: User, item: Item, score: real, timestamp: int)

  /** One row of the user table; only `style_pref` is read. */
  datatype UserProfile = UserProfile(id: User, stylePref: string)

  /**
   * One catalog row: the metadata columns, with `price` already rendered by
   * `astype(str)`, and the numeric attribute columns by column name.
   */
  datatype ItemRecord = ItemRecord(
    id: Item, brand: string, category: string, description: string,
    collection: string, price: string, attributes: map<string, real>)

  /**
   * A square similarity DataFrame whose rows and columns are both `labels`;
   * `cell` holds the value at (row, column).
   */
  datatype Frame = Frame(labels: seq<Item>, cell: map<(Item, Item), real>)

  /** The value at (row, col); a cell the map lacks reads as 0 in arithmetic. */
  function At(f: Frame, row: Item, col: Item): real {
    if (row, col) in f.cell then f.cell[(row, col)] else 0.0
  }

  /** `f[col]`: the column `col` as a series over the row labels. */
  function Column(f: Frame, col: Item): (r: Series)
    ensures Keys(r) == f.labels
    ensures forall i :: 0 <= i < |r| ==> r[i].1 == At(f, r[i].0, col)
  {
    seq(|f.labels|, i requires 0 <= i < |f.labels| => (f.labels[i], At(f, f.labels[i], col)))
  }

  /** `set(df_items["image_path"].unique())`: the ids of the catalog. */
  function CatalogIds(items: seq<ItemRecord>): (ids: set<Item>)
    ensures forall k :: k in ids <==> exists r :: r in items && r.id == k
  {
    set r | r in items :: r.id
  }

  /** The `item` column of the log, in log order. */
  function ItemColumn(rs: seq<Interaction>): (r: seq<Item>)
    ensures |r| == |rs| && forall k :: 0 <= k < |rs| ==> r[k] == rs[k].item
  {
    seq(|rs|, k requires 0 <= k < |rs| => rs[k].item)
  }

  /** The `user_id` column of the log, in log order. */
  function UserColumn(rs: seq<Interaction>): (r: seq<User>)
    ensures |r| == |rs| && forall k :: 0 <= k < |rs| ==> r[k] == rs[k].user
  {
    seq(|rs|, k requires 0 <= k < |rs| => rs[k].user)
  }

  /** The rows of the log that belong to `u`, in log order. */
  function OfUser(rs: seq<Interaction>, u: User): (r: seq<Interaction>)
    ensures forall x :: x in r <==> x in rs && x.user == u
  {
    if rs == [] then []
    else (if rs[0].user == u then [rs[0]] else []) + OfUser(rs[1..], u)
  }

  /** Each of the user's rows is kept as often as the log holds it, and no other row is kept. */
  lemma {:induction false} OfUserCount(rs: seq<Interaction>, u: User)
    ensures forall x :: multiset(OfUser(rs, u))[x] == if x.user == u then multiset(rs)[x] else 0
  {
    if rs != [] {
      OfUserCount(rs[1..], u);
      assert rs == [rs[0]] + rs[1..];
    }
  }

  /** The selection keeps log order: filtering a concatenation concatenates the filtered parts. */
  lemma {:induction false} OfUserConcat(a: seq<Interaction>, b: seq<Interaction>, u: User)
    ensures OfUser(a + b, u) == OfUser(a, u) + OfUser(b, u)
  {
    if a != [] {
      OfUserConcat(a[1..], b, u);
      assert (a + b)[1..] == a[1..] + b;
    } else {
      assert a + b == b;
    }
  }

  /** `u in df["user_id"].unique()`: some row of the log belongs to `u`. */
  lemma UserColumnMembers(rs: seq<Interaction>, u: User)
    ensures u in UserColumn(rs) <==> exists x :: x in rs && x.user == u
  {
    if u in UserColumn(rs) {
      var k :| 0 <= k < |rs| && UserColumn(rs)[k] == u;
      assert rs[k] in rs;
    }
    if exists x :: x in rs && x.user == u {
      var x :| x in rs && x.user == u;
      var k :| 0 <= k < |rs| && rs[k] == x;
      assert UserColumn(rs)[k] == u;
    }
  }

  /** An id is in the `item_id` column exactly when some row of the log has it. */
  lemma ItemColumnMembers(rs: seq<Interaction>, i: Item)
    ensures i in ItemColumn(rs) <==> exists x :: x in rs && x.item == i
  {
    if i in ItemColumn(rs) {
      var k :| 0 <= k < |rs| && ItemColumn(rs)[k] == i;
      assert rs[k] in rs;
    }
    if exists x :: x in rs && x.item == i {
      var x :| x in rs && x.item == i;
      var k :| 0 <= k < |rs| && rs[k] == x;
      assert ItemColumn(rs)[k] == i;
    }
  }
}
