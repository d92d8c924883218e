/**
 * `explain_recommendation`: the sentence that says why an item was shown to
 * a user, from the catalog, the user profiles and the interaction log.
 */
module Explain {
  import opened Wrappers
  import opened Scores
  import opened Text
  import opened Records
  import Content

  const NotInCatalog: string := "Recommended based on your general preferences (item not found in catalog)."
  const NoProfile: string := "Recommended based on popular trends (new user with no profile)."
  const Because: string := "Recommended because "
  const StylePrefix: string := "Recommended because it matches your style preference: "

  /** The category reason. */
  function Viewed(category: string): string {
    "you viewed " + category + " before"
  }

  /** The brand reason. */
  function Liked(brand: string): string {
    "you liked " + brand
  }

  /** The catalog row `.iloc[0]` picks: the first row with the id. */
  function FirstRow(items: seq<ItemRecord>, id: Item): (r: Option<ItemRecord>)
    ensures r.None? <==> forall x :: x in items ==> x.id != id
    ensures r.Some? ==> r.value in items && r.value.id == id
    ensures r.Some? ==> exists k :: 0 <= k < |items| && items[k] == r.value && forall l :: 0 <= l < k ==> items[l].id != id
  {
    if items == [] then None
    else if items[0].id == id then Some(items[0])
    else
      var r := FirstRow(items[1..], id);
      if r.Some? then
        var k :| 0 <= k < |items[1..]| && items[1..][k] == r.value && forall l :: 0 <= l < k ==> items[1..][l].id != id;
        assert items[k + 1] == r.value && forall l :: 0 <= l < k + 1 ==> items[l].id != id;
        r
      else r
  }

  /** `df_items[df_items["image_path"].isin(user_items)]`: the catalog rows of items the user interacted with, in catalog order. */
  function InteractedRows(items: seq<ItemRecord>, rs: seq<Interaction>, u: User): (r: seq<ItemRecord>)
    ensures forall x :: x in r <==> x in items && x.id in Content.SeenItems(rs, u)
  {
    if items == [] then []
    else
      (if items[0].id in Content.SeenItems(rs, u) then [items[0]] else []) + InteractedRows(items[1..], rs, u)
  }

  /** The `category_name` column of some rows. */
  function Categories(rows: seq<ItemRecord>): (r: seq<string>)
    ensures forall c :: c in r <==> exists x :: x in rows && x.category == c
  {
    if rows == [] then [] else [rows[0].category] + Categories(rows[1..])
  }

  /** The `brand` column of some rows. */
  function Brands(rows: seq<ItemRecord>): (r: seq<string>)
    ensures forall b :: b in r <==> exists x :: x in rows && x.brand == b
  {
    if rows == [] then [] else [rows[0].brand] + Brands(rows[1..])
  }

  /** Some catalog row of an item the user interacted with has category `c`. */
  predicate ViewedCategory(items: seq<ItemRecord>, rs: seq<Interaction>, u: User, c: string) {
    exists x :: x in items && (exists i :: i in rs && i.user == u && i.item == x.id) && x.category == c
  }

  /** Some catalog row of an item the user interacted with has brand `b`. */
  predicate LikedBrand(items: seq<ItemRecord>, rs: seq<Interaction>, u: User, b: string) {
    exists x :: x in items && (exists i :: i in rs && i.user == u && i.item == x.id) && x.brand == b
  }

  /**
   * `explain_recommendation`. The catalog check comes before the profile
   * check; the category reason, when present, precedes the brand reason;
   * with no reason the user's style preference is quoted.
   */
  method ExplainRecommendation(item: Item, u: User, items: seq<ItemRecord>, users: seq<UserProfile>,
                               rs: seq<Interaction>) returns (msg: string)
    ensures (forall x :: x in items ==> x.id != item) ==> msg == NotInCatalog
    ensures (exists x :: x in items && x.id == item) && (forall p :: p in users ==> p.id != u) ==> msg == NoProfile
    ensures (exists x :: x in items && x.id == item) && (exists p :: p in users && p.id == u) ==>
      var row := FirstRow(items, item).value;
      var viewed := ViewedCategory(items, rs, u, row.category);
      var liked := LikedBrand(items, rs, u, row.brand);
      msg == (if viewed && liked then Because + Viewed(row.category) + " and " + Liked(row.brand) + "."
              else if viewed then Because + Viewed(row.category) + "."
              else if liked then Because + Liked(row.brand) + "."
              else StylePrefix + Content.FirstProfile(users, u).value.stylePref + ".")
  {
    var row := FirstRow(items, item);
    if row.None? {
      return NotInCatalog;
    }
    var meta := Content.FirstProfile(users, u);
    if meta.None? {
      return NoProfile;
    }
    var rows := InteractedRows(items, rs, u);
    var brands := Brands(rows);
    var cats := Categories(rows);
    ReasonsFromRows(items, rs, u, row.value);

    var reasons: seq<string> := [];
    if row.value.category in cats {
      reasons := reasons + [Viewed(row.value.category)];
    }
    if row.value.brand in brands {
      reasons := reasons + [Liked(row.value.brand)];
    }

    if reasons != [] {
      msg := Because + Join(reasons, " and ") + ".";
      JoinReasons(reasons);
    } else {
      msg := StylePrefix + meta.value.stylePref + ".";
    }
  }

  /** Membership in the collected columns is the interaction-based condition. */
  lemma ReasonsFromRows(items: seq<ItemRecord>, rs: seq<Interaction>, u: User, row: ItemRecord)
    ensures row.category in Categories(InteractedRows(items, rs, u)) <==> ViewedCategory(items, rs, u, row.category)
    ensures row.brand in Brands(InteractedRows(items, rs, u)) <==> LikedBrand(items, rs, u, row.brand)
  {
    var rows := InteractedRows(items, rs, u);
    if row.category in Categories(rows) {
      var x :| x in rows && x.category == row.category;
      assert x.id in Content.SeenItems(rs, u);
    }
    if row.brand in Brands(rows) {
      var x :| x in rows && x.brand == row.brand;
      assert x.id in Content.SeenItems(rs, u);
    }
    if ViewedCategory(items, rs, u, row.category) {
      var x :| x in items && (exists i :: i in rs && i.user == u && i.item == x.id) && x.category == row.category;
      assert x in rows;
    }
    if LikedBrand(items, rs, u, row.brand) {
      var x :| x in items && (exists i :: i in rs && i.user == u && i.item == x.id) && x.brand == row.brand;
      assert x in rows;
    }
  }

  /** `" and ".join` of one or two reasons, written out. */
  lemma JoinReasons(reasons: seq<string>)
    requires 1 <= |reasons| <= 2
    ensures |reasons| == 1 ==> Because + Join(reasons, " and ") + "." == Because + reasons[0] + "."
    ensures |reasons| == 2 ==> Because + Join(reasons, " and ") + "." == Because + reasons[0] + " and " + reasons[1] + "."
  {
    if |reasons| == 2 {
      assert Join(reasons[1..], " and ") == reasons[1];
      assert Join(reasons, " and ") == reasons[0] + " and " + reasons[1];
      Assoc4(Because, reasons[0], " and ", reasons[1], ".");
    }
  }

  lemma Assoc4(a: string, b: string, c: string, d: string, e: string)
    ensures a + (b + c + d) + e == a + b + c + d + e
  {
  }
}
