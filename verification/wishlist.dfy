/** The wishlist store: an id-keyed list of product snapshots, kept locally when signed out
    and mirrored into the `wishlists` table when signed in. Adding is a toggle. */
module Wishlist {
  import opened Tables

  /** A wishlist entry: a snapshot of the product. */
  datatype WishlistItem = WishlistItem(id: Id, name: string, price: int, imageUrl: Option<string>)

  /** The store's list and the remote `wishlists` rows. */
  datatype State = State(items: seq<WishlistItem>, rows: seq<WishlistRow>)

  /** `isInWishlist`: some entry carries the id. */
  predicate IsInWishlist(items: seq<WishlistItem>, id: Id)
    ensures IsInWishlist(items, id) <==> id in Ids(items)
  {
    exists i :: 0 <= i < |items| && items[i].id == id
  }

  /** No id appears twice. */
  predicate NoDuplicateIds(items: seq<WishlistItem>)
  {
    forall i, j :: 0 <= i < j < |items| ==> items[i].id != items[j].id
  }

  /** The list without the entries carrying `id`, the others in their order. */
  function Without(items: seq<WishlistItem>, id: Id): (r: seq<WishlistItem>)
    ensures |r| <= |items|
    ensures forall x :: x in r <==> x in items && x.id != id
  {
    if |items| == 0 then []
    else (if items[0].id == id then [] else [items[0]]) + Without(items[1..], id)
  }

  /** The remote rows without the (user, product) pair. */
  function WithoutRow(rows: seq<WishlistRow>, userId: Id, productId: Id): (r: seq<WishlistRow>)
    ensures forall x :: x in r <==> x in rows && x != WishlistRow(userId, productId)
  {
    if |rows| == 0 then []
    else (if rows[0] == WishlistRow(userId, productId) then [] else [rows[0]]) + WithoutRow(rows[1..], userId, productId)
  }

  /** The effect of `addItem` on the list alone, the same signed in or out. */
  function Toggle(items: seq<WishlistItem>, item: WishlistItem): (r: seq<WishlistItem>)
    ensures IsInWishlist(r, item.id) <==> !IsInWishlist(items, item.id)
    ensures forall x: WishlistItem :: x.id != item.id ==> (x in r <==> x in items)
  {
    if IsInWishlist(items, item.id) then Without(items, item.id)
    else assert (items + [item])[|items|] == item; items + [item]
  }

  /** `addItem`: toggles the item in the list; when signed in it also deletes or inserts
      the (user_id, product_id) row. The outcome of that write is not checked, so the list
      toggles even when `writeOk` is false and the rows then stay as they were. */
  function AddItem(s: State, session: Option<User>, item: WishlistItem, writeOk: bool): (r: State)
    ensures !IsInWishlist(s.items, item.id) ==> r.items == s.items + [item]
    ensures IsInWishlist(s.items, item.id) ==> r.items == Without(s.items, item.id) && !IsInWishlist(r.items, item.id)
    ensures session.None? || !writeOk ==> r.rows == s.rows
    ensures session.Some? && writeOk && !IsInWishlist(s.items, item.id) ==>
      r.rows == s.rows + [WishlistRow(session.value.id, item.id)]
    ensures session.Some? && writeOk && IsInWishlist(s.items, item.id) ==>
      r.rows == WithoutRow(s.rows, session.value.id, item.id)
  {
    var rows :=
      if session.None? || !writeOk then s.rows
      else if IsInWishlist(s.items, item.id) then WithoutRow(s.rows, session.value.id, item.id)
      else s.rows + [WishlistRow(session.value.id, item.id)];
    State(Toggle(s.items, item), rows)
  }

  /** `removeItem`: drops every entry with the id; when signed in also deletes the row, whose
      outcome is not checked. */
  function RemoveItem(s: State, session: Option<User>, id: Id, writeOk: bool): (r: State)
    ensures !IsInWishlist(r.items, id)
    ensures forall x :: x in r.items <==> x in s.items && x.id != id
    ensures session.None? || !writeOk ==> r.rows == s.rows
    ensures session.Some? && writeOk ==> r.rows == WithoutRow(s.rows, session.value.id, id)
  {
    var rows := if session.Some? && writeOk then WithoutRow(s.rows, session.value.id, id) else s.rows;
    State(Without(s.items, id), rows)
  }

  /** The product ids of the user's `wishlists` rows, in row order. */
  function UserProductIds(rows: seq<WishlistRow>, userId: Id): (r: seq<Id>)
    ensures |r| <= |rows|
    ensures forall p :: p in r <==> WishlistRow(userId, p) in rows
  {
    if |rows| == 0 then []
    else (if rows[0].userId == userId then [rows[0].productId] else []) + UserProductIds(rows[1..], userId)
  }

  /** The `products` row with the id, as the join finds it. */
  function FindProduct(products: seq<Product>, id: Id): (r: Option<Product>)
    ensures r.Some? ==> r.value in products && r.value.id == id
    ensures r.None? <==> forall x :: x in products ==> x.id != id
  {
    if |products| == 0 then None
    else if products[0].id == id then Some(products[0])
    else
      assert forall x :: x in products ==> x == products[0] || x in products[1..];
      FindProduct(products[1..], id)
  }

  /** Every id has a product row, so the join's `products` field is never null. */
  predicate AllFound(ids: seq<Id>, products: seq<Product>)
  {
    forall i :: 0 <= i < |ids| ==> FindProduct(products, ids[i]).Some?
  }

  /** The entry the sync builds from a joined product: its list price, not the discount. */
  function Fetched(p: Product): WishlistItem
  {
    WishlistItem(p.id, p.name, p.price, p.imageUrl)
  }

  /** `syncWithDatabase`: signed in and with the fetch answered, the list is replaced wholesale
      (no merge) by the joined products of the user's rows, in row order. A row whose product
      is missing makes the mapping throw before the list is set. Otherwise nothing changes. */
  function SyncWithDatabase(s: State, session: Option<User>, fetchOk: bool, products: seq<Product>): (r: State)
    ensures r.rows == s.rows
    ensures session.None? || !fetchOk ==> r == s
    ensures session.Some? && fetchOk && !AllFound(UserProductIds(s.rows, session.value.id), products) ==> r == s
    ensures session.Some? && fetchOk && AllFound(UserProductIds(s.rows, session.value.id), products) ==>
      var ids := UserProductIds(s.rows, session.value.id);
      && |r.items| == |ids|
      && forall i :: 0 <= i < |ids| ==>
           r.items[i].id == ids[i] && r.items[i] == Fetched(FindProduct(products, ids[i]).value)
  {
    if session.None? || !fetchOk then s
    else
      var ids := UserProductIds(s.rows, session.value.id);
      if !AllFound(ids, products) then s
      else
        s.(items := seq(|ids|, i requires 0 <= i < |ids| && AllFound(ids, products) =>
                                 Fetched(FindProduct(products, ids[i]).value)))
  }

  /** `clearWishlist`: the empty list; the remote rows are left alone. */
  function ClearWishlist(s: State): (r: State)
    ensures r.items == [] && r.rows == s.rows
  {
    s.(items := [])
  }

  /** An absent id leaves the list as it is. */
  lemma {:induction false} WithoutAbsent(items: seq<WishlistItem>, id: Id)
    requires !IsInWishlist(items, id)
    ensures Without(items, id) == items
  {
    if |items| > 0 {
      assert !IsInWishlist(items[1..], id) by {
        forall i | 0 <= i < |items[1..]| ensures items[1..][i].id != id {
          assert items[1..][i] == items[i + 1];
        }
      }
      WithoutAbsent(items[1..], id);
    }
  }

  /** Removing an id distributes over concatenation, so the kept entries stay in order. */
  lemma {:induction false} WithoutConcat(a: seq<WishlistItem>, b: seq<WishlistItem>, id: Id)
    ensures Without(a + b, id) == Without(a, id) + Without(b, id)
  {
    if |a| == 0 {
      assert a + b == b;
    } else {
      assert (a + b)[1..] == a[1..] + b;
      WithoutConcat(a[1..], b, id);
    }
  }

  /** Toggling an absent item twice gives back the original list. */
  lemma ToggleTwiceAbsent(items: seq<WishlistItem>, item: WishlistItem)
    requires !IsInWishlist(items, item.id)
    ensures Toggle(Toggle(items, item), item) == items
  {
    var once := items + [item];
    assert once[|items|].id == item.id;
    WithoutConcat(items, [item], item.id);
    WithoutAbsent(items, item.id);
    assert Without([item], item.id) == [] by {
      assert [item][1..] == [];
    }
  }

  /** The local list effect of `addItem` is the same signed in and signed out. */
  lemma AddItemLocalEffectIndependentOfSession(s: State, u: User, item: WishlistItem, writeOk: bool)
    ensures AddItem(s, Some(u), item, writeOk).items == AddItem(s, None, item, true).items
  {
  }

  /** Dropping entries keeps the list free of duplicate ids. */
  lemma {:induction false} WithoutKeepsNoDuplicates(items: seq<WishlistItem>, id: Id)
    requires NoDuplicateIds(items)
    ensures NoDuplicateIds(Without(items, id))
  {
    if |items| > 0 {
      var tail := items[1..];
      assert NoDuplicateIds(tail) by {
        forall i, j | 0 <= i < j < |tail| ensures tail[i].id != tail[j].id {
          assert tail[i] == items[i + 1] && tail[j] == items[j + 1];
        }
      }
      WithoutKeepsNoDuplicates(tail, id);
      var rest := Without(tail, id);
      if items[0].id != id {
        assert Without(items, id) == [items[0]] + rest;
        forall k | 0 <= k < |rest| ensures rest[k].id != items[0].id {
          assert rest[k] in rest;
          var m :| 0 <= m < |tail| && tail[m] == rest[k];
          assert tail[m] == items[m + 1];
        }
      }
    }
  }

  /** `addItem` and `removeItem` keep the list free of duplicate ids. */
  lemma AddAndRemoveKeepNoDuplicates(s: State, session: Option<User>, item: WishlistItem, id: Id, writeOk: bool)
    requires NoDuplicateIds(s.items)
    ensures NoDuplicateIds(AddItem(s, session, item, writeOk).items)
    ensures NoDuplicateIds(RemoveItem(s, session, id, writeOk).items)
  {
    WithoutKeepsNoDuplicates(s.items, id);
    if IsInWishlist(s.items, item.id) {
      WithoutKeepsNoDuplicates(s.items, item.id);
    } else {
      var r := s.items + [item];
      forall i, j | 0 <= i < j < |r| ensures r[i].id != r[j].id {
        if j == |s.items| {
          assert r[i] == s.items[i];
        } else {
          assert r[i] == s.items[i] && r[j] == s.items[j];
        }
      }
    }
  }

  /** `removeItem` is idempotent. */
  lemma RemoveItemIdempotent(s: State, session: Option<User>, id: Id, ok1: bool, ok2: bool)
    ensures RemoveItem(RemoveItem(s, session, id, ok1), session, id, ok2).items == RemoveItem(s, session, id, ok1).items
  {
    var once := RemoveItem(s, session, id, ok1).items;
    assert !IsInWishlist(once, id);
    WithoutAbsent(once, id);
  }

  /** The entries' ids, in list order. */
  function Ids(items: seq<WishlistItem>): (r: seq<Id>)
    ensures |r| == |items|
    ensures forall i :: 0 <= i < |items| ==> r[i] == items[i].id
  {
    if |items| == 0 then [] else [items[0].id] + Ids(items[1..])
  }

  /** The ids other than `p`, in order. */
  function DropId(ids: seq<Id>, p: Id): (r: seq<Id>)
    ensures forall q :: q in r <==> q in ids && q != p
  {
    if |ids| == 0 then [] else (if ids[0] == p then [] else [ids[0]]) + DropId(ids[1..], p)
  }

  /** The list mirrors the user's remote rows: the same product ids in the same order. */
  predicate Synced(s: State, userId: Id)
  {
    Ids(s.items) == UserProductIds(s.rows, userId)
  }

  lemma IdsConcat(a: seq<WishlistItem>, b: seq<WishlistItem>)
    ensures Ids(a + b) == Ids(a) + Ids(b)
  {
    assert forall i :: 0 <= i < |a + b| ==> Ids(a + b)[i] == (Ids(a) + Ids(b))[i];
  }

  lemma {:induction false} UserProductIdsConcat(a: seq<WishlistRow>, b: seq<WishlistRow>, userId: Id)
    ensures UserProductIds(a + b, userId) == UserProductIds(a, userId) + UserProductIds(b, userId)
  {
    if |a| == 0 {
      assert a + b == b;
    } else {
      assert (a + b)[1..] == a[1..] + b;
      UserProductIdsConcat(a[1..], b, userId);
    }
  }

  /** Dropping entries by id drops exactly that id from the list's ids. */
  lemma {:induction false} IdsWithout(items: seq<WishlistItem>, p: Id)
    ensures Ids(Without(items, p)) == DropId(Ids(items), p)
  {
    if |items| > 0 {
      IdsWithout(items[1..], p);
      IdsConcat(if items[0].id == p then [] else [items[0]], Without(items[1..], p));
      assert Ids(items)[1..] == Ids(items[1..]);
    }
  }

  /** Deleting the user's row for `p` drops exactly `p` from the user's remote ids. */
  lemma {:induction false} UserProductIdsWithoutRow(rows: seq<WishlistRow>, userId: Id, p: Id)
    ensures UserProductIds(WithoutRow(rows, userId, p), userId) == DropId(UserProductIds(rows, userId), p)
  {
    if |rows| > 0 {
      var rest := rows[1..];
      UserProductIdsWithoutRow(rest, userId, p);
      var tail := WithoutRow(rest, userId, p);
      var ids := UserProductIds(rows, userId);
      if rows[0] == WishlistRow(userId, p) {
        assert WithoutRow(rows, userId, p) == tail;
        assert ids == [p] + UserProductIds(rest, userId);
        assert ids[1..] == UserProductIds(rest, userId);
      } else {
        assert WithoutRow(rows, userId, p) == [rows[0]] + tail;
        assert ([rows[0]] + tail)[1..] == tail;
        if rows[0].userId == userId {
          assert rows[0].productId != p;
          assert UserProductIds([rows[0]] + tail, userId) == [rows[0].productId] + UserProductIds(tail, userId);
          assert ids == [rows[0].productId] + UserProductIds(rest, userId);
          assert ids[1..] == UserProductIds(rest, userId);
          assert DropId(ids, p) == [ids[0]] + DropId(ids[1..], p);
        } else {
          assert UserProductIds([rows[0]] + tail, userId) == UserProductIds(tail, userId);
          assert ids == UserProductIds(rest, userId);
        }
      }
    }
  }

  /** In a mirrored state the list holds a product exactly when the user's rows do. */
  lemma SyncedMeansSameProducts(s: State, userId: Id, p: Id)
    requires Synced(s, userId)
    ensures IsInWishlist(s.items, p) <==> WishlistRow(userId, p) in s.rows
  {
    var ids := Ids(s.items);
    if IsInWishlist(s.items, p) {
      var i :| 0 <= i < |s.items| && s.items[i].id == p;
      assert ids[i] == p;
    }
    if WishlistRow(userId, p) in s.rows {
      assert p in ids;
      var i :| 0 <= i < |ids| && ids[i] == p;
      assert s.items[i].id == p;
    }
  }

  /** A successful sync makes the list mirror the user's rows. */
  lemma SyncEstablishesSynced(s: State, u: User, products: seq<Product>)
    requires AllFound(UserProductIds(s.rows, u.id), products)
    ensures Synced(SyncWithDatabase(s, Some(u), true, products), u.id)
  {
    var r := SyncWithDatabase(s, Some(u), true, products);
    var ids := UserProductIds(s.rows, u.id);
    assert forall i :: 0 <= i < |ids| ==> Ids(r.items)[i] == ids[i];
  }

  /** Signed in, with the remote write answered, `addItem` keeps the list mirroring the rows. */
  lemma AddItemKeepsSynced(s: State, u: User, item: WishlistItem)
    requires Synced(s, u.id)
    ensures Synced(AddItem(s, Some(u), item, true), u.id)
  {
    if IsInWishlist(s.items, item.id) {
      IdsWithout(s.items, item.id);
      UserProductIdsWithoutRow(s.rows, u.id, item.id);
    } else {
      IdsConcat(s.items, [item]);
      UserProductIdsConcat(s.rows, [WishlistRow(u.id, item.id)], u.id);
      assert [WishlistRow(u.id, item.id)][1..] == [];
    }
  }

  /** Signed in, with the remote delete answered, `removeItem` keeps the list mirroring the rows. */
  lemma RemoveItemKeepsSynced(s: State, u: User, id: Id)
    requires Synced(s, u.id)
    ensures Synced(RemoveItem(s, Some(u), id, true), u.id)
  {
    IdsWithout(s.items, id);
    UserProductIdsWithoutRow(s.rows, u.id, id);
  }

  /** Clearing the list locally loses nothing remote: a later successful sync rebuilds the
      same list as syncing without the clear, mirroring the user's rows. */
  lemma ClearThenSyncRestores(s: State, u: User, products: seq<Product>)
    requires AllFound(UserProductIds(s.rows, u.id), products)
    ensures var r := SyncWithDatabase(ClearWishlist(s), Some(u), true, products);
            r == SyncWithDatabase(s, Some(u), true, products) && Synced(r, u.id)
  {
    SyncEstablishesSynced(s, u, products);
  }

  /** An unanswered insert breaks the mirror: the list gains the item, the rows do not. */
  lemma FailedInsertBreaksSync(u: User, item: WishlistItem)
    ensures Synced(State([], []), u.id)
    ensures !Synced(AddItem(State([], []), Some(u), item, false), u.id)
  {
    var r := AddItem(State([], []), Some(u), item, false);
    assert |Ids(r.items)| == 1;
  }
}
