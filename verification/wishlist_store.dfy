/** The client-side wishlist: an ordered list of product snapshots with at
    most one entry per product id. The whole state is persisted. */
module WishlistStore {

  import opened Optional
  import opened Lists
  import opened Catalog

  type ProductId = string

  datatype Wishlist = Wishlist(items: seq<Product>)

  const Initial := Wishlist([])

  function IdOf(p: Product): ProductId
  {
    p.id
  }

  /** The filter that removal applies: keep the products with another id. */
  function OtherId(id: ProductId): Product -> bool
  {
    (p: Product) => p.id != id
  }

  /** No two entries share a product id. */
  predicate UniqueIds(items: seq<Product>)
  {
    UniqueBy(IdOf, items)
  }

  /** `isInWishlist`: `items.some(item => item.id === id)`, scanning from the
      front and stopping at the first match; true exactly when some entry has
      the id. */
  predicate IsInWishlist(w: Wishlist, id: ProductId)
    ensures IsInWishlist(w, id) <==> exists i :: 0 <= i < |w.items| && w.items[i].id == id
    decreases |w.items|
  {
    if |w.items| == 0 then false
    else if w.items[0].id == id then true
    else
      TailIndex(w.items[0], w.items);
      IsInWishlist(Wishlist(w.items[1..]), id)
  }

  /** `addItem`: a product whose id is present leaves the state as it was;
      any other product is appended. */
  function AddItem(w: Wishlist, p: Product): (r: Wishlist)
    ensures IsInWishlist(w, p.id) ==> r == w
    ensures !IsInWishlist(w, p.id) ==> r.items == w.items + [p]
    ensures IsInWishlist(r, p.id)
    ensures forall id :: id != p.id ==> (IsInWishlist(r, id) <==> IsInWishlist(w, id))
    ensures UniqueIds(w.items) ==> UniqueIds(r.items)
  {
    if IsInWishlist(w, p.id) then w
    else
      AppendKeepsMembers(w, p);
      Wishlist(w.items + [p])
  }

  /** Appending keeps every id that was present and adds the new one. */
  lemma AppendKeepsMembers(w: Wishlist, p: Product)
    ensures forall id :: IsInWishlist(w, id) ==> IsInWishlist(Wishlist(w.items + [p]), id)
    ensures IsInWishlist(Wishlist(w.items + [p]), p.id)
  {
    var r := Wishlist(w.items + [p]);
    AppendLast(w.items, p);
    forall id | IsInWishlist(w, id) ensures IsInWishlist(r, id) {
      var k :| 0 <= k < |w.items| && w.items[k].id == id;
      assert r.items[k] == w.items[k];
    }
  }

  /** `removeItem`: drop every entry with the given id. */
  function RemoveItem(w: Wishlist, id: ProductId): (r: Wishlist)
    ensures !IsInWishlist(r, id)
    ensures forall i :: 0 <= i < |r.items| ==> r.items[i] in w.items
    ensures forall i :: 0 <= i < |w.items| && w.items[i].id != id ==> w.items[i] in r.items
    ensures !IsInWishlist(w, id) ==> r == w
    ensures UniqueIds(w.items) ==> UniqueIds(r.items)
  {
    FilterMembers(OtherId(id), w.items);
    FilterKeepsUnique(IdOf, OtherId(id), w.items);
    FilterAllIf(OtherId(id), w.items);
    Wishlist(Filter(OtherId(id), w.items))
  }

  /** `clearWishlist`. */
  function ClearWishlist(w: Wishlist): (r: Wishlist)
    ensures forall id :: !IsInWishlist(r, id)
  {
    Initial
  }

  /** The persisted blob: the whole state. */
  function Persist(w: Wishlist): (p: Wishlist)
    ensures p.items == w.items
  {
    w
  }

  /** Start-up: the persisted blob, or the empty wishlist when it is missing or unreadable. */
  function Rehydrate(blob: Option<Wishlist>): (w: Wishlist)
    ensures blob.Some? ==> w.items == blob.value.items
    ensures blob.None? ==> w.items == []
  {
    match blob
    case Some(p) => p
    case None => Initial
  }

  // ---------------------------------------------------------------------------
  // Lemmas

  /** Adding the same product twice is adding it once. */
  lemma AddIdempotent(w: Wishlist, p: Product)
    ensures AddItem(AddItem(w, p), p) == AddItem(w, p)
    ensures |AddItem(AddItem(w, p), p).items| == |AddItem(w, p).items|
  {
  }

  /** Membership right after an add and right after a remove. */
  lemma MembershipAfterCommands(w: Wishlist, p: Product, id: ProductId)
    ensures IsInWishlist(AddItem(w, p), p.id)
    ensures !IsInWishlist(RemoveItem(w, id), id)
  {
  }

  /** Adding a product whose id was absent and then removing that id restores
      the original list. */
  lemma AddThenRemoveRestores(w: Wishlist, p: Product)
    requires !IsInWishlist(w, p.id)
    ensures RemoveItem(AddItem(w, p), p.id) == w
  {
    FilterAppend(OtherId(p.id), w.items, [p]);
    FilterAll(OtherId(p.id), w.items);
    FilterNone(OtherId(p.id), [p]);
  }

  /** Removal keeps the relative order of the surviving entries. */
  lemma RemoveKeepsOrder(a: seq<Product>, b: seq<Product>, id: ProductId)
    ensures RemoveItem(Wishlist(a + b), id).items
         == RemoveItem(Wishlist(a), id).items + RemoveItem(Wishlist(b), id).items
  {
    FilterAppend(OtherId(id), a, b);
  }

  /** A persisted-then-rehydrated wishlist is the same wishlist. */
  lemma PersistRoundTrip(w: Wishlist)
    ensures Rehydrate(Some(Persist(w))) == w
  {
  }
}
