/** The client-side cart: an ordered list of cart lines keyed by
    `productVariantId`, plus the visibility flag of the cart sidebar. Every
    command is a pure transition from one `Cart` to the next; the fields a
    command does not set are carried over unchanged, as the store's shallow
    state merge does. */
module CartStore {

  import opened Optional
  import opened Lists
  import opened Catalog

  type VariantId = string

  /** Milliseconds since the epoch, read from the clock by the caller. */
  type Timestamp = int

  /** One line of the cart. `quantity` is not validated by `AddItem`, so it is an `int`. */
  datatype CartItem = CartItem(
    id: string,
    cartId: string,
    productId: string,
    productVariantId: VariantId,
    quantity: int,
    createdAt: Timestamp,
    updatedAt: Timestamp,
    product: Product,
    productVariant: Variant)

  /** The argument of `addItem`: a line without its id, cart id and timestamps. */
  datatype NewItem = NewItem(
    productId: string,
    productVariantId: VariantId,
    quantity: int,
    product: Product,
    productVariant: Variant)

  /** The values the environment supplies for a fresh line: the generated id
      (`temp-` followed by the clock reading) and the two creation-time clock
      reads. Nothing makes the id unique: two adds in one millisecond share it. */
  datatype Stamp = Stamp(id: string, createdAt: Timestamp, updatedAt: Timestamp)

  datatype Cart = Cart(items: seq<CartItem>, isOpen: bool)

  /** The part of the state that is written to durable storage. */
  datatype PersistedCart = PersistedCart(items: seq<CartItem>)

  /** The cart id given to every line created on the client. */
  const TempCartId := "temp"

  const Initial := Cart([], false)

  // ---------------------------------------------------------------------------
  // Keys, invariants and lookups

  function VariantOf(it: CartItem): VariantId
  {
    it.productVariantId
  }

  /** The filter that removal applies: keep lines of other variants. */
  function OtherVariant(v: VariantId): CartItem -> bool
  {
    (it: CartItem) => it.productVariantId != v
  }

  predicate HasVariant(items: seq<CartItem>, v: VariantId)
  {
    exists i :: 0 <= i < |items| && items[i].productVariantId == v
  }

  /** At most one line per variant. */
  predicate UniqueVariants(items: seq<CartItem>)
  {
    UniqueBy(VariantOf, items)
  }

  /** Every stored quantity is at least one. */
  predicate AllPositive(items: seq<CartItem>)
  {
    forall i :: 0 <= i < |items| ==> items[i].quantity >= 1
  }

  /** `b` is `a` with at most its quantity changed. */
  predicate SameExceptQuantity(a: CartItem, b: CartItem)
  {
    b == a.(quantity := b.quantity)
  }

  /** `after` is `before` with `q` added to the quantity of every line of
      variant `v`, and nothing else changed. */
  predicate QuantityAdded(before: seq<CartItem>, after: seq<CartItem>, v: VariantId, q: int)
  {
    |after| == |before| &&
    forall i :: 0 <= i < |before| ==>
      SameExceptQuantity(before[i], after[i]) &&
      after[i].quantity == before[i].quantity + (if before[i].productVariantId == v then q else 0)
  }

  /** `line` is a fresh client-side line for `n`: the generated id and
      timestamps, the placeholder cart id, and the fields of `n`. */
  predicate IsNewLine(line: CartItem, n: NewItem, stamp: Stamp)
  {
    line.id == stamp.id && line.cartId == TempCartId &&
    line.productId == n.productId && line.productVariantId == n.productVariantId &&
    line.quantity == n.quantity && line.product == n.product && line.productVariant == n.productVariant &&
    line.createdAt == stamp.createdAt && line.updatedAt == stamp.updatedAt
  }

  /** `items.find(...)`: the first line of variant `v`, if any. */
  function Find(items: seq<CartItem>, v: VariantId): (r: Option<CartItem>)
    ensures r.None? <==> !HasVariant(items, v)
    ensures r.Some? ==> r.value.productVariantId == v && r.value in items
  {
    if |items| == 0 then None
    else if items[0].productVariantId == v then Some(items[0])
    else Find(items[1..], v)
  }

  /** The line `Find` returns is the first line of variant `v`. */
  lemma {:induction false} FindFirst(items: seq<CartItem>, v: VariantId)
    ensures Find(items, v).Some? ==>
              exists i :: 0 <= i < |items| && items[i] == Find(items, v).value
                && forall j :: 0 <= j < i ==> items[j].productVariantId != v
  {
    if |items| > 0 && items[0].productVariantId != v && Find(items, v).Some? {
      FindFirst(items[1..], v);
      var i :| 0 <= i < |items[1..]| && items[1..][i] == Find(items, v).value
               && forall j :: 0 <= j < i ==> items[1..][j].productVariantId != v;
      assert items[i + 1] == Find(items, v).value;
    }
  }

  /** Every line of variant `v` gets quantity `f(quantity)`; all else is kept. */
  function MapQuantity(items: seq<CartItem>, v: VariantId, f: int -> int): (r: seq<CartItem>)
    ensures |r| == |items|
    ensures forall i :: 0 <= i < |items| ==>
              SameExceptQuantity(items[i], r[i]) &&
              r[i].quantity == (if items[i].productVariantId == v then f(items[i].quantity) else items[i].quantity)
    ensures !HasVariant(items, v) ==> r == items
  {
    if |items| == 0 then []
    else
      var head := if items[0].productVariantId == v then items[0].(quantity := f(items[0].quantity)) else items[0];
      var tail := MapQuantity(items[1..], v, f);
      TailIndex(head, items);
      TailIndex(head, tail);
      [head] + tail
  }

  function AddQuantity(q: int): int -> int
  {
    (x: int) => x + q
  }

  function SetQuantity(q: int): int -> int
  {
    (x: int) => q
  }

  /** The line `addItem` appends for a variant not yet in the cart. */
  function NewLine(n: NewItem, stamp: Stamp): CartItem
  {
    CartItem(stamp.id, TempCartId, n.productId, n.productVariantId, n.quantity,
             stamp.createdAt, stamp.updatedAt, n.product, n.productVariant)
  }

  // ---------------------------------------------------------------------------
  // Commands

  /** `addItem`: merge into the existing line of the same variant, or append a new line. */
  function AddItem(c: Cart, n: NewItem, stamp: Stamp): (r: Cart)
    ensures r.isOpen == c.isOpen
    ensures HasVariant(c.items, n.productVariantId) ==> QuantityAdded(c.items, r.items, n.productVariantId, n.quantity)
    ensures !HasVariant(c.items, n.productVariantId) ==>
              |r.items| == |c.items| + 1 && r.items[..|c.items|] == c.items &&
              IsNewLine(r.items[|c.items|], n, stamp)
    ensures HasVariant(r.items, n.productVariantId)
  {
    if HasVariant(c.items, n.productVariantId) then
      c.(items := MapQuantity(c.items, n.productVariantId, AddQuantity(n.quantity)))
    else
      AppendLast(c.items, NewLine(n, stamp));
      c.(items := c.items + [NewLine(n, stamp)])
  }

  /** `addItem` keeps one line per variant ... */
  lemma AddItemKeepsUnique(c: Cart, n: NewItem, stamp: Stamp)
    requires UniqueVariants(c.items)
    ensures UniqueVariants(AddItem(c, n, stamp).items)
  {
    var r := AddItem(c, n, stamp).items;
    if !HasVariant(c.items, n.productVariantId) {
      assert forall i :: 0 <= i < |c.items| ==> r[i] == c.items[i];
    }
  }

  /** ... and keeps quantities positive when the incoming quantity is positive. */
  lemma AddItemKeepsPositive(c: Cart, n: NewItem, stamp: Stamp)
    requires AllPositive(c.items) && n.quantity >= 1
    ensures AllPositive(AddItem(c, n, stamp).items)
  {
    var r := AddItem(c, n, stamp).items;
    if HasVariant(c.items, n.productVariantId) {
      assert QuantityAdded(c.items, r, n.productVariantId, n.quantity);
    } else {
      assert forall i :: 0 <= i < |c.items| ==> r[i] == c.items[i];
    }
  }

  /** `removeItem`: drop every line of variant `v`. */
  function RemoveItem(c: Cart, v: VariantId): (r: Cart)
    ensures r.isOpen == c.isOpen
    ensures !HasVariant(r.items, v)
    ensures forall i :: 0 <= i < |r.items| ==> r.items[i] in c.items
    ensures forall i :: 0 <= i < |c.items| && c.items[i].productVariantId != v ==> c.items[i] in r.items
    ensures !HasVariant(c.items, v) ==> r == c
    ensures UniqueVariants(c.items) ==> UniqueVariants(r.items)
    ensures AllPositive(c.items) ==> AllPositive(r.items)
  {
    FilterMembers(OtherVariant(v), c.items);
    FilterKeepsUnique(VariantOf, OtherVariant(v), c.items);
    FilterAllIf(OtherVariant(v), c.items);
    c.(items := Filter(OtherVariant(v), c.items))
  }

  /** `updateQuantity`: a quantity of zero or less removes the variant; any
      other quantity replaces the quantity of its lines in place. */
  function UpdateQuantity(c: Cart, v: VariantId, q: int): (r: Cart)
    ensures r.isOpen == c.isOpen
    ensures q <= 0 ==> !HasVariant(r.items, v)
    ensures q <= 0 ==> forall i :: 0 <= i < |c.items| && c.items[i].productVariantId != v ==> c.items[i] in r.items
    ensures q > 0 ==>
              |r.items| == |c.items| &&
              forall i :: 0 <= i < |c.items| ==>
                SameExceptQuantity(c.items[i], r.items[i]) &&
                r.items[i].quantity == (if c.items[i].productVariantId == v then q else c.items[i].quantity)
    ensures !HasVariant(c.items, v) ==> r == c
    ensures UniqueVariants(c.items) ==> UniqueVariants(r.items)
    ensures AllPositive(c.items) ==> AllPositive(r.items)
  {
    if q <= 0 then RemoveItem(c, v)
    else c.(items := MapQuantity(c.items, v, SetQuantity(q)))
  }

  /** `clearCart`: empty the line list; the sidebar flag is untouched. */
  function ClearCart(c: Cart): (r: Cart)
    ensures r.items == [] && r.isOpen == c.isOpen
  {
    c.(items := [])
  }

  function ToggleCart(c: Cart): (r: Cart)
    ensures r.items == c.items && r.isOpen != c.isOpen
  {
    c.(isOpen := !c.isOpen)
  }

  function OpenCart(c: Cart): (r: Cart)
    ensures r.items == c.items && r.isOpen
  {
    c.(isOpen := true)
  }

  function CloseCart(c: Cart): (r: Cart)
    ensures r.items == c.items && !r.isOpen
  {
    c.(isOpen := false)
  }

  // ---------------------------------------------------------------------------
  // Aggregates

  /** `getTotalItems`: the sum of all quantities. */
  function TotalItems(items: seq<CartItem>): (r: int)
    ensures items == [] ==> r == 0
    ensures AllPositive(items) ==> r >= |items|
  {
    if |items| == 0 then 0 else items[0].quantity + TotalItems(items[1..])
  }

  /** `getTotalPrice`: the sum of snapshot unit price times quantity. */
  function TotalPrice(items: seq<CartItem>): (r: int)
    ensures items == [] ==> r == 0
  {
    if |items| == 0 then 0
    else items[0].productVariant.price * items[0].quantity + TotalPrice(items[1..])
  }

  /** The summed quantity of the lines of variant `v`. */
  function QuantityOf(items: seq<CartItem>, v: VariantId): int
  {
    if |items| == 0 then 0
    else (if items[0].productVariantId == v then items[0].quantity else 0) + QuantityOf(items[1..], v)
  }

  /** The number of lines of variant `v`. */
  function CountOf(items: seq<CartItem>, v: VariantId): (r: nat)
    ensures r == 0 <==> !HasVariant(items, v)
    ensures r <= |items|
  {
    if |items| == 0 then 0
    else (if items[0].productVariantId == v then 1 else 0) + CountOf(items[1..], v)
  }

  // ---------------------------------------------------------------------------
  // Persistence

  /** `partialize`: only the line list is persisted. */
  function Partialize(c: Cart): (p: PersistedCart)
    ensures p.items == c.items
  {
    PersistedCart(c.items)
  }

  /** Start-up: merge the persisted blob into the initial state; a missing or
      unreadable blob leaves the initial state. */
  function Rehydrate(blob: Option<PersistedCart>): (c: Cart)
    ensures !c.isOpen
    ensures blob.Some? ==> c.items == blob.value.items
    ensures blob.None? ==> c == Initial
  {
    match blob
    case Some(p) => Initial.(items := p.items)
    case None => Initial
  }

  // ---------------------------------------------------------------------------
  // Lemmas: aggregates

  /** Both totals are additive over concatenation; in particular appending a
      line adds its quantity and its price times quantity. */
  lemma {:induction false} TotalsAppend(a: seq<CartItem>, b: seq<CartItem>)
    ensures TotalItems(a + b) == TotalItems(a) + TotalItems(b)
    ensures TotalPrice(a + b) == TotalPrice(a) + TotalPrice(b)
  {
    if |a| == 0 {
      assert a + b == b;
    } else {
      assert (a + b)[1..] == a[1..] + b;
      TotalsAppend(a[1..], b);
    }
  }

  /** With unique variants, a present variant has exactly one line. */
  lemma {:induction false} UniqueHasOneLine(items: seq<CartItem>, v: VariantId)
    requires UniqueVariants(items)
    ensures CountOf(items, v) == (if HasVariant(items, v) then 1 else 0)
    ensures !HasVariant(items, v) ==> QuantityOf(items, v) == 0
  {
    if |items| > 0 {
      assert UniqueVariants(items[1..]) by {
        forall i, j | 0 <= i < j < |items[1..]|
          ensures VariantOf(items[1..][i]) != VariantOf(items[1..][j])
        {
          assert items[1..][i] == items[i + 1] && items[1..][j] == items[j + 1];
        }
      }
      UniqueHasOneLine(items[1..], v);
      if items[0].productVariantId == v {
        assert !HasVariant(items[1..], v);
      } else {
        assert HasVariant(items, v) <==> HasVariant(items[1..], v) by {
          if HasVariant(items, v) {
            var k :| 0 <= k < |items| && items[k].productVariantId == v;
            assert items[1..][k - 1] == items[k];
          }
          if HasVariant(items[1..], v) {
            var k :| 0 <= k < |items[1..]| && items[1..][k].productVariantId == v;
            assert items[k + 1] == items[1..][k];
          }
        }
      }
    }
  }

  /** On a cart with at most one line of `v`, raising that line's quantity by
      `q` raises the item count by `q`. */
  lemma {:induction false} MapAddItems(items: seq<CartItem>, v: VariantId, q: int)
    requires CountOf(items, v) <= 1
    ensures TotalItems(MapQuantity(items, v, AddQuantity(q))) == TotalItems(items) + (if HasVariant(items, v) then q else 0)
  {
    if |items| > 0 {
      assert MapQuantity(items, v, AddQuantity(q))[1..] == MapQuantity(items[1..], v, AddQuantity(q));
      MapAddItems(items[1..], v, q);
    }
  }

  /** ... and the total price by `q` times that line's price snapshot. */
  lemma {:induction false} MapAddPrice(items: seq<CartItem>, v: VariantId, q: int)
    requires CountOf(items, v) <= 1
    ensures TotalPrice(MapQuantity(items, v, AddQuantity(q)))
         == TotalPrice(items) + (if HasVariant(items, v) then Find(items, v).value.productVariant.price * q else 0)
  {
    if |items| > 0 {
      var r := MapQuantity(items, v, AddQuantity(q));
      assert r[1..] == MapQuantity(items[1..], v, AddQuantity(q));
      MapAddPrice(items[1..], v, q);
      if items[0].productVariantId == v {
        var p := items[0].productVariant.price;
        MulAdd(p, items[0].quantity, q);
      }
    }
  }

  lemma MulAdd(p: int, a: int, b: int)
    ensures p * (a + b) == p * a + p * b
  {
  }

  /** ... and the quantity of `v` by `q`, leaving every other variant and
      every line count as it was. */
  lemma {:induction false} MapAddQuantityOf(items: seq<CartItem>, v: VariantId, q: int, w: VariantId)
    requires CountOf(items, v) <= 1
    ensures QuantityOf(MapQuantity(items, v, AddQuantity(q)), w)
         == QuantityOf(items, w) + (if w == v && HasVariant(items, v) then q else 0)
    ensures CountOf(MapQuantity(items, v, AddQuantity(q)), w) == CountOf(items, w)
  {
    if |items| > 0 {
      assert MapQuantity(items, v, AddQuantity(q))[1..] == MapQuantity(items[1..], v, AddQuantity(q));
      MapAddQuantityOf(items[1..], v, q, w);
    }
  }

  /** The unit price an add is charged at: the first-seen snapshot when the
      variant is already in the cart, the incoming snapshot otherwise. */
  function ChargedPrice(items: seq<CartItem>, n: NewItem): Cents
  {
    match Find(items, n.productVariantId)
    case Some(line) => line.productVariant.price
    case None => n.productVariant.price
  }

  /** `addItem` raises the item count by the incoming quantity and the total
      price by that quantity at the charged price; the incoming price snapshot
      is discarded when the variant was already present. */
  lemma AddItemTotals(c: Cart, n: NewItem, stamp: Stamp)
    requires UniqueVariants(c.items)
    ensures TotalItems(AddItem(c, n, stamp).items) == TotalItems(c.items) + n.quantity
    ensures TotalPrice(AddItem(c, n, stamp).items) == TotalPrice(c.items) + ChargedPrice(c.items, n) * n.quantity
  {
    if HasVariant(c.items, n.productVariantId) {
      MergeTotals(c.items, n);
    } else {
      AppendTotals(c.items, NewLine(n, stamp));
    }
  }

  lemma MergeTotals(items: seq<CartItem>, n: NewItem)
    requires UniqueVariants(items) && HasVariant(items, n.productVariantId)
    ensures TotalItems(MapQuantity(items, n.productVariantId, AddQuantity(n.quantity))) == TotalItems(items) + n.quantity
    ensures TotalPrice(MapQuantity(items, n.productVariantId, AddQuantity(n.quantity)))
         == TotalPrice(items) + ChargedPrice(items, n) * n.quantity
  {
    var v := n.productVariantId;
    UniqueHasOneLine(items, v);
    MapAddItems(items, v, n.quantity);
    MapAddPrice(items, v, n.quantity);
    assert ChargedPrice(items, n) == Find(items, v).value.productVariant.price;
  }

  lemma AppendTotals(items: seq<CartItem>, line: CartItem)
    ensures TotalItems(items + [line]) == TotalItems(items) + line.quantity
    ensures TotalPrice(items + [line]) == TotalPrice(items) + line.productVariant.price * line.quantity
  {
    TotalsAppend(items, [line]);
    assert TotalPrice([line]) == line.productVariant.price * line.quantity + TotalPrice([]);
  }

  /** After `addItem` for variant `v` the cart holds exactly one line of `v`,
      whose quantity grew by the incoming quantity; no other variant changes. */
  lemma AddItemQuantity(c: Cart, n: NewItem, stamp: Stamp)
    requires UniqueVariants(c.items)
    ensures CountOf(AddItem(c, n, stamp).items, n.productVariantId) == 1
    ensures QuantityOf(AddItem(c, n, stamp).items, n.productVariantId) == QuantityOf(c.items, n.productVariantId) + n.quantity
    ensures forall w :: w != n.productVariantId ==>
              QuantityOf(AddItem(c, n, stamp).items, w) == QuantityOf(c.items, w)
  {
    var v := n.productVariantId;
    var r := AddItem(c, n, stamp);
    AddItemKeepsUnique(c, n, stamp);
    UniqueHasOneLine(r.items, v);
    if HasVariant(c.items, v) {
      UniqueHasOneLine(c.items, v);
      forall w | true
        ensures QuantityOf(r.items, w) == QuantityOf(c.items, w) + (if w == v then n.quantity else 0)
      {
        MapAddQuantityOf(c.items, v, n.quantity, w);
      }
    } else {
      UniqueHasOneLine(c.items, v);
      SplitLast(c.items, NewLine(n, stamp));
    }
  }

  lemma {:induction false} SplitLast(a: seq<CartItem>, x: CartItem)
    ensures forall w :: QuantityOf(a + [x], w) == QuantityOf(a, w) + (if x.productVariantId == w then x.quantity else 0)
  {
    if |a| == 0 {
      assert a + [x] == [x];
    } else {
      assert (a + [x])[1..] == a[1..] + [x];
      SplitLast(a[1..], x);
    }
  }

  /** One call of `addItem`, with the values its environment supplied. */
  datatype AddCall = AddCall(item: NewItem, stamp: Stamp)

  /** The cart after a sequence of `addItem` calls, in order. */
  function AddAll(c: Cart, calls: seq<AddCall>): Cart
    decreases |calls|
  {
    if |calls| == 0 then c
    else AddAll(AddItem(c, calls[0].item, calls[0].stamp), calls[1..])
  }

  function SumOfQuantities(calls: seq<AddCall>): int
  {
    if |calls| == 0 then 0 else calls[0].item.quantity + SumOfQuantities(calls[1..])
  }

  /** For any sequence of adds for one variant `v`, from any cart with unique
      variants: variants stay unique, and the quantity of `v` grows by the sum
      of the added quantities. When at least one add happens, exactly one line
      of `v` remains; when the cart had no `v`, that line holds the sum. */
  lemma {:induction false} RepeatedAdds(c: Cart, v: VariantId, calls: seq<AddCall>)
    requires UniqueVariants(c.items)
    requires forall k :: 0 <= k < |calls| ==> calls[k].item.productVariantId == v
    ensures UniqueVariants(AddAll(c, calls).items)
    ensures CountOf(AddAll(c, calls).items, v) == (if |calls| == 0 then CountOf(c.items, v) else 1)
    ensures QuantityOf(AddAll(c, calls).items, v) == QuantityOf(c.items, v) + SumOfQuantities(calls)
    ensures !HasVariant(c.items, v) ==> QuantityOf(AddAll(c, calls).items, v) == SumOfQuantities(calls)
    decreases |calls|
  {
    UniqueHasOneLine(c.items, v);
    if |calls| > 0 {
      var c' := AddItem(c, calls[0].item, calls[0].stamp);
      AddItemKeepsUnique(c, calls[0].item, calls[0].stamp);
      AddItemQuantity(c, calls[0].item, calls[0].stamp);
      RepeatedAdds(c', v, calls[1..]);
    }
  }

  // ---------------------------------------------------------------------------
  // Lemmas: removal and update

  /** Removing a variant lowers the item count by exactly its quantity. */
  lemma {:induction false} RemoveTotals(items: seq<CartItem>, v: VariantId)
    ensures TotalItems(Filter(OtherVariant(v), items)) == TotalItems(items) - QuantityOf(items, v)
  {
    if |items| > 0 {
      RemoveTotals(items[1..], v);
    }
  }

  lemma RemoveItemTotals(c: Cart, v: VariantId)
    ensures TotalItems(RemoveItem(c, v).items) == TotalItems(c.items) - QuantityOf(c.items, v)
    ensures QuantityOf(RemoveItem(c, v).items, v) == 0
  {
    RemoveTotals(c.items, v);
    NoVariantNoQuantity(RemoveItem(c, v).items, v);
  }

  lemma {:induction false} NoVariantNoQuantity(items: seq<CartItem>, v: VariantId)
    requires !HasVariant(items, v)
    ensures QuantityOf(items, v) == 0
  {
    if |items| > 0 {
      assert !HasVariant(items[1..], v);
      NoVariantNoQuantity(items[1..], v);
    }
  }

  /** Removal keeps the relative order of the surviving lines: it distributes
      over any split of the line list. */
  lemma RemoveKeepsOrder(a: seq<CartItem>, b: seq<CartItem>, v: VariantId)
    ensures RemoveItem(Cart(a + b, false), v).items
         == RemoveItem(Cart(a, false), v).items + RemoveItem(Cart(b, false), v).items
  {
    FilterAppend(OtherVariant(v), a, b);
  }

  /** A non-positive quantity update is exactly a removal. */
  lemma UpdateNonPositiveIsRemove(c: Cart, v: VariantId, q: int)
    requires q <= 0
    ensures UpdateQuantity(c, v, q) == RemoveItem(c, v)
  {
  }

  /** A positive update of a present variant replaces its quantity in the item count. */
  lemma {:induction false} SetTotals(items: seq<CartItem>, v: VariantId, q: int)
    requires CountOf(items, v) <= 1
    ensures TotalItems(MapQuantity(items, v, SetQuantity(q)))
         == TotalItems(items) - QuantityOf(items, v) + (if HasVariant(items, v) then q else 0)
  {
    if |items| > 0 {
      assert MapQuantity(items, v, SetQuantity(q))[1..] == MapQuantity(items[1..], v, SetQuantity(q));
      SetTotals(items[1..], v, q);
    }
  }

  lemma UpdateQuantityTotals(c: Cart, v: VariantId, q: int)
    requires UniqueVariants(c.items) && HasVariant(c.items, v) && q > 0
    ensures TotalItems(UpdateQuantity(c, v, q).items) == TotalItems(c.items) - QuantityOf(c.items, v) + q
  {
    UniqueHasOneLine(c.items, v);
    SetTotals(c.items, v, q);
  }

  /** `addItem` validates nothing: a zero quantity is stored as is and breaks
      the positivity of quantities. */
  lemma AddZeroBreaksPositivity(n: NewItem, stamp: Stamp)
    requires n.quantity == 0
    ensures AllPositive(Initial.items)
    ensures !AllPositive(AddItem(Initial, n, stamp).items)
  {
    assert AddItem(Initial, n, stamp).items[0].quantity == 0;
  }

  /** Two adds of distinct variants, 10.00 x 3 and 5.00 x 2, total 40.00. */
  lemma TwoAddsTotal(n1: NewItem, n2: NewItem, s1: Stamp, s2: Stamp)
    requires n1.productVariantId != n2.productVariantId
    requires n1.productVariant.price == 1000 && n1.quantity == 3
    requires n2.productVariant.price == 500 && n2.quantity == 2
    ensures TotalPrice(AddItem(AddItem(Initial, n1, s1), n2, s2).items) == 4000
    ensures TotalItems(AddItem(AddItem(Initial, n1, s1), n2, s2).items) == 5
  {
    var c1 := AddItem(Initial, n1, s1);
    AddItemTotals(Initial, n1, s1);
    AddItemTotals(c1, n2, s2);
    assert Find(c1.items, n2.productVariantId) == None;
  }

  // ---------------------------------------------------------------------------
  // Lemmas: the sidebar flag and persistence

  lemma ToggleTwice(c: Cart)
    ensures ToggleCart(ToggleCart(c)) == c
  {
  }

  /** A persisted-then-rehydrated cart has exactly the same lines and a closed sidebar. */
  lemma PersistRoundTrip(c: Cart)
    ensures Rehydrate(Some(Partialize(c))) == c.(isOpen := false)
  {
  }
}
