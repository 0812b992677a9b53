/**
 * The cart handlers of src/controllers/cartController.js. Each handler is
 * one sequential transition over the product and cart collections: a
 * failure is an early return that leaves both untouched (except where
 * `clearCart` throws half-way), and a success moves stock between a
 * product's counter and the user's cart so that `Conserved` holds.
 */
module CartController {
  import opened Domain
  import opened CartLines
  import opened Stores
  import opened Reservation

  /** `addToCart`: reserve `quantity` units of `productId` for `user`. */
  method AddToCart(ps: ProductStore, cs: CartStore, user: MemberId, productId: ProductId, quantity: int)
    returns (outcome: Outcome)
    requires cs.Valid() && quantity > 0
    modifies ps`products, cs`carts
    ensures cs.Valid()
    ensures productId !in old(ps.products) ==> outcome == Failure(NotFound)
    ensures productId in old(ps.products) && old(ps.products)[productId].quantity < quantity ==>
              outcome == Failure(OutOfStock)
    ensures outcome.Failure? ==> ps.products == old(ps.products) && cs.carts == old(cs.carts)
    ensures productId in old(ps.products) && old(ps.products)[productId].quantity >= quantity ==>
              && outcome == Success
              && cs.carts == old(cs.carts)[user := AddLine(CartOf(old(cs.carts), user), productId, quantity)]
              && ps.products == Adjust(old(ps.products), productId, -quantity)
              && HasLine(cs.carts[user], productId)
              && Conserved(old(ps.products), old(cs.carts), ps.products, cs.carts)
  {
    if productId !in ps.products {
      return Failure(NotFound);
    }
    var product := ps.products[productId];
    if product.quantity < quantity {
      return Failure(OutOfStock);
    }
    var items := CartOf(cs.carts, user);
    var k := FindLine(items, productId);
    var items' := items;
    if k > -1 {
      items' := items'[k := items'[k].(quantity := items'[k].quantity + quantity)];
    } else {
      items' := items' + [Line(productId, quantity)];
    }
    forall q | true
      ensures Reserved(items', q) == Reserved(items, q) + (if q == productId then quantity else 0)
    {
      AddLineReserves(items, productId, quantity, q);
    }
    MoveConserves(ps.products, cs.carts, user, items', productId, quantity);
    AddLineWellFormed(items, productId, quantity);
    ps.products := ps.products[productId := product.(quantity := product.quantity - quantity)];
    cs.carts := cs.carts[user := items'];
    outcome := Success;
  }

  /** `increaseCartItem`: one more unit of `productId` in `user`'s cart. */
  method IncreaseCartItem(ps: ProductStore, cs: CartStore, user: MemberId, productId: ProductId)
    returns (outcome: Outcome)
    requires cs.Valid()
    modifies ps`products, cs`carts
    ensures cs.Valid()
    ensures user !in old(cs.carts) ==> outcome == Failure(NotFound)
    ensures user in old(cs.carts) && productId !in old(ps.products) ==> outcome == Failure(NotFound)
    ensures user in old(cs.carts) && productId in old(ps.products) && old(ps.products)[productId].quantity < 1 ==>
              outcome == Failure(OutOfStock)
    ensures (user in old(cs.carts) && productId in old(ps.products) && old(ps.products)[productId].quantity >= 1
              && !HasLine(old(cs.carts)[user], productId)) ==> outcome == Failure(NotFound)
    ensures outcome.Failure? ==> ps.products == old(ps.products) && cs.carts == old(cs.carts)
    ensures outcome.Success? ==>
              && user in old(cs.carts) && productId in old(ps.products)
              && var k := FindLine(old(cs.carts)[user], productId);
              && k >= 0
              && cs.carts == old(cs.carts)[user := Bump(old(cs.carts)[user], k, 1)]
              && ps.products == Adjust(old(ps.products), productId, -1)
              && Conserved(old(ps.products), old(cs.carts), ps.products, cs.carts)
    ensures (user in old(cs.carts) && productId in old(ps.products) && old(ps.products)[productId].quantity >= 1
              && HasLine(old(cs.carts)[user], productId)) ==> outcome == Success
  {
    if user !in cs.carts {
      return Failure(NotFound);
    }
    if productId !in ps.products {
      return Failure(NotFound);
    }
    var product := ps.products[productId];
    if product.quantity < 1 {
      return Failure(OutOfStock);
    }
    var items := cs.carts[user];
    var k := FindLine(items, productId);
    if k == -1 {
      return Failure(NotFound);
    }
    var items' := items[k := items[k].(quantity := items[k].quantity + 1)];
    forall q | true
      ensures Reserved(items', q) == Reserved(items, q) + (if q == productId then 1 else 0)
    {
      ReservedUpdate(items, k, items'[k], q);
    }
    MoveConserves(ps.products, cs.carts, user, items', productId, 1);
    assert WellFormed(items') by {
      assert forall i :: 0 <= i < |items'| ==> items'[i].productId == items[i].productId;
    }
    ps.products := ps.products[productId := product.(quantity := product.quantity - 1)];
    cs.carts := cs.carts[user := items'];
    outcome := Success;
  }

  /**
   * `decreaseCartItem`: one unit of `productId` back from `user`'s cart to
   * stock; a line that reaches zero is filtered out.
   */
  method DecreaseCartItem(ps: ProductStore, cs: CartStore, user: MemberId, productId: ProductId)
    returns (outcome: Outcome)
    requires cs.Valid()
    modifies ps`products, cs`carts
    ensures cs.Valid()
    ensures user !in old(cs.carts) ==> outcome == Failure(NotFound)
    ensures user in old(cs.carts) && !HasLine(old(cs.carts)[user], productId) ==> outcome == Failure(NotFound)
    ensures user in old(cs.carts) && HasLine(old(cs.carts)[user], productId) && productId !in old(ps.products) ==>
              outcome == Failure(NotFound)
    ensures outcome.Failure? ==> ps.products == old(ps.products) && cs.carts == old(cs.carts)
    ensures user in old(cs.carts) && HasLine(old(cs.carts)[user], productId) && productId in old(ps.products) ==>
              && outcome == Success
              && var k := FindLine(old(cs.carts)[user], productId);
              && cs.carts == old(cs.carts)[user := DropOne(old(cs.carts)[user], k)]
              && ps.products == Adjust(old(ps.products), productId, 1)
              && (old(cs.carts)[user][k].quantity == 1 ==> !HasLine(cs.carts[user], productId))
              && Conserved(old(ps.products), old(cs.carts), ps.products, cs.carts)
  {
    if user !in cs.carts {
      return Failure(NotFound);
    }
    var items := cs.carts[user];
    var k := FindLine(items, productId);
    if k == -1 {
      return Failure(NotFound);
    }
    if productId !in ps.products {
      return Failure(NotFound);
    }
    var product := ps.products[productId];
    var items' := items[k := items[k].(quantity := items[k].quantity - 1)];
    if items'[k].quantity <= 0 {
      items' := RemoveLine(items', productId);
      assert items' == RemoveLine(items, productId) by {
        RemoveLineUnaffected(items, k, items[k].(quantity := items[k].quantity - 1));
      }
    }
    assert items' == DropOne(items, k);
    forall q | true
      ensures Reserved(items', q) == Reserved(items, q) + (if q == productId then -1 else 0)
    {
      DropOneReserves(items, k, q);
    }
    MoveConserves(ps.products, cs.carts, user, items', productId, -1);
    DropOneWellFormed(items, k);
    ps.products := ps.products[productId := product.(quantity := product.quantity + 1)];
    cs.carts := cs.carts[user := items'];
    outcome := Success;
  }

  /** Filtering out a product gives the same list whatever the quantity on its line. */
  lemma {:induction false} RemoveLineUnaffected(items: seq<Line>, k: nat, l: Line)
    requires k < |items| && l.productId == items[k].productId
    ensures RemoveLine(items[k := l], l.productId) == RemoveLine(items, l.productId)
  {
    if k > 0 {
      assert items[k := l][1..] == items[1..][k - 1 := l];
      RemoveLineUnaffected(items[1..], k - 1, l);
    }
  }

  /**
   * `removeCartItem`: the whole line of `productId` back to stock. When the
   * product no longer exists, `product.save()` is called on null and the
   * handler ends in its catch block with nothing saved.
   */
  method RemoveCartItem(ps: ProductStore, cs: CartStore, user: MemberId, productId: ProductId)
    returns (outcome: Outcome)
    requires cs.Valid()
    modifies ps`products, cs`carts
    ensures cs.Valid()
    ensures user !in old(cs.carts) ==> outcome == Failure(NotFound)
    ensures user in old(cs.carts) && !HasLine(old(cs.carts)[user], productId) ==> outcome == Failure(NotFound)
    ensures user in old(cs.carts) && HasLine(old(cs.carts)[user], productId) && productId !in old(ps.products) ==>
              outcome == Failure(ServerError)
    ensures outcome.Failure? ==> ps.products == old(ps.products) && cs.carts == old(cs.carts)
    ensures user in old(cs.carts) && HasLine(old(cs.carts)[user], productId) && productId in old(ps.products) ==>
              && outcome == Success
              && var items := old(cs.carts)[user];
              && var k := FindLine(items, productId);
              && cs.carts == old(cs.carts)[user := items[..k] + items[k + 1..]]
              && ps.products == Adjust(old(ps.products), productId, items[k].quantity)
              && !HasLine(cs.carts[user], productId)
              && Conserved(old(ps.products), old(cs.carts), ps.products, cs.carts)
  {
    if user !in cs.carts {
      return Failure(NotFound);
    }
    var items := cs.carts[user];
    var k := FindLine(items, productId);
    if k == -1 {
      return Failure(NotFound);
    }
    var line := items[k];
    if productId !in ps.products {
      return Failure(ServerError);
    }
    var items' := RemoveLine(items, productId);
    RemoveConserves(ps.products, cs.carts, user, productId);
    ps.products := Adjust(ps.products, productId, line.quantity);
    cs.carts := cs.carts[user := items'];
    outcome := Success;
  }

  /**
   * Filtering out the found line of `productId` and handing its quantity
   * back to stock: the list loses exactly that line, stays well formed, and
   * stock is conserved.
   */
  lemma RemoveConserves(products: map<ProductId, Product>, carts: map<MemberId, seq<Line>>, user: MemberId, productId: ProductId)
    requires user in carts && WellFormed(carts[user]) && productId in products
    requires FindLine(carts[user], productId) >= 0
    ensures var items := carts[user];
            var k := FindLine(items, productId);
            && RemoveLine(items, productId) == items[..k] + items[k + 1..]
            && !HasLine(RemoveLine(items, productId), productId)
            && WellFormed(RemoveLine(items, productId))
            && Conserved(products, carts, Adjust(products, productId, items[k].quantity),
                         carts[user := RemoveLine(items, productId)])
  {
    var items := carts[user];
    var k := FindLine(items, productId);
    var items' := RemoveLine(items, productId);
    assert items' == items[..k] + items[k + 1..] by {
      RemoveLineAt(items, k);
    }
    assert !HasLine(items', productId) by {
      RemoveLineKeepsOthers(items, productId);
    }
    assert WellFormed(items') by {
      RemoveLineWellFormed(items, productId);
    }
    ReservedOfLine(items, k);
    forall q | true
      ensures Reserved(items', q) == Reserved(items, q) + (if q == productId then -items[k].quantity else 0)
    {
      ReservedRemoveLine(items, productId, q);
    }
    MoveConserves(products, carts, user, items', productId, -items[k].quantity);
  }

  /** The first line of `items` whose product is missing is the one at `k`. */
  predicate FirstMissing(products: map<ProductId, Product>, items: seq<Line>, k: int) {
    && 0 <= k < |items|
    && items[k].productId !in products
    && AllStocked(products, items[..k])
  }

  /**
   * `clearCart`: hand every line back to its product, then empty the cart.
   * The loop saves each product as it goes; a line whose product is gone
   * makes `product.save()` throw, so the handler fails after the earlier
   * lines' stock has been restored and before the cart is emptied.
   */
  method ClearCart(ps: ProductStore, cs: CartStore, user: MemberId) returns (outcome: Outcome)
    requires cs.Valid()
    modifies ps`products, cs`carts
    ensures cs.Valid()
    ensures user !in old(cs.carts) ==>
              outcome == Failure(NotFound) && ps.products == old(ps.products) && cs.carts == old(cs.carts)
    ensures user in old(cs.carts) && AllStocked(old(ps.products), old(cs.carts)[user]) ==>
              && outcome == Success
              && cs.carts == old(cs.carts)[user := []]
              && ps.products == Restored(old(ps.products), old(cs.carts)[user])
              && Conserved(old(ps.products), old(cs.carts), ps.products, cs.carts)
    ensures user in old(cs.carts) && !AllStocked(old(ps.products), old(cs.carts)[user]) ==>
              && outcome == Failure(ServerError)
              && cs.carts == old(cs.carts)
              && exists k :: FirstMissing(old(ps.products), old(cs.carts)[user], k)
                          && ps.products == Restored(old(ps.products), old(cs.carts)[user][..k])
  {
    if user !in cs.carts {
      return Failure(NotFound);
    }
    var items := cs.carts[user];
    var i := 0;
    while i < |items|
      invariant 0 <= i <= |items|
      invariant cs.carts == old(cs.carts)
      invariant AllStocked(old(ps.products), items[..i])
      invariant ps.products == Restored(old(ps.products), items[..i])
    {
      var line := items[i];
      if line.productId !in ps.products {
        assert FirstMissing(old(ps.products), items, i);
        return Failure(ServerError);
      }
      assert AllStocked(old(ps.products), items[..i + 1]) by {
        assert items[..i + 1] == items[..i] + [line];
      }
      RestoredStep(old(ps.products), items, i);
      ps.products := Credit(ps.products, line);
      i := i + 1;
    }
    assert items[..i] == items;
    ClearConserves(old(ps.products), old(cs.carts), user);
    cs.carts := cs.carts[user := []];
    outcome := Success;
  }

  /** `getCart`: the user's cart, or an empty item list when there is none. */
  function GetCart(cs: CartStore, user: MemberId): (items: seq<Line>)
    reads cs
    ensures user !in cs.carts ==> items == []
    ensures user in cs.carts ==> items == cs.carts[user]
    ensures cs.Valid() ==> WellFormed(items)
  {
    CartOf(cs.carts, user)
  }

  /**
   * One more and then one less on the same line leaves both collections as
   * they were.
   */
  method IncreaseThenDecrease(ps: ProductStore, cs: CartStore, user: MemberId, productId: ProductId)
    returns (first: Outcome, second: Outcome)
    requires cs.Valid()
    modifies ps`products, cs`carts
    ensures first.Success? ==> second == Success
    ensures first.Success? ==> ps.products == old(ps.products) && cs.carts == old(cs.carts)
  {
    first := IncreaseCartItem(ps, cs, user, productId);
    if first.Success? {
      ghost var items := old(cs.carts)[user];
      ghost var k := FindLine(items, productId);
      FindLineSameIds(items, cs.carts[user], productId);
      second := DecreaseCartItem(ps, cs, user, productId);
      BumpThenDropOne(items, k);
    } else {
      second := first;
    }
  }
}
