/**
 * Stock conservation across the product and cart collections. For every
 * product, its stock counter plus what all carts hold of it is the
 * quantity the product had before any cart activity; `Conserved` says a
 * transition keeps that sum, and the lemmas reduce a change to one user's
 * cart to the change of that cart's reserved amounts.
 */
module Reservation {
  import opened Domain
  import opened CartLines

  /** `Cart.findOne({ userId })`, with a missing cart read as an empty one. */
  function CartOf(carts: map<MemberId, seq<Line>>, user: MemberId): (items: seq<Line>)
    ensures user !in carts ==> items == []
    ensures user in carts ==> items == carts[user]
  {
    if user in carts then carts[user] else []
  }

  /** What the carts of `users` hold of product `p`. */
  ghost function ReservedAmong(carts: map<MemberId, seq<Line>>, users: set<MemberId>, p: ProductId): int
    requires users <= carts.Keys
    decreases users
  {
    if users == {} then 0
    else
      var u :| u in users;
      Reserved(carts[u], p) + ReservedAmong(carts, users - {u}, p)
  }

  /** What all carts hold of product `p`. */
  ghost function ReservedAll(carts: map<MemberId, seq<Line>>, p: ProductId): int {
    ReservedAmong(carts, carts.Keys, p)
  }

  /** Product `p`'s stock moved by `delta`, every other field and product kept. */
  function Adjust(products: map<ProductId, Product>, p: ProductId, delta: int): (r: map<ProductId, Product>)
    requires p in products
    ensures r.Keys == products.Keys
    ensures r[p].quantity == products[p].quantity + delta
    ensures OnlyStockChanged(products, r)
    ensures forall q :: q in products && q != p ==> r[q] == products[q]
  {
    products[p := products[p].(quantity := products[p].quantity + delta)]
  }

  /** Only stock counters differ between the two product maps. */
  predicate OnlyStockChanged(before: map<ProductId, Product>, after: map<ProductId, Product>) {
    && after.Keys == before.Keys
    && forall p :: p in before ==> after[p] == before[p].(quantity := after[p].quantity)
  }

  /** Stock plus everything reserved in carts is the same before and after, for every product. */
  ghost predicate Conserved(
    products: map<ProductId, Product>, carts: map<MemberId, seq<Line>>,
    products': map<ProductId, Product>, carts': map<MemberId, seq<Line>>)
  {
    && OnlyStockChanged(products, products')
    && forall p :: p in products ==>
         products'[p].quantity + ReservedAll(carts', p) == products[p].quantity + ReservedAll(carts, p)
  }

  /** The set sum does not depend on which user is taken first. */
  lemma {:induction false} ReservedAmongSplit(carts: map<MemberId, seq<Line>>, users: set<MemberId>, u: MemberId, p: ProductId)
    requires u in users && users <= carts.Keys
    ensures ReservedAmong(carts, users, p) == Reserved(carts[u], p) + ReservedAmong(carts, users - {u}, p)
    decreases users
  {
    var v :| v in users && ReservedAmong(carts, users, p) == Reserved(carts[v], p) + ReservedAmong(carts, users - {v}, p);
    if v != u {
      ReservedAmongSplit(carts, users - {v}, u, p);
      ReservedAmongSplit(carts, users - {u}, v, p);
      assert users - {v} - {u} == users - {u} - {v};
    }
  }

  /** The sum over `users` reads only the carts of `users`. */
  lemma {:induction false} ReservedAmongFrame(carts: map<MemberId, seq<Line>>, carts': map<MemberId, seq<Line>>, users: set<MemberId>, p: ProductId)
    requires users <= carts.Keys && users <= carts'.Keys
    requires forall u :: u in users ==> carts[u] == carts'[u]
    ensures ReservedAmong(carts, users, p) == ReservedAmong(carts', users, p)
    decreases users
  {
    if users != {} {
      var v :| v in users && ReservedAmong(carts, users, p) == Reserved(carts[v], p) + ReservedAmong(carts, users - {v}, p);
      ReservedAmongSplit(carts', users, v, p);
      ReservedAmongFrame(carts, carts', users - {v}, p);
    }
  }

  /** Replacing one user's cart changes the total reserved by that cart's difference only. */
  lemma ReservedAllUpdate(carts: map<MemberId, seq<Line>>, user: MemberId, items: seq<Line>, p: ProductId)
    ensures ReservedAll(carts[user := items], p) == ReservedAll(carts, p) - Reserved(CartOf(carts, user), p) + Reserved(items, p)
  {
    var carts' := carts[user := items];
    var others := carts.Keys - {user};
    assert carts'.Keys - {user} == others;
    ReservedAmongSplit(carts', carts'.Keys, user, p);
    ReservedAmongFrame(carts, carts', others, p);
    if user in carts {
      ReservedAmongSplit(carts, carts.Keys, user, p);
    } else {
      assert others == carts.Keys;
    }
  }

  /**
   * A handler that moves `delta` units of `pid` into one user's cart and
   * the same `delta` out of `pid`'s stock, and changes no other product's
   * reservation, conserves stock.
   */
  lemma MoveConserves(
    products: map<ProductId, Product>, carts: map<MemberId, seq<Line>>,
    user: MemberId, items: seq<Line>, pid: ProductId, delta: int)
    requires pid in products
    requires forall q :: Reserved(items, q) == Reserved(CartOf(carts, user), q) + (if q == pid then delta else 0)
    ensures Conserved(products, carts, Adjust(products, pid, -delta), carts[user := items])
  {
    forall p | p in products
      ensures Adjust(products, pid, -delta)[p].quantity + ReservedAll(carts[user := items], p)
           == products[p].quantity + ReservedAll(carts, p)
    {
      ReservedAllUpdate(carts, user, items, p);
    }
  }

  // ---------------------------------------------------------------------
  // clearCart's restoring loop

  /** `if (product) product.quantity += item.quantity` for one line. */
  function Credit(products: map<ProductId, Product>, l: Line): (r: map<ProductId, Product>)
    ensures r.Keys == products.Keys
    ensures l.productId in products ==>
              r[l.productId] == products[l.productId].(quantity := products[l.productId].quantity + l.quantity)
    ensures forall q :: q in products && q != l.productId ==> r[q] == products[q]
  {
    if l.productId in products then Adjust(products, l.productId, l.quantity) else products
  }

  /** The product map after the loop has handed back the lines of `items`, in order. */
  function Restored(products: map<ProductId, Product>, items: seq<Line>): (r: map<ProductId, Product>)
    ensures r.Keys == products.Keys
  {
    if items == [] then products
    else Credit(Restored(products, items[..|items| - 1]), items[|items| - 1])
  }

  /** One more turn of the loop hands back line `i`. */
  lemma RestoredStep(products: map<ProductId, Product>, items: seq<Line>, i: nat)
    requires i < |items|
    ensures Restored(products, items[..i + 1]) == Credit(Restored(products, items[..i]), items[i])
  {
    assert items[..i + 1][..i] == items[..i];
  }

  /** Every line of `items` names a product that exists. */
  predicate AllStocked(products: map<ProductId, Product>, items: seq<Line>) {
    forall i :: 0 <= i < |items| ==> items[i].productId in products
  }

  /**
   * When every line's product exists, restoring hands each product back
   * exactly what the lines held of it and touches nothing else.
   */
  lemma {:induction false} RestoredReturnsReserved(products: map<ProductId, Product>, items: seq<Line>)
    requires AllStocked(products, items)
    ensures OnlyStockChanged(products, Restored(products, items))
    ensures forall p :: p in products ==>
              Restored(products, items)[p].quantity == products[p].quantity + Reserved(items, p)
  {
    if items != [] {
      var init, last := items[..|items| - 1], items[|items| - 1];
      assert items == init + [last];
      RestoredReturnsReserved(products, init);
      forall p | p in products
        ensures Reserved(items, p) == Reserved(init, p) + Share(last, p)
      {
        ReservedAppend(init, [last], p);
        assert [last][1..] == [];
      }
    }
  }

  /** Emptying a cart after every one of its lines went back to stock conserves stock. */
  lemma ClearConserves(products: map<ProductId, Product>, carts: map<MemberId, seq<Line>>, user: MemberId)
    requires user in carts && AllStocked(products, carts[user])
    ensures Conserved(products, carts, Restored(products, carts[user]), carts[user := []])
  {
    RestoredReturnsReserved(products, carts[user]);
    forall p | p in products
      ensures Restored(products, carts[user])[p].quantity + ReservedAll(carts[user := []], p)
           == products[p].quantity + ReservedAll(carts, p)
    {
      ReservedAllUpdate(carts, user, [], p);
    }
  }
}
