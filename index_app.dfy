/**
 * The routes of index.js that change stock or remove products: the
 * one-unit stock decrement and increment, and the product delete that
 * derives the image's public id from its URL. Its `/signup` route is the
 * shared `Accounts.Signup`.
 */
module IndexApp {
  import opened Domain
  import opened Stores
  import opened Reservation
  import opened PublicId

  /** `POST /products/decrease-quantity/:id`: one unit out of stock; the reply carries the new stock. */
  method DecreaseQuantity(ps: ProductStore, id: ProductId) returns (r: Result<int>)
    requires ps.Valid()
    modifies ps`products
    ensures ps.Valid()
    ensures id !in old(ps.products) ==> r == Err(NotFound)
    ensures id in old(ps.products) && old(ps.products)[id].quantity <= 0 ==> r == Err(OutOfStock)
    ensures r.Err? ==> ps.products == old(ps.products)
    ensures id in old(ps.products) && old(ps.products)[id].quantity > 0 ==>
              && ps.products == Adjust(old(ps.products), id, -1)
              && r == Ok(old(ps.products)[id].quantity - 1)
    ensures r.Ok? ==> r.value >= 0 && r.value == ps.products[id].quantity
  {
    if id !in ps.products {
      return Err(NotFound);
    }
    var product := ps.products[id];
    if product.quantity <= 0 {
      return Err(OutOfStock);
    }
    var q := product.quantity - 1;
    ps.products := ps.products[id := product.(quantity := q)];
    r := Ok(q);
  }

  /** `POST /products/increase-quantity/:id`: one unit back into stock; the reply carries the new stock. */
  method IncreaseQuantity(ps: ProductStore, id: ProductId) returns (r: Result<int>)
    requires ps.Valid()
    modifies ps`products
    ensures ps.Valid()
    ensures id !in old(ps.products) ==> r == Err(NotFound) && ps.products == old(ps.products)
    ensures id in old(ps.products) ==>
              && ps.products == Adjust(old(ps.products), id, 1)
              && r == Ok(old(ps.products)[id].quantity + 1)
              && r.value == ps.products[id].quantity
  {
    if id !in ps.products {
      return Err(NotFound);
    }
    var product := ps.products[id];
    var q := product.quantity + 1;
    ps.products := ps.products[id := product.(quantity := q)];
    r := Ok(q);
  }

  /** Moving a product's stock by `delta` and back by `-delta` restores the collection. */
  lemma AdjustRoundTrip(products: map<ProductId, Product>, id: ProductId, delta: int)
    requires id in products
    ensures Adjust(Adjust(products, id, delta), id, -delta) == products
    ensures OnlyStockChanged(products, Adjust(products, id, delta))
  {
    assert Adjust(products, id, delta)[id].(quantity := products[id].quantity) == products[id];
  }

  /** A successful decrease followed by an increase of the same product leaves the collection as it was. */
  method DecreaseThenIncrease(ps: ProductStore, id: ProductId)
    requires ps.Valid() && id in ps.products && ps.products[id].quantity > 0
    modifies ps`products
    ensures ps.Valid()
    ensures ps.products == old(ps.products)
  {
    var down := DecreaseQuantity(ps, id);
    var up := IncreaseQuantity(ps, id);
    AdjustRoundTrip(old(ps.products), id, -1);
  }

  /**
   * `DELETE /products/:id`: the record is removed first; then, when it has
   * an image URL, the public id is derived and its destruction requested.
   * A URL without "/upload/" makes the derivation throw after the record
   * is already gone.
   */
  method DeleteProduct(ps: ProductStore, host: ImageHost, id: ProductId) returns (outcome: Outcome)
    requires ps.Valid()
    modifies ps`products, host
    ensures ps.Valid()
    ensures id !in old(ps.products) ==>
              outcome == Failure(NotFound) && ps.products == old(ps.products) && host.destroyed == old(host.destroyed)
    ensures id in old(ps.products) ==>
              ps.products == old(ps.products) - {id} && (outcome == Success || outcome == Failure(ServerError))
    ensures id in old(ps.products) && old(ps.products)[id].imageUrl == "" ==>
              outcome == Success && host.destroyed == old(host.destroyed)
    ensures id in old(ps.products) && old(ps.products)[id].imageUrl != "" ==>
              && (outcome == Failure(ServerError) <==> !Contains(old(ps.products)[id].imageUrl, "/upload/"))
              && (outcome == Failure(ServerError) ==> host.destroyed == old(host.destroyed))
              && (outcome == Success ==>
                    && PublicIdOf(old(ps.products)[id].imageUrl).Some?
                    && host.destroyed == old(host.destroyed) + [PublicIdOf(old(ps.products)[id].imageUrl).value])
  {
    if id !in ps.products {
      return Failure(NotFound);
    }
    var deleted := ps.products[id];
    ps.products := ps.products - {id};
    if deleted.imageUrl != "" {
      PublicIdDefined(deleted.imageUrl);
      match PublicIdOf(deleted.imageUrl)
      case None =>
        return Failure(ServerError);
      case Some(publicId) =>
        host.destroyed := host.destroyed + [publicId];
    }
    outcome := Success;
  }

  /**
   * Deleting a product whose image URL has the host's usual shape asks the
   * host to destroy the folder-qualified id, without version or extension,
   * whatever the URL's origin.
   */
  method DeleteUploadedProduct(ps: ProductStore, host: ImageHost, id: ProductId, origin: string)
    requires ps.Valid() && id in ps.products
    requires ps.products[id].imageUrl == origin + "/upload/" + "v1/shop_products/a.jpg"
    requires NoneBefore(ps.products[id].imageUrl, "/upload/", |origin|)
    modifies ps`products, host
    ensures ps.products == old(ps.products) - {id}
    ensures host.destroyed == old(host.destroyed) + ["shop_products/a"]
  {
    PublicIdExample(origin);
    PublicIdDefined(ps.products[id].imageUrl);
    var outcome := DeleteProduct(ps, host, id);
  }
}
