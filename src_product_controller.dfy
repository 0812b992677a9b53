/**
 * The product handlers of src/controllers/productController.js. Its schema
 * has no stored image id, so a created product carries none and deleting
 * never calls the image host; the ownership gate is the same as in
 * controllers/productController.js.
 */
module SrcProductController {
  import opened Domain
  import opened Stores
  import opened Catalog

  /** `createProduct`: a new product owned by the requester, with no stored image id. */
  method CreateProduct(ps: ProductStore, requester: MemberId, form: ProductForm, file: Option<Upload>)
    returns (r: Result<ProductId>)
    requires ps.Valid()
    modifies ps
    ensures ps.Valid()
    ensures file.None? ==> r == Err(NoFile) && ps.products == old(ps.products) && ps.nextId == old(ps.nextId)
    ensures file.Some? ==>
              && r == Ok(old(ps.nextId))
              && r.value !in old(ps.products)
              && ps.products.Keys == old(ps.products.Keys) + {r.value}
              && (forall id :: id in old(ps.products) ==> ps.products[id] == old(ps.products)[id])
              && ps.products[r.value] ==
                   Product(form.name, form.details, form.quantity, form.category, form.price, file.value.path, "", requester)
              && Owns(ps.products[r.value], requester)
              && ps.nextId == old(ps.nextId) + 1
  {
    if file.None? {
      return Err(NoFile);
    }
    var id := ps.nextId;
    var product := Product(form.name, form.details, form.quantity, form.category, form.price, file.value.path, "", requester);
    ps.products := ps.products[id := product];
    ps.nextId := ps.nextId + 1;
    r := Ok(id);
  }

  /** `updateProduct`: the owner sets the form fields as given, and the image URL when a file came. */
  method UpdateProduct(ps: ProductStore, requester: MemberId, id: ProductId, form: ProductForm, file: Option<Upload>)
    returns (r: Result<Product>)
    requires ps.Valid()
    modifies ps`products
    ensures ps.Valid()
    ensures id !in old(ps.products) ==> r == Err(NotFound)
    ensures id in old(ps.products) && !Owns(old(ps.products)[id], requester) ==> r == Err(Forbidden)
    ensures r.Err? ==> ps.products == old(ps.products)
    ensures id in old(ps.products) && Owns(old(ps.products)[id], requester) ==>
              && r.Ok?
              && ps.products == old(ps.products)[id := r.value]
              && r.value.name == form.name && r.value.details == form.details && r.value.quantity == form.quantity
              && r.value.category == form.category && r.value.price == form.price
              && r.value.imageUrl == (if file.Some? then file.value.path else old(ps.products)[id].imageUrl)
              && r.value.sellerId == requester
              && r.value.imagePublicId == old(ps.products)[id].imagePublicId
  {
    if id !in ps.products {
      return Err(NotFound);
    }
    var product := ps.products[id];
    if !Owns(product, requester) {
      return Err(Forbidden);
    }
    var updated := Overwrite(product, form, file);
    ps.products := ps.products[id := updated];
    r := Ok(updated);
  }

  /** `deleteProduct`: the owner's product is removed; nothing else changes. */
  method DeleteProduct(ps: ProductStore, requester: MemberId, id: ProductId) returns (outcome: Outcome)
    requires ps.Valid()
    modifies ps`products
    ensures ps.Valid()
    ensures id !in old(ps.products) ==> outcome == Failure(NotFound)
    ensures id in old(ps.products) && !Owns(old(ps.products)[id], requester) ==> outcome == Failure(Forbidden)
    ensures outcome.Failure? ==> ps.products == old(ps.products)
    ensures id in old(ps.products) && Owns(old(ps.products)[id], requester) ==>
              outcome == Success && ps.products == old(ps.products) - {id}
  {
    if id !in ps.products {
      return Failure(NotFound);
    }
    if !Owns(ps.products[id], requester) {
      return Failure(Forbidden);
    }
    ps.products := ps.products - {id};
    outcome := Success;
  }

  /** `listProducts`. */
  function ListProducts(ps: ProductStore): (r: map<ProductId, ListingEntry>)
    reads ps
    ensures r.Keys == ps.products.Keys
  {
    Listing(ps.products)
  }

  /** `listSellerProducts`: the requester's own products. */
  function ListSellerProducts(ps: ProductStore, requester: MemberId): (r: map<ProductId, SellerEntry>)
    reads ps
    ensures forall id :: id in r <==> id in ps.products && Owns(ps.products[id], requester)
  {
    SellerProducts(ps.products, requester)
  }

  /**
   * Only the owner can remove a product: whoever else asks, a delete
   * followed by the owner's own listing still shows it.
   */
  method OthersCannotDelete(ps: ProductStore, requester: MemberId, id: ProductId)
    requires ps.Valid() && id in ps.products && !Owns(ps.products[id], requester)
    modifies ps`products
    ensures ps.products == old(ps.products)
    ensures id in ListSellerProducts(ps, ps.products[id].sellerId)
  {
    var outcome := DeleteProduct(ps, requester, id);
    var updated := UpdateProduct(ps, requester, id, ProductForm("", "", 0, "", Price(0.0)), None);
  }
}
