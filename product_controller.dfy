/**
 * The seller handlers of controllers/productController.js. Creating needs
 * an uploaded image; updating and deleting are gated on the requester
 * owning the product, and every refusal leaves the product collection and
 * the image host as they were.
 */
module ProductController {
  import opened Domain
  import opened Stores
  import opened Catalog

  /** The record `addProduct` builds from the form, the upload and the requester. */
  function NewProduct(form: ProductForm, file: Upload, requester: MemberId): (p: Product)
    ensures p.sellerId == requester && p.imageUrl == file.path && p.imagePublicId == file.filename
    ensures Owns(p, requester)
  {
    Product(form.name, form.details, form.quantity, form.category, form.price, file.path, file.filename, requester)
  }

  /** `addProduct`: a new product owned by the requester, under a fresh id. */
  method AddProduct(ps: ProductStore, requester: MemberId, form: ProductForm, file: Option<Upload>)
    returns (r: Result<ProductId>)
    requires ps.Valid()
    modifies ps
    ensures ps.Valid()
    ensures file.None? ==> r == Err(NoFile) && ps.products == old(ps.products) && ps.nextId == old(ps.nextId)
    ensures file.Some? ==>
              && r == Ok(old(ps.nextId))
              && r.value !in old(ps.products)
              && ps.products == old(ps.products)[r.value := NewProduct(form, file.value, requester)]
              && ps.nextId == old(ps.nextId) + 1
  {
    if file.None? {
      return Err(NoFile);
    }
    var id := ps.nextId;
    ps.products := ps.products[id := NewProduct(form, file.value, requester)];
    ps.nextId := ps.nextId + 1;
    r := Ok(id);
  }

  /** `updateProduct`: the owner overwrites the form fields, and the image URL when a file came. */
  method UpdateProduct(ps: ProductStore, requester: MemberId, id: ProductId, form: ProductForm, file: Option<Upload>)
    returns (r: Result<Product>)
    requires ps.Valid()
    modifies ps`products
    ensures ps.Valid()
    ensures id !in old(ps.products) ==> r == Err(NotFound)
    ensures id in old(ps.products) && !Owns(old(ps.products)[id], requester) ==> r == Err(Forbidden)
    ensures r.Err? ==> ps.products == old(ps.products)
    ensures id in old(ps.products) && Owns(old(ps.products)[id], requester) ==>
              && r == Ok(Overwrite(old(ps.products)[id], form, file))
              && ps.products == old(ps.products)[id := r.value]
              && Owns(r.value, requester)
  {
    if id !in ps.products {
      return Err(NotFound);
    }
    var product := ps.products[id];
    if !Owns(product, requester) {
      return Err(Forbidden);
    }
    var updated := Overwrite(product, form, file);
    ps.products := ps.products[id := updated];
    r := Ok(updated);
  }

  /**
   * `deleteProduct`: the owner's product is removed, after its image is
   * destroyed when it has a stored image id. `destroyFails` stands for the
   * image host rejecting the request: the awaited call throws and the
   * record is not deleted.
   */
  method DeleteProduct(ps: ProductStore, host: ImageHost, requester: MemberId, id: ProductId, destroyFails: bool)
    returns (outcome: Outcome)
    requires ps.Valid()
    modifies ps`products, host
    ensures ps.Valid()
    ensures id !in old(ps.products) ==> outcome == Failure(NotFound)
    ensures id in old(ps.products) && !Owns(old(ps.products)[id], requester) ==> outcome == Failure(Forbidden)
    ensures outcome.Failure? ==> ps.products == old(ps.products)
    ensures (id in old(ps.products) && Owns(old(ps.products)[id], requester)
              && (old(ps.products)[id].imagePublicId == "" || !destroyFails)) ==> outcome == Success
    ensures outcome == Failure(ServerError) <==>
              id in old(ps.products) && Owns(old(ps.products)[id], requester)
              && old(ps.products)[id].imagePublicId != "" && destroyFails
    ensures outcome.Failure? ==> host.destroyed == old(host.destroyed)
    ensures outcome == Success ==>
              && id in old(ps.products) && Owns(old(ps.products)[id], requester)
              && ps.products == old(ps.products) - {id}
              && host.destroyed == old(host.destroyed) +
                   (if old(ps.products)[id].imagePublicId != "" then [old(ps.products)[id].imagePublicId] else [])
  {
    if id !in ps.products {
      return Failure(NotFound);
    }
    var product := ps.products[id];
    if !Owns(product, requester) {
      return Failure(Forbidden);
    }
    if product.imagePublicId != "" {
      if destroyFails {
        return Failure(ServerError);
      }
      host.destroyed := host.destroyed + [product.imagePublicId];
    }
    ps.products := ps.products - {id};
    outcome := Success;
  }

  /** `listProducts`. */
  function ListProducts(ps: ProductStore): (r: map<ProductId, ListingEntry>)
    reads ps
    ensures r.Keys == ps.products.Keys
  {
    Listing(ps.products)
  }

  /** `sellerProducts`: the requester's own products. */
  function SellerProductsOf(ps: ProductStore, requester: MemberId): (r: map<ProductId, SellerEntry>)
    reads ps
    ensures forall id :: id in r <==> id in ps.products && Owns(ps.products[id], requester)
  {
    SellerProducts(ps.products, requester)
  }

  /**
   * A seller who adds a product and then deletes it (the image host
   * accepting) leaves the product collection as it was, and the image host
   * has been asked to destroy exactly the uploaded image.
   */
  method AddThenDelete(ps: ProductStore, host: ImageHost, requester: MemberId, form: ProductForm, file: Upload)
    requires ps.Valid() && file.filename != ""
    modifies ps, host
    ensures ps.Valid()
    ensures ps.products == old(ps.products)
    ensures host.destroyed == old(host.destroyed) + [file.filename]
  {
    var created := AddProduct(ps, requester, form, Some(file));
    var outcome := DeleteProduct(ps, host, requester, created.value, false);
    assert old(ps.products)[created.value := NewProduct(form, file, requester)] - {created.value} == old(ps.products);
  }
}
