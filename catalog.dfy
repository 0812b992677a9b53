/**
 * The pure side of the two product controllers: the ownership gate, the
 * fixed set of fields an update overwrites, and the two read queries
 * (every product for the listing, one seller's products for the seller
 * page) as projections of the product collection.
 */
module Catalog {
  import opened Domain

  /** The request body of a create or update: the five fields a seller sets. */
  datatype ProductForm = ProductForm(name: string, details: string, quantity: int, category: string, price: Price)

  /** `product.sellerId.toString() === req.user.userId`. */
  predicate Owns(product: Product, requester: MemberId) {
    product.sellerId == requester
  }

  /**
   * The product after `findByIdAndUpdate(id, updateData)`: the five form
   * fields replaced, the image URL replaced only when a file came with the
   * request, the seller and the stored image id kept.
   */
  function Overwrite(product: Product, form: ProductForm, file: Option<Upload>): (r: Product)
    ensures r.name == form.name && r.details == form.details && r.quantity == form.quantity
    ensures r.category == form.category && r.price == form.price
    ensures r.imageUrl == (if file.Some? then file.value.path else product.imageUrl)
    ensures r.sellerId == product.sellerId && r.imagePublicId == product.imagePublicId
  {
    var updated := product.(name := form.name, details := form.details, quantity := form.quantity,
                            category := form.category, price := form.price);
    match file
    case Some(upload) => updated.(imageUrl := upload.path)
    case None => updated
  }

  /**
   * Overwriting depends only on the kept fields of the old product: the
   * same request applied twice, or to any product with the same owner and
   * image, gives the same record.
   */
  lemma OverwriteForgetsOldFields(p: Product, q: Product, form: ProductForm, file: Option<Upload>)
    requires p.sellerId == q.sellerId && p.imagePublicId == q.imagePublicId
    requires file.None? ==> p.imageUrl == q.imageUrl
    ensures Overwrite(p, form, file) == Overwrite(q, form, file)
    ensures Overwrite(Overwrite(p, form, file), form, file) == Overwrite(p, form, file)
  {
  }

  /** The fields `sellerProducts` selects: name, details, quantity, category, price, imageUrl. */
  datatype SellerEntry = SellerEntry(name: string, details: string, quantity: int, category: string, price: Price, imageUrl: string)

  /** The fields `listProducts` projects: imageUrl, price, category, name, quantity, sellerId. */
  datatype ListingEntry = ListingEntry(imageUrl: string, price: Price, category: string, name: string, quantity: int, sellerId: MemberId)

  function ToSellerEntry(p: Product): SellerEntry {
    SellerEntry(p.name, p.details, p.quantity, p.category, p.price, p.imageUrl)
  }

  function ToListingEntry(p: Product): ListingEntry {
    ListingEntry(p.imageUrl, p.price, p.category, p.name, p.quantity, p.sellerId)
  }

  /** `Product.find({ sellerId })` with its `select`: the seller's own products, by id. */
  function SellerProducts(products: map<ProductId, Product>, seller: MemberId): (r: map<ProductId, SellerEntry>)
    ensures forall id :: id in r <==> id in products && products[id].sellerId == seller
    ensures forall id :: id in r ==> r[id].name == products[id].name && r[id].quantity == products[id].quantity
  {
    map id | id in products && products[id].sellerId == seller :: ToSellerEntry(products[id])
  }

  /** `Product.find({}, projection)`: every product, by id. */
  function Listing(products: map<ProductId, Product>): (r: map<ProductId, ListingEntry>)
    ensures r.Keys == products.Keys
    ensures forall id :: id in r ==> r[id].sellerId == products[id].sellerId && r[id].quantity == products[id].quantity
  {
    map id | id in products :: ToListingEntry(products[id])
  }

  /**
   * The seller pages partition the listing: every listed product is on
   * exactly its own seller's page, and no product is on two pages.
   */
  lemma SellerPagesPartitionListing(products: map<ProductId, Product>, s: MemberId, t: MemberId)
    ensures forall id :: id in Listing(products) ==> id in SellerProducts(products, Listing(products)[id].sellerId)
    ensures SellerProducts(products, s).Keys <= Listing(products).Keys
    ensures s != t ==> SellerProducts(products, s).Keys !! SellerProducts(products, t).Keys
  {
  }

  /** An update keeps a product on the same seller page and leaves every other page as it was. */
  lemma OverwriteKeepsPages(products: map<ProductId, Product>, id: ProductId, form: ProductForm, file: Option<Upload>, s: MemberId)
    requires id in products
    ensures var after := products[id := Overwrite(products[id], form, file)];
            && SellerProducts(after, s).Keys == SellerProducts(products, s).Keys
            && (products[id].sellerId != s ==> SellerProducts(after, s) == SellerProducts(products, s))
  {
    var after := products[id := Overwrite(products[id], form, file)];
    if products[id].sellerId != s {
      assert SellerProducts(after, s).Keys == SellerProducts(products, s).Keys;
    }
  }

  /** Deleting one product removes it from its seller's page and changes no other entry. */
  lemma DeleteLeavesOtherPages(products: map<ProductId, Product>, id: ProductId, s: MemberId)
    ensures SellerProducts(products - {id}, s) == SellerProducts(products, s) - {id}
  {
    assert SellerProducts(products - {id}, s).Keys == SellerProducts(products, s).Keys - {id};
  }
}
