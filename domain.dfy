/**
 * Entities and replies shared by every controller of the shop backend:
 * product and member records (the shapes of the Mongoose schemas), the
 * uploaded-file descriptor the upload middleware attaches to a request,
 * and the error replies the handlers send.
 */
module Domain {

  type ProductId = nat
  type MemberId = nat

  datatype Option<+T> = None | Some(value: T)

  /** A price is carried through unchanged; no handler computes with it. */
  datatype Price = Price(amount: real)

  /** A product record; `quantity` is the stock counter the cart reserves from. */
  datatype Product = Product(
    name: string,
    details: string,
    quantity: int,
    category: string,
    price: Price,
    imageUrl: string,
    imagePublicId: string,
    sellerId: MemberId)

  /** A member record; the password is only ever stored hashed. */
  datatype Member = Member(
    id: MemberId,
    name: string,
    email: string,
    passwordHash: string,
    role: string,
    profilePic: Option<string>)

  /** The file descriptor the upload middleware puts on `req.file`. */
  datatype Upload = Upload(path: string, filename: string)

  /** The error replies of the handlers; `Code` gives the HTTP status. */
  datatype Error =
    | MissingFields       // "All fields are required"
    | UserExists          // "User already exists"
    | InvalidCredentials  // "Invalid credentials"
    | NoFile              // "No file received" / "No file uploaded"
    | NameRequired        // "Name is required"
    | NotFound            // "... not found", "Item not in cart"
    | Forbidden           // "Access denied"
    | OutOfStock          // "Not enough stock" / "Out of stock"
    | ServerError         // a thrown exception caught by the handler

  /**
   * The status each error is sent with: 404 for a missing record, 403 for
   * the ownership gate, 500 from a handler's `catch`, 400 for the rest.
   */
  function Code(e: Error): (status: int)
    ensures 400 <= status < 600
    ensures status == 404 <==> e == NotFound
    ensures status == 403 <==> e == Forbidden
    ensures status == 500 <==> e == ServerError
    ensures status == 400 <==> e in {MissingFields, UserExists, InvalidCredentials, NoFile, NameRequired, OutOfStock}
  {
    match e
    case NotFound => 404
    case Forbidden => 403
    case ServerError => 500
    case _ => 400
  }

  /** The reply of a handler whose success carries no value. */
  datatype Outcome = Success | Failure(error: Error)

  /** The reply of a handler whose success carries a value. */
  datatype Result<+T> = Ok(value: T) | Err(error: Error)

  /** JavaScript truthiness of an optional string field: a missing field and "" are both falsy. */
  predicate Present(field: Option<string>) {
    field.Some? && field.value != ""
  }

  /**
   * `Array.prototype.findIndex`: the first index whose element satisfies `f`,
   * or -1 when none does.
   */
  function FirstIndex<T>(s: seq<T>, f: T -> bool): (k: int)
    ensures -1 <= k < |s|
    ensures 0 <= k ==> f(s[k]) && forall j :: 0 <= j < k ==> !f(s[j])
    ensures k == -1 ==> forall j :: 0 <= j < |s| ==> !f(s[j])
  {
    if s == [] then -1
    else if f(s[0]) then 0
    else
      var k := FirstIndex(s[1..], f);
      if k == -1 then -1 else k + 1
  }
}
