# Shop backend: cart/inventory coordinator and its neighbours

This is a Dafny model of the request handlers of a small shop backend built on
Express and Mongoose. Its centre is the cart coordinator
(`src/controllers/cartController.js`). Five handlers (add, increase, decrease,
remove, clear) each edit a user's cart and the matching product's stock
counter together.

The model keeps the collections as objects whose fields the handlers update
in place (`Stores`):

- `ProductStore`: a map from product id to product, plus the next fresh id.
- `CartStore`: a map from user id to a list of `(productId, quantity)` lines.
- `MemberStore`: the members in insertion order; lookups return the first match.
- `ImageHost`: the log of destroy requests sent to the image host.

Each handler is one sequential method. It returns `Success` or a `Failure`
with the handler's error, and its postcondition states the new state outright.

The main proved property is global stock conservation (`Reservation.Conserved`).
For every product, its stock plus what all carts hold of it is the same before
and after each successful cart handler. A request refused by one of a handler's
checks changes nothing. Two server-error paths are the exception, and each
contract states the state it leaves: `clearCart`'s partial restore (below) and
the `index.js` product delete, which removes the record before the public-id
derivation can throw (`IndexApp.DeleteProduct`).
Carts never hold two lines for one product or a line at zero
(`CartLines.WellFormed`, kept as `CartStore.Valid`).

Around the core:

- The one-unit stock endpoints of `index.js`.
- Its derivation of an image's public id from its URL (`PublicId`): a `split`/`replace`/`slice`/`join` chain modelled with JavaScript's semantics.
- The two product controllers with their ownership gate (`Catalog`, `ProductController`, `SrcProductController`).
- Signup and the two logins (`Accounts`, `AuthController`, `SrcAuthController`), with hashing, password comparison and token signing as function parameters.
- The profile handlers (`ProfileController`), with `String.prototype.trim` modelled in `Text`.

The three signup handlers (`index.js:76-93`, `controllers/authController.js:6-30`
and `src/controllers/authController.js:5-21`) run the same checks in the same
order and are all modelled by `Accounts.Signup`. Apart from message text, they
differ in the member schema they write to. The schemas of `models/Member.js`
and `src/models/Member.js` give a new member the picture `""`. The schema that
`index.js:46-51` declares has no picture field at all. `Signup` takes that
default as its `defaultPic` parameter: `Some("")` for the first two handlers and
`None` for `index.js`.

`clearCart` is modelled as written. When a line's product no longer exists,
`product.save()` is called on `null` after the earlier lines' stock has already
been saved. The handler then fails with a server error, the cart is left
intact, and the stock restored so far stays restored. Conservation does not
hold on that path, and `CartController.ClearCart` says exactly what state it
leaves.

## Model

| member | source | states |
|---|---|---|
| CartController.AddToCart | src/controllers/cartController.js:5-33 | Unknown product gives NotFound and stock below the requested quantity gives OutOfStock, both with nothing changed. On success the existing line grows or a new line is appended (a missing cart counts as empty), stock drops by the same quantity, the cart holds the product, carts stay well formed, and stock is conserved. |
| CartController.IncreaseCartItem | src/controllers/cartController.js:36-62 | The failures are checked in a fixed order, each leaving state unchanged: missing cart (NotFound), missing product (NotFound), stock < 1 (OutOfStock), line absent (NotFound). Otherwise the found line rises by 1 and stock falls by 1; everything else is unchanged and stock is conserved. |
| CartController.DecreaseCartItem | src/controllers/cartController.js:65-94 | The checks run in order (missing cart, line absent, missing product), all NotFound with no change. Otherwise the line falls by 1 and stock rises by 1. A line at 1 is removed and the others are kept; stock is conserved. |
| CartController.RemoveCartItem | src/controllers/cartController.js:97-121 | A missing cart or line gives NotFound with no change. A vanished product gives ServerError with nothing saved. Otherwise exactly the matching line is dropped (the list is the old one minus that index), its whole quantity returns to stock, and stock is conserved. |
| CartController.ClearCart | src/controllers/cartController.js:124-145 | A missing cart gives NotFound. If every line's product exists, each line's quantity returns to its product, the cart becomes empty, and stock is conserved. Otherwise the result is ServerError with the cart unchanged and exactly the lines before the first missing product restored. |
| CartController.RemoveConserves | src/controllers/cartController.js:105-114 | Filtering out the found line drops exactly that index, leaves the cart well formed with no line for the product, and handing its quantity back to stock conserves stock plus reservations. |
| CartController.FirstMissing | src/controllers/cartController.js:131-134 | The line at k is the first whose product no longer exists: every line before it names an existing product. |
| CartController.GetCart | src/controllers/cartController.js:148-157 | A user with no cart gets an empty item list; otherwise their stored lines, which are well formed. |
| CartController.IncreaseThenDecrease | src/controllers/cartController.js:51-52 | A successful increase followed by a decrease on the same line succeeds and leaves both collections exactly as they were. |
| CartController.RemoveLineUnaffected | src/controllers/cartController.js:79-83 | Filtering a product out gives the same list whatever quantity its line had just been set to. |
| Reservation.CartOf | src/controllers/cartController.js:14-15 | The user's stored lines, or an empty list when the user has no cart. |
| Reservation.Adjust | src/controllers/cartController.js:24 | `product.quantity += delta`: that product's stock moves by delta, and nothing else changes in it or in any other product. |
| Reservation.Credit | src/controllers/cartController.js:133 | `if (product) product.quantity += item.quantity`: an existing product gains the line's quantity; every other product is unchanged and no product appears or disappears. |
| Reservation.MoveConserves | src/controllers/cartController.js:17-24 | Moving delta units of one product from stock into one user's cart conserves stock plus reservations for every product. |
| Reservation.ClearConserves | src/controllers/cartController.js:131-137 | Handing every line back and emptying the cart conserves stock plus reservations. |
| Reservation.RestoredReturnsReserved | src/controllers/cartController.js:131-135 | With all products present, the restoring loop raises each product's stock by exactly what the lines held of it and changes nothing else. |
| Reservation.ReservedAllUpdate | src/controllers/cartController.js:26 | Replacing one user's cart changes the total reserved of a product only by that cart's difference. |
| Reservation.ReservedAmongSplit | src/controllers/cartController.js:14-26 | The total over a set of users' carts does not depend on the order in which users are taken. |
| Reservation.Restored | src/controllers/cartController.js:131-135 | The loop's product map keeps the same product ids. |
| CartLines.FindLine | src/controllers/cartController.js:17 | `findIndex`: the first line for the product, or -1 exactly when there is none. |
| CartLines.FindLineSameIds | src/controllers/cartController.js:48 | Changing quantities does not move which line `find` picks. |
| CartLines.Bump | src/controllers/cartController.js:51 | `item.quantity += delta`: the line at k has its quantity moved by delta and keeps its product; every other line and the length are unchanged. |
| CartLines.AddLine | src/controllers/cartController.js:17-22 | When the product has a line, that first line grows by q and nothing else changes. Otherwise a line `(p, q)` is pushed at the end. |
| CartLines.RemoveLine | src/controllers/cartController.js:111 | `filter`: no longer than the input, and no line of the product is left. |
| CartLines.DropOne | src/controllers/cartController.js:79-84 | A line above 1 falls by 1 in place. A line at 1 or below leaves the list with no line for its product. |
| CartLines.AddLineWellFormed | src/controllers/cartController.js:17-21 | Adding a positive quantity keeps a cart well formed and never creates a second line for the product. The length grows by one exactly when the product was absent. |
| CartLines.AddLineReserves | src/controllers/cartController.js:17-21 | Adding q of p raises what the cart reserves of p by q and of any other product by nothing. |
| CartLines.DropOneWellFormed | src/controllers/cartController.js:79-84 | Dropping one unit keeps the cart well formed, removes a line that was at 1 and otherwise lowers it by 1. |
| CartLines.DropOneReserves | src/controllers/cartController.js:79-84 | Dropping one unit lowers the reservation of that line's product by 1 and of no other. |
| CartLines.BumpThenDropOne | src/controllers/cartController.js:79-84 | One more then one less on a line gives back the original list. |
| CartLines.RemoveLineKeepsOthers | src/controllers/cartController.js:111 | The filter removes every line of the product and keeps exactly the other lines. |
| CartLines.RemoveLineAt | src/controllers/cartController.js:111 | Without duplicates, the filter removes exactly the one found line. |
| CartLines.RemoveLineWellFormed | src/controllers/cartController.js:111 | Filtering keeps a cart well formed. |
| CartLines.ReservedRemoveLine | src/controllers/cartController.js:111 | After filtering p the cart reserves none of p and the same of every other product. |
| CartLines.ReservedOfLine | src/controllers/cartController.js:109 | Without duplicates, a cart reserves of a product exactly its line's quantity. |
| CartLines.ReservedAppend | src/controllers/cartController.js:21 | Reservations add up over concatenated line lists. |
| CartLines.ReservedUpdate | src/controllers/cartController.js:19 | Replacing one line changes reservations by that line's difference. |
| CartLines.ReservedAbsent | src/controllers/cartController.js:14-22 | A cart without a line for p reserves none of p. |
| Stores.FindByEmail | controllers/authController.js:12 | `findOne({ email })`: a member with that email and none before it, or -1 exactly when none has it. |
| Stores.FindById | src/controllers/profileController.js:6 | `findById`: a member with that id and none before it, or -1 exactly when none has it. |
| Stores.FindByEmailUnique | controllers/authController.js:38 | With unique emails, the lookup by a member's email finds that member. |
| Stores.RoleOrDefault | controllers/authController.js:21 | The role is never empty; a truthy role is kept, otherwise it is "customer". |
| Stores.InsertKeepsValid | controllers/authController.js:12-23 | Appending a member with a fresh id and an unused email keeps ids and emails unique. |
| IndexApp.DecreaseQuantity | index.js:208-221 | Unknown id gives NotFound and stock <= 0 gives OutOfStock, both with nothing changed. Otherwise stock drops by exactly 1 and the reply is the new, non-negative stock. |
| IndexApp.IncreaseQuantity | index.js:224-236 | Unknown id gives NotFound with nothing changed; otherwise stock rises by exactly 1 and the reply is the new stock. |
| IndexApp.AdjustRoundTrip | index.js:214-229 | Moving stock by delta and back restores the collection, and only stock changes. |
| IndexApp.DecreaseThenIncrease | index.js:214-229 | A successful decrease followed by an increase leaves the product collection as it was. |
| IndexApp.DeleteProduct | index.js:160-178 | Unknown id gives NotFound with nothing removed. Otherwise the record is removed whatever follows. With an image URL, the result is ServerError (host untouched) exactly when the URL lacks "/upload/"; else the derived public id is sent to the host. |
| IndexApp.DeleteUploadedProduct | index.js:165-170 | Deleting a product whose URL is `<origin>/upload/v1/shop_products/a.jpg` asks the host to destroy `shop_products/a`, for any origin in which no "/upload/" starts before the one that follows it. |
| PublicId.PublicIdOf | index.js:166-169 | The chain `split("/upload/")[1].replace(...).split("/").slice(1).join("/")`, with `None` where indexing the missing second piece throws. Its properties are the lemmas below. |
| PublicId.Split | index.js:167 | `split(sep)` for a non-empty separator yields at least one piece. |
| PublicId.Join | index.js:169 | `join(sep)` of no pieces is "", and the joined string begins with the first piece. |
| PublicId.DropFirstSegment | index.js:169 | `split("/").slice(1).join("/")`; DropFirstSegmentSpec states what it yields. |
| PublicId.FindExtension | index.js:168 | The regular expression's leftmost match from a position: a match with none before it, or None exactly when there is no match. |
| PublicId.PublicIdDefined | index.js:166-167 | A public id is derived exactly when the URL contains "/upload/"; otherwise the chain throws. |
| PublicId.PublicIdExample | index.js:166-169 | `<origin>/upload/v1/shop_products/a.jpg` gives `shop_products/a` for any origin (which may contain slashes) in which no "/upload/" starts before the one that follows it. |
| PublicId.StripExtension | index.js:168 | `replace(/\..+$/, "")` gives a prefix of the input. It is either the input itself or cut at a dot followed by one or more non-terminator characters to the end. The cut is at the leftmost such match: no match starts inside the result, and the result has no match of its own. |
| PublicId.StripExtensionIdempotent | index.js:168 | Stripping the extension twice is stripping it once. |
| PublicId.StripAtFirstDot | index.js:168 | With no dot before it and a plain suffix after it, the cut is at the first dot. |
| PublicId.DropFirstSegmentSpec | index.js:169 | `split("/").slice(1).join("/")` is "" without a slash. With one, the input is its slash-free first segment, a slash, and the result. |
| PublicId.JoinSplit | index.js:169 | Joining the pieces of a split with the same separator gives back the original string. |
| PublicId.SplitOnePiece | index.js:167 | `split` yields one piece exactly when the separator does not occur. |
| PublicId.FirstPieceClean | index.js:167-169 | The first piece of a split never contains the separator. |
| PublicId.SplitAfterPrefix | index.js:167-169 | When no occurrence of the separator starts inside the text before it, the first cut falls right after that text. |
| Catalog.Owns | controllers/productController.js:34 | The ownership gate: the requester is the product's seller. |
| Catalog.Overwrite | controllers/productController.js:37-53 | An update sets name, details, quantity, category and price from the form. The image URL changes only when a file came; seller and stored image id are kept. |
| Catalog.OverwriteForgetsOldFields | controllers/productController.js:38-53 | The update depends only on the kept fields, so applying it twice is applying it once. |
| Catalog.SellerProducts | controllers/productController.js:96-108 | Exactly the products whose seller is the requester. |
| Catalog.Listing | controllers/productController.js:83-94 | Every product is listed, with its seller and stock. |
| Catalog.SellerPagesPartitionListing | controllers/productController.js:85-101 | Every listed product is on its own seller's page; pages are part of the listing, and distinct sellers' pages are disjoint. |
| Catalog.OverwriteKeepsPages | controllers/productController.js:53 | An update keeps every seller page's product set, and leaves other sellers' pages identical. |
| Catalog.DeleteLeavesOtherPages | controllers/productController.js:74 | A delete removes the product from its seller's page and changes no other entry. |
| ProductController.NewProduct | controllers/productController.js:11-20 | A created product belongs to the requester and records the upload's path and public id. |
| ProductController.AddProduct | controllers/productController.js:5-28 | No file gives NoFile with nothing added. Otherwise exactly one product is added under a fresh id, owned by the requester. |
| ProductController.UpdateProduct | controllers/productController.js:30-59 | Unknown id gives NotFound and a non-owner gets Forbidden, both with nothing changed. Otherwise only that product changes, to the overwritten record, which the reply carries. |
| ProductController.DeleteProduct | controllers/productController.js:61-81 | NotFound and Forbidden change nothing. The host is asked to destroy the stored image id, if there is one, before the record goes; if that request fails, nothing is deleted (ServerError). Otherwise exactly that product is removed. |
| ProductController.ListProducts | controllers/productController.js:83-94 | Every product is listed. |
| ProductController.SellerProductsOf | controllers/productController.js:96-108 | Exactly the requester's products are listed. |
| ProductController.AddThenDelete | controllers/productController.js:5-81 | Adding a product and deleting it restores the collection, and the host is asked to destroy exactly the upload. |
| SrcProductController.CreateProduct | src/controllers/productController.js:3-18 | No file gives NoFile with nothing added. Otherwise exactly one product is added under a fresh id, owned by the requester, with no stored image id. |
| SrcProductController.UpdateProduct | src/controllers/productController.js:20-36 | NotFound and Forbidden change nothing. Otherwise the form fields are set as given, the image URL changes only with a file, and the owner is kept. |
| SrcProductController.DeleteProduct | src/controllers/productController.js:38-49 | NotFound and Forbidden change nothing; otherwise exactly that product is removed. |
| SrcProductController.ListProducts | src/controllers/productController.js:51-59 | Every product is listed. |
| SrcProductController.ListSellerProducts | src/controllers/productController.js:61-70 | Exactly the requester's products are listed. |
| SrcProductController.OthersCannotDelete | src/controllers/productController.js:20-49 | A non-owner's delete and update leave the collection unchanged, and the product stays on its owner's page. |
| Accounts.SignupComplete | controllers/authController.js:9 | `name && email && password`: all three fields are present and non-empty. |
| Accounts.Signup | controllers/authController.js:6-30 | Missing name, email or password gives MissingFields; a used email gives UserExists; both add nothing. Otherwise exactly one member is appended, with a fresh id, the hashed password, the role defaulting to "customer" and the schema's default picture. Ids and emails stay unique. |
| Accounts.NewMember | controllers/authController.js:16-22 | The stored member has the given name and email, the hash of the password (never the password), a non-empty role (the given one if truthy, else "customer"), and the schema's default picture. |
| Accounts.SignupTwice | src/controllers/authController.js:10-15 | Signing up twice with one email adds the member once, and that member is the one the email finds. |
| Accounts.View | src/controllers/profileController.js:6 | A reply carries every member field except the password. |
| AuthController.Login | controllers/authController.js:32-64 | Missing email or password gives MissingFields; a complete request that fails always gets InvalidCredentials. Success holds exactly when both fields are present, a member has the email, and the password matches the first such member's hash. The reply is that member's view with its picture replaced by "" when the stored one is missing or empty, and a token signed over its id, role and name. |
| AuthController.PicOrEmpty | controllers/authController.js:58 | A truthy picture is kept; otherwise the reply carries "". |
| AuthController.LoginHidesCause | controllers/authController.js:38-42 | Unknown email and wrong password give the same InvalidCredentials reply. |
| AuthController.LoginSucceedsIff | controllers/authController.js:38-59 | With unique emails, login succeeds exactly when the password matches that email's member, and the reply is that member. |
| AuthController.LoginAfterSignup | controllers/authController.js:6-59 | After signup, logging in with the same email and password returns the new member, as a customer with picture "", whether the schema's default picture is "" or absent. |
| SrcAuthController.Login | src/controllers/authController.js:23-42 | No required-field check: every failure is InvalidCredentials. Success holds exactly when a member has the email and the first such member's hash matches; the reply is that member's view and a token signed over its id, role and name. |
| SrcAuthController.LoginVariantsAgree | src/controllers/authController.js:23-42 | On complete requests the two logins succeed and fail together with the same error and token. They differ only in the picture default. |
| ProfileController.GetProfile | src/controllers/profileController.js:4-13 | NotFound exactly when no member has the id; otherwise that member's view, without the password. |
| ProfileController.NameMissing | src/controllers/profileController.js:19 | The name check: the name is absent, empty, or trims to "". |
| ProfileController.NameMissingIffBlank | src/controllers/profileController.js:19 | The name check refuses exactly a missing name or one made only of whitespace. |
| ProfileController.UpdateProfile | src/controllers/profileController.js:16-35 | A missing or blank name gives NameRequired, then an unknown member gives NotFound; both change nothing. Otherwise only that member's name changes, to the trimmed input, which is non-empty with no whitespace at either end. |
| ProfileController.FileMissing | src/controllers/profileController.js:40 | The file check: no file, or a file with an empty path. |
| ProfileController.UpdateProfilePic | src/controllers/profileController.js:38-56 | A missing file or path gives NoFile, then an unknown member gives NotFound; both change nothing. Otherwise only that member's picture changes, to the file path. |
| ProfileController.OnlyNameChanged | src/controllers/profileController.js:22-26 | `findByIdAndUpdate(id, { name })`: same length, only member k's name may differ, every other member is identical. |
| ProfileController.OnlyPicChanged | src/controllers/profileController.js:43-47 | `findByIdAndUpdate(id, { profilePic })`: same length, only member k's picture may differ, every other member is identical. |
| ProfileController.ProfileEditKeepsValid | src/controllers/profileController.js:22-47 | Changing one member's name or picture keeps ids and emails unique. |
| ProfileController.RenameIsStable | src/controllers/profileController.js:22-26 | Submitting the stored name again changes nothing. |
| Text.IsWhitespace | src/controllers/profileController.js:24 | The characters `trim()` removes: the ECMAScript WhiteSpace and LineTerminator characters, with the Unicode space separators listed out. |
| Text.TrimStart | src/controllers/profileController.js:24 | The leading-whitespace half of `trim()`: a suffix of the input whose cut-off part is all whitespace and which starts with a non-space, if non-empty. |
| Text.TrimEnd | src/controllers/profileController.js:24 | The trailing-whitespace half of `trim()`: a prefix of the input whose cut-off part is all whitespace and which ends with a non-space, if non-empty. |
| Text.Trim | src/controllers/profileController.js:24 | `trim()`: no longer than the input, and if non-empty it starts and ends with a non-space. |
| Text.TrimIsCore | src/controllers/profileController.js:24 | `trim()` is a slice of the input with only whitespace cut on either side, and it neither starts nor ends with whitespace. |
| Text.TrimEmptyIffBlank | src/controllers/profileController.js:19 | A string trims to "" exactly when it is all whitespace. |
| Text.TrimIdempotent | src/controllers/profileController.js:24 | Trimming twice is trimming once. |
| Domain.FirstIndex | src/controllers/cartController.js:17 | `findIndex`: the first matching index, or -1 exactly when none matches. |
| Domain.Code | src/controllers/cartController.js:42-60 | Each error has the status the handlers send: 404 exactly for a missing record, 403 exactly for the ownership gate, 500 exactly for a thrown error caught by the handler, and 400 for the field, credential, file, name and stock checks. |

## Left out

- CartController.AddToCart: requires `quantity > 0`. The handler does not check the body's quantity; a zero or negative quantity would add a line at or below zero, or lower an existing line.
- Number coercion is not modelled: `Number(quantity)`, `Number(price)`, string ids compared with `toString()`, or a body field that is not a string. Quantities are integers, ids are natural numbers, and price is an opaque value carried through unchanged.
- SrcProductController.UpdateProduct: the body's quantity and price are stored without conversion. The model types them as in the other controller, so the difference does not show.
- The separate `product.save()` and `cart.save()` calls are not modelled as separate steps, and neither are races between users. Each handler is one sequential transition; `clearCart`'s partial failure is the only intermediate state modelled.
- `populate`, `select` and projections: a view keeps just the fields the query selects. `sort({ createdAt: -1 })` sorts on a field the schemas never define, so no order is claimed.
- Schema validators (`min: 0`, `required`) are not modelled. `DecreaseQuantity` keeps stock non-negative by its own check.
- Hashing, password comparison and token signing (bcrypt, jsonwebtoken) are function parameters. Token contents and expiry are not modelled.
- Image upload (multer, Cloudinary storage) is not modelled; an upload is its path and filename. Image destruction is a log entry on `ImageHost`. In `controllers/productController.js` the awaited destroy may fail, which is the `destroyFails` parameter. In `index.js` it is fire-and-forget, so its failure is only logged.
- `main.js` is not part of this model: every line is commented out.
- The route files, `src/server.js` and the authentication middleware are wiring only. The seller-role check in `src/middlewares/isSeller.js` and `index.js:70-73` would be a precondition of the product handlers and is not modelled.
- The other `index.js` routes (create and update without ownership at lines 124-158, the product lists, `/login`, `/seller`, `/profile`) duplicate controller logic or only read. They are not modelled separately.
- `controllers/profileController.js` (unconditional single-field writes) is not part of this model.
- SrcAuthController.Login: takes the email and password as strings. An absent field (`undefined` in the query and in `bcrypt.compare`) is not modelled.
- Text.TrimIsCore: `trim()` is over the fixed whitespace set of the ECMAScript grammar. Every Unicode space separator is listed, but later additions to the Unicode category are not modelled.
- A thrown database error (the handlers' `catch` blocks) is not modelled except where the handler's own code throws (`clearCart`, `removeCartItem`, the public-id chain, the image destroy).
